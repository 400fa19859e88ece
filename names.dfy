/** The string handling of the post-processing loop: PHP's `explode` and `trim`, and
    the decorated breadcrumb shown in the interactive grid. */
module Names {
  import opened Store

  /** Splits `s` at every `d`, as `explode(d, s)`: always at least one part. */
  function Explode(s: string, d: char): (parts: seq<string>)
    ensures |parts| >= 1
  {
    if |s| == 0 then [""]
    else
      var rest := Explode(s[1..], d);
      if s[0] == d then [""] + rest else [[s[0]] + rest[0]] + rest[1..]
  }

  /** Joins parts with `d`, as `implode(d, parts)`. */
  function Implode(parts: seq<string>, d: char): string
    requires |parts| >= 1
  {
    if |parts| == 1 then parts[0] else parts[0] + [d] + Implode(parts[1..], d)
  }

  /** `explode` loses nothing: joining the parts with the separator gives the string back,
      and no part contains the separator. */
  lemma {:induction false} ExplodeImplode(s: string, d: char)
    ensures Implode(Explode(s, d), d) == s
    ensures forall k :: 0 <= k < |Explode(s, d)| ==> d !in Explode(s, d)[k]
  {
    if |s| > 0 {
      ExplodeImplode(s[1..], d);
      var rest := Explode(s[1..], d);
      if s[0] == d {
        assert Explode(s, d)[1..] == rest;
        assert s == [d] + s[1..];
      } else {
        var parts := Explode(s, d);
        assert parts[1..] == rest[1..];
        if |rest| > 1 {
          assert Implode(rest, d) == rest[0] + [d] + Implode(rest[1..], d);
          assert Implode(parts, d) == ([s[0]] + rest[0]) + [d] + Implode(rest[1..], d);
        }
        assert s == [s[0]] + s[1..];
        forall k | 0 <= k < |parts| ensures d !in parts[k] {
          if k > 0 {
            assert parts[k] == rest[k];
          }
        }
      }
    }
  }

  /** A string without the separator is one part; `a + d + b` splits after `a`. */
  lemma {:induction false} ExplodeAt(a: string, d: char, b: string)
    requires d !in a
    ensures Explode(a + [d] + b, d) == [a] + Explode(b, d)
  {
    if |a| > 0 {
      ExplodeAt(a[1..], d, b);
      assert (a + [d] + b)[1..] == a[1..] + [d] + b;
      assert (a + [d] + b)[0] == a[0] && a[0] != d;
      assert a == [a[0]] + a[1..];
    } else {
      assert a + [d] + b == [d] + b;
    }
  }

  lemma {:induction false} ExplodeWithout(a: string, d: char)
    requires d !in a
    ensures Explode(a, d) == [a]
  {
    if |a| > 0 {
      ExplodeWithout(a[1..], d);
      assert a == [a[0]] + a[1..];
    }
  }

  /** The characters PHP's `trim` strips by default. */
  predicate IsSpace(c: char) {
    c == ' ' || c == '\t' || c == '\n' || c == '\r' || c as int == 0 || c as int == 11
  }

  /** `trim`: strips space characters from both ends; the result has none at either
      end, and a string that has none there is returned unchanged. */
  function Trim(s: string): (r: string)
    ensures |r| <= |s|
    ensures Trimmed(r)
    ensures Trimmed(s) ==> r == s
  {
    if |s| > 0 && IsSpace(s[0]) then Trim(s[1..])
    else if |s| > 0 && IsSpace(s[|s| - 1]) then Trim(s[..|s| - 1])
    else s
  }

  /** A name that neither starts nor ends with a space character. */
  predicate Trimmed(s: string) {
    |s| == 0 || (!IsSpace(s[0]) && !IsSpace(s[|s| - 1]))
  }

  /** `r` is the piece of `s` starting at `a`, and everything of `s` outside it is a
      space character. */
  predicate CutAt(s: string, r: string, a: nat) {
    a + |r| <= |s| && r == s[a..a + |r|] &&
    (forall k :: 0 <= k < a ==> IsSpace(s[k])) &&
    (forall k :: a + |r| <= k < |s| ==> IsSpace(s[k]))
  }

  /** Cutting one more space at the front keeps a cut a cut. */
  lemma CutFront(s: string, r: string, a: nat)
    requires |s| > 0 && IsSpace(s[0]) && CutAt(s[1..], r, a)
    ensures CutAt(s, r, a + 1)
  {
  }

  /** Cutting one more space at the back keeps a cut a cut. */
  lemma CutBack(s: string, r: string, a: nat)
    requires |s| > 0 && IsSpace(s[|s| - 1]) && CutAt(s[..|s| - 1], r, a)
    ensures CutAt(s, r, a)
  {
  }

  /** `trim` removes space characters at the ends only: the result is a contiguous
      piece of the input, and everything cut off on either side is a space. */
  lemma {:induction false} TrimCutsOnlySpaces(s: string)
    ensures exists a :: CutAt(s, Trim(s), a)
  {
    var r := Trim(s);
    if |s| > 0 && IsSpace(s[0]) {
      TrimCutsOnlySpaces(s[1..]);
      var a: nat :| CutAt(s[1..], r, a);
      CutFront(s, r, a);
    } else if |s| > 0 && IsSpace(s[|s| - 1]) {
      TrimCutsOnlySpaces(s[..|s| - 1]);
      var a: nat :| CutAt(s[..|s| - 1], r, a);
      CutBack(s, r, a);
    } else {
      assert CutAt(s, r, 0);
    }
  }

  lemma TrimSpacesAround(p: string)
    requires Trimmed(p)
    ensures Trim(" " + p + " ") == p
  {
  }

  lemma TrimSpaceAfter(p: string)
    requires Trimmed(p)
    ensures Trim(p + " ") == p
  {
  }

  lemma TrimSpaceBefore(p: string)
    requires Trimmed(p)
    ensures Trim(" " + p) == p
  {
  }

  const FolderIcon: string := "<i class=\"icon-folder-open\"></i> "
  const Bullet: string := "&bull; "

  /** The interactive name: folder icon, trimmed first part of the name split at `>`,
      `" > "`, a bullet for a category with no children or another folder icon, and
      the trimmed second part; a NULL name splits like the empty string, and a
      missing second part reads as empty. */
  function Decorate(name: Option<string>, hasChildren: nat): string {
    var parts := Explode(name.GetOr(""), '>');
    FolderIcon + Trim(parts[0]) + " > " + (if hasChildren == 0 then Bullet else FolderIcon) +
      Trim(if |parts| > 1 then parts[1] else "")
  }

  /** A NULL name (a missing parent or category name row) shows as an empty breadcrumb:
      the icon, `" > "` and the marker only. */
  lemma DecorateMissingName(hasChildren: nat)
    ensures Decorate(None, hasChildren) == FolderIcon + " > " + (if hasChildren == 0 then Bullet else FolderIcon)
  {
  }

  /** A breadcrumb `parent > name` built from names without `>` and without surrounding
      spaces is shown as the parent, the marker chosen by `hasChildren`, and the name. */
  lemma DecorateBreadcrumb(parent: string, name: string, hasChildren: nat)
    requires '>' !in parent && '>' !in name
    requires Trimmed(parent) && Trimmed(name)
    ensures Decorate(Some(parent + " > " + name), hasChildren) ==
      FolderIcon + parent + " > " + (if hasChildren == 0 then Bullet else FolderIcon) + name
  {
    var a := parent + " ";
    var b := " " + name;
    assert parent + " > " + name == a + ['>'] + b;
    assert '>' !in a && '>' !in b;
    ExplodeAt(a, '>', b);
    ExplodeWithout(b, '>');
    TrimSpaceAfter(parent);
    TrimSpaceBefore(name);
  }

  /** Only the first two parts are kept: a category named `b > c` under `a` shows as
      `a > b`, dropping `c`. */
  lemma DecorateKeepsTwoParts(a: string, b: string, c: string, hasChildren: nat)
    requires '>' !in a && '>' !in b && '>' !in c
    requires Trimmed(a) && Trimmed(b)
    ensures Decorate(Some(a + " > " + b + " > " + c), hasChildren) ==
      FolderIcon + a + " > " + (if hasChildren == 0 then Bullet else FolderIcon) + b
  {
    var p0, p1, p2 := a + " ", " " + b + " ", " " + c;
    assert a + " > " + b + " > " + c == p0 + ['>'] + (p1 + ['>'] + p2);
    assert '>' !in p0 && '>' !in p1 && '>' !in p2;
    ExplodeAt(p0, '>', p1 + ['>'] + p2);
    ExplodeAt(p1, '>', p2);
    TrimSpaceAfter(a);
    TrimSpacesAround(b);
  }
}
