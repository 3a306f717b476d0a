/**
 * The parts of System.IO.Path and System.String that the porting layer relies on,
 * on the Unix-like platform it targets: '/' is the only directory separator and a
 * path is rooted exactly when it starts with '/'. Case-insensitive comparison
 * (StringComparison.OrdinalIgnoreCase) folds the ASCII letters.
 */
module Paths {

  type Path = string

  const Separator: char := '/'

  /** IPathsProvider: the four roots the platform head supplies. */
  datatype PathSet = PathSet(baseData: Path, content: Path, logs: Path, save: Path)

  predicate IsRooted(p: Path) {
    |p| > 0 && p[0] == Separator
  }

  /** Path.Combine(a, b): an empty side yields the other, a rooted right side discards the left one. */
  function Combine(a: Path, b: Path): Path {
    if a == "" then b
    else if b == "" then a
    else if IsRooted(b) then b
    else if a[|a| - 1] == Separator then a + b
    else a + [Separator] + b
  }

  /** Combine keeps the left side as a prefix unless one side is empty or the right side is rooted. */
  lemma CombineCases(a: Path, b: Path)
    ensures a == "" ==> Combine(a, b) == b
    ensures b == "" ==> Combine(a, b) == a
    ensures IsRooted(b) ==> Combine(a, b) == b
    ensures a != "" && b != "" && !IsRooted(b) ==>
              |Combine(a, b)| > |a| && Combine(a, b)[..|a|] == a && !IsTop(Combine(a, b))
  {
    if a != "" && b != "" && !IsRooted(b) {
      var r := Combine(a, b);
      assert r[..|a|] == a;
    }
  }

  /** Index of the last separator in `p`, or -1 when there is none. */
  function LastSeparator(p: Path): (i: int)
    ensures -1 <= i < |p|
    ensures 0 <= i ==> p[i] == Separator
    ensures forall k :: i < k < |p| ==> p[k] != Separator
  {
    if p == [] then -1
    else if p[|p| - 1] == Separator then |p| - 1
    else LastSeparator(p[..|p| - 1])
  }

  /**
   * Path.GetDirectoryName / FileInfo.Directory: the part before the last separator.
   * The root "/" and the working directory "" are their own parents.
   */
  function Parent(p: Path): (r: Path)
    ensures IsTop(p) <==> r == p
    ensures !IsTop(p) ==> |r| < |p|
  {
    var i := LastSeparator(p);
    if i < 0 then "" else if i == 0 then [Separator] else p[..i]
  }

  /** Path.GetFileName: the part after the last separator. */
  function FileName(p: Path): (r: Path)
    ensures forall k :: 0 <= k < |r| ==> r[k] != Separator
  {
    p[LastSeparator(p) + 1..]
  }

  /** The root and the working directory: they always exist and are their own parents. */
  predicate IsTop(p: Path) {
    p == [] || p == [Separator]
  }

  /** A directory name as the platform hands it out: no trailing separator except for the root. */
  predicate NoTrailingSeparator(p: Path) {
    p == [Separator] || p == [] || p[|p| - 1] != Separator
  }

  /** `p` and every directory above it, outermost first, leaving out the root / working directory. */
  function Lineage(p: Path): (r: seq<Path>)
    ensures !IsTop(p) ==> |r| > 0 && r[|r| - 1] == p
    ensures forall q :: q in r ==> !IsTop(q)
    decreases |p|
  {
    if IsTop(p) then [] else Lineage(Parent(p)) + [p]
  }

  /** The ancestors of `p` all lie on its lineage. */
  lemma {:induction false} ParentInLineage(p: Path, q: Path)
    requires q in Lineage(p) && !IsTop(Parent(q))
    ensures Parent(q) in Lineage(p)
    decreases |p|
  {
    if q != p {
      ParentInLineage(Parent(p), q);
    }
  }

  /** A name without separators appended to a directory is a child of that directory. */
  lemma CombineChild(dir: Path, name: Path)
    requires NoTrailingSeparator(dir)
    requires name != "" && Separator !in name
    ensures Parent(Combine(dir, name)) == dir
    ensures FileName(Combine(dir, name)) == name
  {
    var r := Combine(dir, name);
    if dir == "" {
      assert r == name;
      assert LastSeparator(r) == -1;
    } else if dir == [Separator] {
      assert r == [Separator] + name;
      assert forall k :: 0 < k < |r| ==> r[k] == name[k - 1];
      LastSeparatorAt(r, 0);
      assert r[1..] == name;
    } else {
      assert r == dir + [Separator] + name;
      assert forall k :: |dir| < k < |r| ==> r[k] == name[k - |dir| - 1];
      LastSeparatorAt(r, |dir|);
      assert r[..|dir|] == dir;
      assert r[|dir| + 1..] == name;
    }
  }

  /** Path.Combine ends with its right part, so it ends without a separator when that part does. */
  lemma CombineEndsWithRight(a: Path, b: Path)
    requires b != "" && b[|b| - 1] != Separator
    ensures NoTrailingSeparator(Combine(a, b))
  {
    var r := Combine(a, b);
    assert r[|r| - 1] == b[|b| - 1];
  }

  /** The last separator is the one after which no separator follows. */
  lemma LastSeparatorAt(p: Path, i: int)
    requires 0 <= i < |p| && p[i] == Separator
    requires forall k :: i < k < |p| ==> p[k] != Separator
    ensures LastSeparator(p) == i
  {
  }

  /** Appending text without separators (".tmp") does not change the parent directory. */
  lemma ParentOfSuffixed(p: Path, suffix: Path)
    requires Separator !in suffix
    ensures Parent(p + suffix) == Parent(p)
  {
    var q := p + suffix;
    assert forall k :: |p| <= k < |q| ==> q[k] == suffix[k - |p|];
    var i := LastSeparator(p);
    assert LastSeparator(q) == i by {
      LastSeparatorOfSuffixed(p, suffix);
    }
    if i > 0 {
      assert q[..i] == p[..i];
    }
  }

  lemma {:induction false} LastSeparatorOfSuffixed(p: Path, suffix: Path)
    requires Separator !in suffix
    ensures LastSeparator(p + suffix) == LastSeparator(p)
    decreases |suffix|
  {
    if suffix != [] {
      var q := p + suffix;
      var shorter := suffix[..|suffix| - 1];
      assert q[..|q| - 1] == p + shorter;
      assert suffix[|suffix| - 1] in suffix;
      LastSeparatorOfSuffixed(p, shorter);
    } else {
      assert p + suffix == p;
    }
  }

  /** char.ToUpperInvariant restricted to ASCII. */
  function Upper(c: char): (u: char)
    ensures 'a' <= c <= 'z' ==> 'A' <= u <= 'Z' && u as int == c as int - 32
    ensures !('a' <= c <= 'z') ==> u == c
  {
    if 'a' <= c <= 'z' then (c as int - 32) as char else c
  }

  /** The string with every ASCII letter upper-cased. */
  function FoldCase(s: string): (r: string)
    ensures |r| == |s|
  {
    if s == [] then [] else [Upper(s[0])] + FoldCase(s[1..])
  }

  /** Folding is per character. */
  lemma {:induction false} FoldCaseAt(s: string, i: nat)
    requires i < |s|
    ensures FoldCase(s)[i] == Upper(s[i])
    decreases i
  {
    if i > 0 {
      FoldCaseAt(s[1..], i - 1);
    }
  }

  /** Every character of the folded string is the upper-cased character at the same place. */
  lemma FoldCaseEach(s: string)
    ensures forall i :: 0 <= i < |s| ==> FoldCase(s)[i] == Upper(s[i])
  {
    forall i | 0 <= i < |s|
      ensures FoldCase(s)[i] == Upper(s[i])
    {
      FoldCaseAt(s, i);
    }
  }

  /** string.Equals(a, b, StringComparison.OrdinalIgnoreCase). */
  predicate EqualsIgnoreCase(a: string, b: string) {
    FoldCase(a) == FoldCase(b)
  }

  /** s.StartsWith(prefix, StringComparison.OrdinalIgnoreCase). */
  predicate StartsWithIgnoreCase(s: string, prefix: string) {
    |prefix| <= |s| && EqualsIgnoreCase(s[..|prefix|], prefix)
  }

  /** s.Replace(from, to) for single characters. */
  function Replace(s: string, from: char, to: char): (r: string)
    ensures |r| == |s|
    ensures forall i :: 0 <= i < |s| ==> r[i] == (if s[i] == from then to else s[i])
  {
    seq(|s|, i requires 0 <= i < |s| => if s[i] == from then to else s[i])
  }

}
