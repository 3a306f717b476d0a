/**
 * The storage the porting layer reaches through System.IO: a set of directories
 * (kept in the order in which a listing returns them), the files with their bytes,
 * and the permissions of the device. Each System.IO call that changes something is a
 * function giving the volume afterwards, or None when the call throws; a call that
 * throws changes nothing.
 */
module Disk {
  import opened Wrappers
  import opened Paths

  type Bytes = seq<bv8>

  /** The exception a directory listing raises (UnauthorizedAccessException). */
  datatype Fault = AccessDenied(path: Path)
  {
    /** ex.GetType().Name + ": " + ex.Message */
    function Describe(): string {
      "UnauthorizedAccessException: Access to the path '" + path + "' is denied."
    }
  }

  /** `entry` sits immediately inside `dir`. */
  predicate IsChild(entry: Path, dir: Path) {
    Parent(entry) == dir && entry != dir
  }

  /** `entry` sits somewhere below `dir`. */
  predicate Beneath(entry: Path, dir: Path) {
    dir in Lineage(Parent(entry))
  }

  /** `entry` is `dir` itself or sits somewhere below it. */
  predicate Within(entry: Path, dir: Path) {
    entry == dir || Beneath(entry, dir)
  }

  /** The length of the longest path of `ps`. */
  function LongestPath(ps: seq<Path>): (n: nat)
    ensures forall p :: p in ps ==> |p| <= n
  {
    if ps == [] then 0
    else
      var rest := LongestPath(ps[1..]);
      assert forall p :: p in ps ==> p == ps[0] || p in ps[1..];
      if |ps[0]| > rest then |ps[0]| else rest
  }

  /** How a recursive file search ends: a match, no match anywhere, or the directory whose listing threw. */
  datatype Search = Found | Exhausted | Denied(at: Path)

  predicate EndsWith(s: string, suffix: string) {
    |suffix| <= |s| && s[|s| - |suffix|..] == suffix
  }

  /** The elements of `dirs` that are immediate children of `dir`, in order. */
  function ChildrenIn(dirs: seq<Path>, dir: Path): (r: seq<Path>)
    ensures forall d :: d in r <==> d in dirs && IsChild(d, dir)
  {
    if dirs == [] then []
    else
      var rest := ChildrenIn(dirs[1..], dir);
      assert forall d :: d in dirs <==> d == dirs[0] || d in dirs[1..];
      if IsChild(dirs[0], dir) then [dirs[0]] + rest else rest
  }

  /**
   * dirs: the directories, in listing order; files: every file with its content;
   * readOnly: directories in which no entry may be created, replaced or removed;
   * unreadable: directories whose listing throws (their entries can still be opened by name).
   */
  datatype Volume = Volume(dirs: seq<Path>, files: map<Path, Bytes>, readOnly: set<Path>, unreadable: set<Path>)
  {
    /** Directory.Exists; the root and the working directory always exist. */
    predicate DirectoryExists(p: Path) {
      p in dirs || IsTop(p)
    }

    /** File.Exists */
    predicate FileExists(p: Path) {
      p in files
    }

    /** Whether listing `dir` throws. */
    predicate CanList(dir: Path) {
      dir !in unreadable
    }

    /** Directory.EnumerateFileSystemEntries(dir).Any(), for a listable directory. */
    predicate HasEntries(dir: Path) {
      (exists d :: d in dirs && IsChild(d, dir)) || (exists f :: f in files && IsChild(f, dir))
    }

    /** Some file whose name ends with `suffix` lies somewhere below `dir`. */
    predicate HasFileBeneath(dir: Path, suffix: string) {
      exists f :: f in files && Beneath(f, dir) && EndsWith(FileName(f), suffix)
    }

    /** Some file whose name ends with `suffix` sits immediately inside `dir`. */
    predicate HasFileIn(dir: Path, suffix: string) {
      exists f :: f in files && IsChild(f, dir) && EndsWith(FileName(f), suffix)
    }

    /** `dir` and every directory below it can be listed. */
    predicate ListableTree(dir: Path) {
      CanList(dir) && forall d :: d in dirs && Beneath(d, dir) ==> CanList(d)
    }

    /** The directory holding `p` exists. */
    predicate ParentExists(p: Path) {
      DirectoryExists(Parent(p))
    }

    /** Every file and directory is a proper entry whose parent directory exists, as on a real device. */
    predicate Grounded() {
      && (forall f :: f in files ==> !IsTop(f) && ParentExists(f))
      && (forall d {:trigger ParentExists(d)} :: d in dirs ==> !IsTop(d) && ParentExists(d))
    }

    /** The subdirectories of each directory of `level`, in turn: the next level of a breadth-first walk. */
    function NextLevel(level: seq<Path>): (r: seq<Path>)
      ensures forall c :: c in r ==> c in dirs && exists d :: d in level && IsChild(c, d)
    {
      if level == [] then [] else Subdirectories(level[0]) + NextLevel(level[1..])
    }

    /**
     * Opening the directories of one level in turn: a directory's own files are looked at
     * before the next directory is opened, and opening one that cannot be listed throws.
     */
    function OpenInTurn(level: seq<Path>, suffix: string): Search {
      if level == [] then Exhausted
      else if !CanList(level[0]) then Denied(level[0])
      else if HasFileIn(level[0], suffix) then Found
      else OpenInTurn(level[1..], suffix)
    }

    /** The breadth-first walk from `level` on; every directory of a level is at least `n` characters long. */
    function SearchLevels(level: seq<Path>, suffix: string, n: nat): Search
      requires forall d :: d in level ==> n <= |d|
      decreases LongestPath(dirs) + 1 - n
    {
      var s := OpenInTurn(level, suffix);
      if !s.Exhausted? then s
      else
        var next := NextLevel(level);
        if next == [] then Exhausted
        else
          assert next[0] in next;
          SearchLevels(next, suffix, n + 1)
    }

    /**
     * Directory.EnumerateFiles(dir, "*" + suffix, SearchOption.AllDirectories).Any(). The
     * enumeration opens `dir`, then the directories below it level by level, each level in
     * listing order, and stops at the first match. Its default options skip no inaccessible
     * entry, so reaching a directory that cannot be listed throws.
     */
    function FindFileBeneath(dir: Path, suffix: string): Search {
      SearchLevels([dir], suffix, |dir|)
    }

    /** Directory.EnumerateDirectories(dir), for a listable directory. */
    function Subdirectories(dir: Path): (r: seq<Path>)
      ensures forall d :: d in r <==> d in dirs && IsChild(d, dir)
    {
      ChildrenIn(dirs, dir)
    }

    /** File.OpenRead + read to the end; None when there is no such file. */
    function ReadFile(p: Path): (r: Option<Bytes>)
      ensures r.Some? <==> FileExists(p)
      ensures r.Some? ==> r.value == files[p]
    {
      if p in files then Some(files[p]) else None
    }

    /** The directories on the lineage of `p` that do not exist yet, outermost first. */
    function Absent(qs: seq<Path>): (r: seq<Path>)
      ensures forall q :: q in r <==> q in qs && q !in dirs
    {
      if qs == [] then []
      else
        var rest := Absent(qs[1..]);
        assert forall q :: q in qs <==> q == qs[0] || q in qs[1..];
        if qs[0] in dirs then rest else [qs[0]] + rest
    }

    /**
     * Directory.CreateDirectory(p): creates `p` and every missing directory above it.
     * Throws for the empty path (ArgumentException), when a file stands on the way, or
     * when a directory has to be created inside a read-only one.
     */
    function CreateDirectory(p: Path): (r: Option<Volume>)
      ensures p == "" ==> r.None?
      ensures r.Some? ==> r.value.files == files && r.value.readOnly == readOnly && r.value.unreadable == unreadable
      ensures r.Some? ==> |dirs| <= |r.value.dirs| && r.value.dirs[..|dirs|] == dirs
      ensures r.Some? ==> forall q :: q in Lineage(p) ==> r.value.DirectoryExists(q)
      ensures r.Some? ==> r.value.DirectoryExists(p)
    {
      var line := Lineage(p);
      if p == "" then None
      else if exists q :: q in line && q in files then None
      else if exists q :: q in line && q !in dirs && Parent(q) in readOnly then None
      else Some(this.(dirs := dirs + Absent(line)))
    }

    /**
     * new FileStream(p, FileMode.Create) followed by writing `data`: creates or truncates the file.
     * Throws when the directory is missing or read-only, or when `p` names a directory.
     */
    function WriteFile(p: Path, data: Bytes): (r: Option<Volume>)
      ensures r.Some? <==> DirectoryExists(Parent(p)) && Parent(p) !in readOnly && !DirectoryExists(p)
      ensures r.Some? ==> r.value == this.(files := files[p := data])
    {
      if !DirectoryExists(Parent(p)) || Parent(p) in readOnly || DirectoryExists(p) then None
      else Some(this.(files := files[p := data]))
    }

    /** new FileStream(p, FileMode.CreateNew): as WriteFile with no data, but throws when the file exists. */
    function CreateNewFile(p: Path): (r: Option<Volume>)
      ensures r.Some? <==> !FileExists(p) && WriteFile(p, []).Some?
      ensures r.Some? ==> r.value == this.(files := files[p := []])
    {
      if p in files then None else WriteFile(p, [])
    }

    /** File.Delete(p): nothing happens when there is no such file. */
    function DeleteFile(p: Path): (r: Option<Volume>)
      ensures r.None? <==> FileExists(p) && Parent(p) in readOnly
      ensures r.Some? ==> r.value == this.(files := files - {p})
    {
      if p !in files then Some(this)
      else if Parent(p) in readOnly then None
      else Some(this.(files := files - {p}))
    }

    /** File.Move(s, d) without overwriting: throws when `s` is missing or `d` is taken. */
    function MoveFile(s: Path, d: Path): (r: Option<Volume>)
      ensures r.Some? <==> && FileExists(s) && !FileExists(d) && !DirectoryExists(d)
                           && DirectoryExists(Parent(d)) && Parent(s) !in readOnly && Parent(d) !in readOnly
      ensures r.Some? ==> r.value == this.(files := (files - {s})[d := files[s]])
    {
      if s !in files || d in files || DirectoryExists(d) || !DirectoryExists(Parent(d))
         || Parent(s) in readOnly || Parent(d) in readOnly
      then None
      else Some(this.(files := (files - {s})[d := files[s]]))
    }
  }

  /** What a sequence of System.IO calls leaves behind, and whether it ran to the end without throwing. */
  datatype Effect = Effect(after: Volume, completed: bool)

  /** Create the directory (and those above it) unless it exists already. */
  function EnsureDirectory(v: Volume, d: Path): (r: Option<Volume>)
    ensures r.Some? ==> r.value.files == v.files && r.value.readOnly == v.readOnly && r.value.DirectoryExists(d)
    ensures v.DirectoryExists(d) ==> r == Some(v)
  {
    if v.DirectoryExists(d) then Some(v) else v.CreateDirectory(d)
  }

  /** No path is both a file and a directory: what every operation above keeps. */
  predicate Consistent(v: Volume) {
    forall p :: p in v.files ==> !v.DirectoryExists(p)
  }

  /** Making sure a directory exists keeps a consistent volume consistent. */
  lemma EnsureDirectoryConsistent(v: Volume, d: Path)
    requires Consistent(v) && EnsureDirectory(v, d).Some?
    ensures Consistent(EnsureDirectory(v, d).value)
  {
    if !v.DirectoryExists(d) {
      CreateDirectoryConsistent(v, d);
    }
  }

  /** Creating directories keeps the volume consistent: a file on the way makes the call throw. */
  lemma CreateDirectoryConsistent(v: Volume, p: Path)
    requires Consistent(v) && v.CreateDirectory(p).Some?
    ensures Consistent(v.CreateDirectory(p).value)
  {
    var line := Lineage(p);
    var w := v.CreateDirectory(p).value;
    assert w.dirs == v.dirs + v.Absent(line);
    forall f | f in w.files
      ensures !w.DirectoryExists(f)
    {
      assert f !in line;
    }
  }

  /** Writing, deleting and moving a file keep the volume consistent. */
  lemma FileOperationsConsistent(v: Volume, p: Path, q: Path, data: Bytes)
    requires Consistent(v)
    ensures v.WriteFile(p, data).Some? ==> Consistent(v.WriteFile(p, data).value)
    ensures v.DeleteFile(p).Some? ==> Consistent(v.DeleteFile(p).value)
    ensures v.MoveFile(p, q).Some? ==> Consistent(v.MoveFile(p, q).value)
  {
  }

  // ---------------------------------------------------------------------------
  // The recursive file search
  // ---------------------------------------------------------------------------

  /** A directory on the lineage of `p` is no longer than `p`. */
  lemma {:induction false} LineageShorter(q: Path, p: Path)
    requires q in Lineage(p)
    ensures |q| <= |p|
    decreases |p|
  {
    if q != p {
      LineageShorter(q, Parent(p));
    }
  }

  /** The child of a directory at or below `dir` lies below `dir`. */
  lemma ChildWithin(c: Path, d: Path, dir: Path)
    requires IsChild(c, d) && Within(d, dir) && !IsTop(dir)
    ensures Beneath(c, dir)
  {
    if d != dir {
      assert !IsTop(Parent(d));
    }
    assert Lineage(d) == Lineage(Parent(d)) + [d];
  }

  /** Below `d0` lies the child of `d0` that leads to `q`. */
  lemma {:induction false} ChildTowards(q: Path, d0: Path) returns (c: Path)
    requires Beneath(q, d0)
    ensures IsChild(c, d0) && Within(q, c) && c in Lineage(q)
    decreases |q|
  {
    assert !IsTop(Parent(q)) && !IsTop(q);
    assert Lineage(q) == Lineage(Parent(q)) + [q];
    if Parent(q) == d0 {
      c := q;
    } else {
      assert Lineage(Parent(q)) == Lineage(Parent(Parent(q))) + [Parent(q)];
      c := ChildTowards(Parent(q), d0);
      assert Beneath(q, c) by {
        if c != Parent(q) {
          assert Lineage(Parent(q)) == Lineage(Parent(Parent(q))) + [Parent(q)];
        }
      }
    }
  }

  /** On a grounded volume every directory above an existing one exists too. */
  lemma {:induction false} GroundedLineage(v: Volume, p: Path)
    requires v.Grounded() && v.DirectoryExists(p)
    ensures forall q :: q in Lineage(p) ==> q in v.dirs
    decreases |p|
  {
    if !IsTop(p) {
      assert v.ParentExists(p);
      GroundedLineage(v, Parent(p));
    }
  }

  /** The next level holds every subdirectory of every directory of the level. */
  lemma {:induction false} NextLevelHas(v: Volume, level: seq<Path>, d: Path, c: Path)
    requires d in level && c in v.dirs && IsChild(c, d)
    ensures c in v.NextLevel(level)
  {
    if level[0] != d {
      NextLevelHas(v, level[1..], d, c);
    }
  }

  /** One level opened in turn: what it finds and where it throws come from that level. */
  lemma {:induction false} OpenInTurnFacts(v: Volume, level: seq<Path>, suffix: string)
    ensures v.OpenInTurn(level, suffix) == Found ==> exists d :: d in level && v.CanList(d) && v.HasFileIn(d, suffix)
    ensures v.OpenInTurn(level, suffix).Denied? ==>
              v.OpenInTurn(level, suffix).at in level && !v.CanList(v.OpenInTurn(level, suffix).at)
    ensures v.OpenInTurn(level, suffix) == Exhausted <==>
              forall d :: d in level ==> v.CanList(d) && !v.HasFileIn(d, suffix)
  {
    if level != [] {
      OpenInTurnFacts(v, level[1..], suffix);
      assert forall d :: d in level <==> d == level[0] || d in level[1..];
    }
  }

  /** The next level is one character deeper at least. */
  lemma NextLevelDeeper(v: Volume, level: seq<Path>, n: nat)
    requires forall d :: d in level ==> n <= |d|
    ensures forall c :: c in v.NextLevel(level) ==> n + 1 <= |c| && c in v.dirs
  {
    forall c | c in v.NextLevel(level)
      ensures n + 1 <= |c|
    {
      var d :| d in level && IsChild(c, d);
    }
  }

  /** The next level of a walk from directories at or below `dir` lies below `dir`. */
  lemma NextLevelWithin(v: Volume, level: seq<Path>, n: nat, dir: Path)
    requires forall d :: d in level ==> n <= |d| && Within(d, dir)
    requires !IsTop(dir)
    ensures forall c :: c in v.NextLevel(level) ==> n + 1 <= |c| && Within(c, dir) && c in v.dirs
  {
    NextLevelDeeper(v, level, n);
    forall c | c in v.NextLevel(level)
      ensures Within(c, dir)
    {
      var d :| d in level && IsChild(c, d);
      ChildWithin(c, d, dir);
    }
  }

  /** A level opened in turn finds only files below `dir` when its directories lie at or below `dir`. */
  lemma OpenInTurnWithin(v: Volume, level: seq<Path>, suffix: string, dir: Path)
    requires forall d :: d in level ==> Within(d, dir)
    requires !IsTop(dir)
    ensures v.OpenInTurn(level, suffix) == Found ==> v.HasFileBeneath(dir, suffix)
    ensures v.OpenInTurn(level, suffix).Denied? ==>
              v.OpenInTurn(level, suffix).at in level && !v.CanList(v.OpenInTurn(level, suffix).at)
  {
    OpenInTurnFacts(v, level, suffix);
    if v.OpenInTurn(level, suffix) == Found {
      var d :| d in level && v.CanList(d) && v.HasFileIn(d, suffix);
      var f :| f in v.files && IsChild(f, d) && EndsWith(FileName(f), suffix);
      ChildWithin(f, d, dir);
    }
  }

  /** A walk from directories at or below `dir` finds only files below `dir` and throws only at a directory there. */
  lemma {:induction false} SearchLevelsSound(v: Volume, level: seq<Path>, suffix: string, n: nat, dir: Path)
    requires forall d :: d in level ==> n <= |d| && Within(d, dir) && (d == dir || d in v.dirs)
    requires !IsTop(dir)
    ensures v.SearchLevels(level, suffix, n) == Found ==> v.HasFileBeneath(dir, suffix)
    ensures var s := v.SearchLevels(level, suffix, n);
            s.Denied? ==> Within(s.at, dir) && (s.at == dir || s.at in v.dirs) && !v.CanList(s.at)
    decreases LongestPath(v.dirs) + 1 - n
  {
    OpenInTurnWithin(v, level, suffix, dir);
    if v.OpenInTurn(level, suffix) == Exhausted {
      var next := v.NextLevel(level);
      NextLevelWithin(v, level, n, dir);
      if next != [] {
        assert next[0] in next;
        assert v.SearchLevels(level, suffix, n) == v.SearchLevels(next, suffix, n + 1);
        SearchLevelsSound(v, next, suffix, n + 1, dir);
      }
    }
  }

  /**
   * A level whose opening finds nothing passes the walk on towards a file below one of its
   * directories: the child on the way to the file is in the next level.
   */
  lemma StepTowards(v: Volume, level: seq<Path>, n: nat, d0: Path, f: Path) returns (c: Path)
    requires v.Grounded()
    requires forall d :: d in level ==> n <= |d|
    requires d0 in level && f in v.files && Beneath(Parent(f), d0)
    ensures c in v.NextLevel(level) && Within(Parent(f), c) && |d0| < |c| <= |Parent(f)|
    ensures forall e :: e in v.NextLevel(level) ==> n + 1 <= |e|
  {
    c := ChildTowards(Parent(f), d0);
    GroundedLineage(v, Parent(f));
    NextLevelHas(v, level, d0, c);
    NextLevelDeeper(v, level, n);
    LineageShorter(c, Parent(f));
  }

  /** On a grounded volume, a walk that reaches a directory above a matching file does not end empty-handed. */
  lemma {:induction false} SearchLevelsReaches(v: Volume, level: seq<Path>, suffix: string, n: nat, d0: Path, f: Path)
    requires v.Grounded()
    requires forall d :: d in level ==> n <= |d|
    requires d0 in level && f in v.files && EndsWith(FileName(f), suffix) && Within(Parent(f), d0)
    ensures v.SearchLevels(level, suffix, n) != Exhausted
    decreases |Parent(f)| - |d0|
  {
    OpenInTurnFacts(v, level, suffix);
    if v.OpenInTurn(level, suffix) == Exhausted {
      if Parent(f) == d0 {
        assert false;
      } else {
        var c := StepTowards(v, level, n, d0, f);
        var next := v.NextLevel(level);
        assert v.SearchLevels(level, suffix, n) == v.SearchLevels(next, suffix, n + 1);
        SearchLevelsReaches(v, next, suffix, n + 1, c, f);
      }
    }
  }

  /** The search finds only real files, and throws only at an unlistable directory at or below where it starts. */
  lemma FindFileBeneathSound(v: Volume, dir: Path, suffix: string)
    requires !IsTop(dir)
    ensures v.FindFileBeneath(dir, suffix) == Found ==> v.HasFileBeneath(dir, suffix)
    ensures var s := v.FindFileBeneath(dir, suffix);
            s.Denied? ==> Within(s.at, dir) && (s.at == dir || s.at in v.dirs) && !v.CanList(s.at)
  {
    SearchLevelsSound(v, [dir], suffix, |dir|, dir);
  }

  /** Below a directory whose whole tree can be listed, the search never throws. */
  lemma ListableTreeNotDenied(v: Volume, dir: Path, suffix: string)
    requires !IsTop(dir) && v.ListableTree(dir)
    ensures !v.FindFileBeneath(dir, suffix).Denied?
  {
    FindFileBeneathSound(v, dir, suffix);
  }

  /** A file below `dir` sits in `dir` itself or in a directory below it. */
  lemma ParentWithin(f: Path, dir: Path)
    requires Beneath(f, dir)
    ensures Within(Parent(f), dir)
  {
    if Parent(f) != dir {
      assert !IsTop(Parent(f));
      assert Lineage(Parent(f)) == Lineage(Parent(Parent(f))) + [Parent(f)];
    }
  }

  /** On a grounded volume, the search started at `dir` reaches every matching file below it unless it throws first. */
  lemma FileReached(v: Volume, dir: Path, suffix: string, f: Path)
    requires v.Grounded() && f in v.files && Beneath(f, dir) && EndsWith(FileName(f), suffix)
    ensures v.FindFileBeneath(dir, suffix) != Exhausted
  {
    ParentWithin(f, dir);
    var level := [dir];
    assert dir in level && forall d :: d in level ==> |dir| <= |d|;
    SearchLevelsReaches(v, level, suffix, |dir|, dir, f);
  }

  /** On a grounded volume, a search that does not throw finds a file exactly when there is one below `dir`. */
  lemma FindFileBeneathComplete(v: Volume, dir: Path, suffix: string)
    requires v.Grounded()
    ensures v.FindFileBeneath(dir, suffix) == Exhausted ==> !v.HasFileBeneath(dir, suffix)
  {
    if v.HasFileBeneath(dir, suffix) {
      var f :| f in v.files && Beneath(f, dir) && EndsWith(FileName(f), suffix);
      FileReached(v, dir, suffix, f);
    }
  }

  /** On a grounded volume, below a tree that can be listed throughout, the search finds a file exactly when there is one. */
  lemma FindFileBeneathExact(v: Volume, dir: Path, suffix: string)
    requires !IsTop(dir) && v.Grounded() && v.ListableTree(dir)
    ensures v.FindFileBeneath(dir, suffix) == (if v.HasFileBeneath(dir, suffix) then Found else Exhausted)
  {
    FindFileBeneathSound(v, dir, suffix);
    FindFileBeneathComplete(v, dir, suffix);
  }

  /** A matching file inside the directory itself is found before any subdirectory is opened. */
  lemma OwnFileFound(v: Volume, dir: Path, suffix: string)
    requires v.CanList(dir) && v.HasFileIn(dir, suffix)
    ensures v.FindFileBeneath(dir, suffix) == Found
  {
    assert v.OpenInTurn([dir], suffix) == Found;
  }

  /**
   * With no match inside the directory itself, the first subdirectory in listing order is
   * opened next, and the search throws there when it cannot be listed, whatever lies below.
   */
  lemma FirstSubdirectoryDenied(v: Volume, dir: Path, suffix: string)
    requires v.CanList(dir) && !v.HasFileIn(dir, suffix)
    requires v.Subdirectories(dir) != [] && !v.CanList(v.Subdirectories(dir)[0])
    ensures v.FindFileBeneath(dir, suffix) == Denied(v.Subdirectories(dir)[0])
  {
    var level := [dir];
    assert v.OpenInTurn(level[1..], suffix) == Exhausted;
    assert v.OpenInTurn(level, suffix) == Exhausted;
    var next := v.NextLevel(level);
    assert v.NextLevel(level[1..]) == [];
    assert next == v.Subdirectories(dir);
    assert next[0] in next;
    NextLevelDeeper(v, level, |dir|);
    assert v.FindFileBeneath(dir, suffix) == v.SearchLevels(next, suffix, |dir| + 1);
    assert v.OpenInTurn(next, suffix) == Denied(next[0]);
  }

  /** The device itself, as the porting layer's code changes it step by step. */
  class FileSystem {
    var volume: Volume

    constructor (initial: Volume)
      ensures volume == initial
    {
      volume := initial;
    }
  }
}
