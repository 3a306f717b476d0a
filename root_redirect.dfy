/**
 * RootRedirectFileSystem: the file system the game sees. A relative path that starts with
 * "Content" is resolved under the content root, one that starts with "Save" or "Saves" under
 * the save root, and any other relative path under the base data root; rooted paths are
 * used as given. The operations that write create the missing parent directory first.
 */
module RootRedirect {
  import opened Wrappers
  import opened Paths
  import opened Disk

  const ContentPrefix: string := "Content"
  const SavePrefix: string := "Save"
  const SavesPrefix: string := "Saves"

  /** The root a relative path is resolved under. */
  datatype Root = ContentRoot | SaveRoot | BaseRoot

  /** A relative path split into the root it goes under and the rest of it. */
  datatype Redirect = Redirect(root: Root, rel: Path)

  function RootPath(paths: PathSet, root: Root): Path {
    match root
    case ContentRoot => paths.content
    case SaveRoot => paths.save
    case BaseRoot => paths.baseData
  }

  /** `s` is `prefix` or starts with `prefix + "/"`, ignoring case. */
  predicate UnderPrefix(s: string, prefix: string) {
    StartsWithIgnoreCase(s, prefix + [Separator]) || EqualsIgnoreCase(s, prefix)
  }

  /** The prefix rules of Normalize, applied to a path whose separators are already '/'. */
  function Classify(norm: Path): (r: Redirect) {
    if UnderPrefix(norm, ContentPrefix) then
      Redirect(ContentRoot, if |norm| <= |ContentPrefix| then "" else norm[|ContentPrefix| + 1..])
    else if UnderPrefix(norm, SavePrefix) || UnderPrefix(norm, SavesPrefix) then
      var rel :=
        if StartsWithIgnoreCase(norm, SavePrefix + [Separator]) then norm[|SavePrefix| + 1..]
        else if EqualsIgnoreCase(norm, SavePrefix) then ""
        else if StartsWithIgnoreCase(norm, SavesPrefix + [Separator]) then norm[|SavesPrefix| + 1..]
        else "";
      Redirect(SaveRoot, rel)
    else Redirect(BaseRoot, norm)
  }

  /** Normalize: rooted and empty paths as given; otherwise '\' becomes '/' and the path is resolved under its root. */
  function Normalize(paths: PathSet, p: Path): (r: Path)
    ensures p == "" || IsRooted(p) ==> r == p
    ensures AbsoluteRoots(paths) && p != "" ==> IsRooted(r)
  {
    if p == "" || IsRooted(p) then p
    else
      var c := Classify(Replace(p, '\\', Separator));
      CombineCases(RootPath(paths, c.root), c.rel);
      Combine(RootPath(paths, c.root), c.rel)
  }

  // ---------------------------------------------------------------------------
  // Properties of Normalize
  // ---------------------------------------------------------------------------

  /** Backslashes are turned into '/' before any prefix is compared. */
  lemma BackslashesFirst(paths: PathSet, p: Path)
    requires p != "" && !IsRooted(p)
    ensures Normalize(paths, p) == Normalize(paths, Replace(p, '\\', Separator))
  {
    var norm := Replace(p, '\\', Separator);
    assert Replace(norm, '\\', Separator) == norm;
    if IsRooted(norm) {
      var c := Classify(norm);
      assert !UnderPrefix(norm, ContentPrefix) by { NotUnderPrefixWhenRooted(norm, ContentPrefix); }
      assert !UnderPrefix(norm, SavePrefix) by { NotUnderPrefixWhenRooted(norm, SavePrefix); }
      assert !UnderPrefix(norm, SavesPrefix) by { NotUnderPrefixWhenRooted(norm, SavesPrefix); }
      assert c == Redirect(BaseRoot, norm);
      CombineCases(RootPath(paths, c.root), norm);
    }
  }

  lemma NotUnderPrefixWhenRooted(s: string, prefix: string)
    requires IsRooted(s) && prefix != "" && prefix[0] != Separator
    ensures !UnderPrefix(s, prefix)
  {
    var long := prefix + [Separator];
    FoldCaseAt(s, 0);
    FoldCaseAt(prefix, 0);
    FoldCaseAt(long, 0);
    if |long| <= |s| {
      FoldCaseAt(s[..|long|], 0);
    }
  }

  /** A path under "Content" (ignoring case) resolves under the content root with "Content/" removed; "Content" alone is the content root. */
  lemma ContentRule(paths: PathSet, p: Path)
    requires p != "" && !IsRooted(p)
    requires UnderPrefix(Replace(p, '\\', Separator), ContentPrefix)
    ensures var norm := Replace(p, '\\', Separator);
            && (|norm| > |ContentPrefix| ==> Normalize(paths, p) == Combine(paths.content, norm[|ContentPrefix| + 1..]))
            && (|norm| <= |ContentPrefix| ==> Normalize(paths, p) == paths.content)
  {
    CombineCases(paths.content, "");
  }

  /** "Saves/x" is not read as "Save/" followed by "s/x": the fifth character would have to be '/'. */
  lemma SavesIsNotSave(s: string)
    requires StartsWithIgnoreCase(s, SavesPrefix + [Separator])
    ensures !StartsWithIgnoreCase(s, SavePrefix + [Separator]) && !EqualsIgnoreCase(s, SavePrefix)
  {
    var save := SavePrefix + [Separator];
    var saves := SavesPrefix + [Separator];
    FoldCaseAt(s[..|saves|], 4);
    FoldCaseAt(saves, 4);
    assert s[..|saves|][4] == s[4];
    if StartsWithIgnoreCase(s, save) {
      FoldCaseAt(s[..|save|], 4);
      FoldCaseAt(save, 4);
    }
  }

  /**
   * A path under "Save" or "Saves" (ignoring case) and not under "Content" resolves under the
   * save root with exactly the matched prefix removed: 5 characters for "Save/", 6 for
   * "Saves/", all of it for "Save" or "Saves" alone.
   */
  lemma SaveRule(paths: PathSet, p: Path)
    requires p != "" && !IsRooted(p)
    requires var norm := Replace(p, '\\', Separator);
             !UnderPrefix(norm, ContentPrefix) && (UnderPrefix(norm, SavePrefix) || UnderPrefix(norm, SavesPrefix))
    ensures var norm := Replace(p, '\\', Separator);
            && (StartsWithIgnoreCase(norm, SavePrefix + [Separator]) ==> Normalize(paths, p) == Combine(paths.save, norm[5..]))
            && (StartsWithIgnoreCase(norm, SavesPrefix + [Separator]) ==> Normalize(paths, p) == Combine(paths.save, norm[6..]))
            && (EqualsIgnoreCase(norm, SavePrefix) || EqualsIgnoreCase(norm, SavesPrefix) ==> Normalize(paths, p) == paths.save)
  {
    var norm := Replace(p, '\\', Separator);
    if StartsWithIgnoreCase(norm, SavesPrefix + [Separator]) {
      SavesIsNotSave(norm);
    }
    if EqualsIgnoreCase(norm, SavesPrefix) && StartsWithIgnoreCase(norm, SavePrefix + [Separator]) {
      assert |FoldCase(norm)| == 5;
    }
    CombineCases(paths.save, "");
  }

  /** Every other relative path resolves under the base data root, unchanged apart from its separators. */
  lemma BaseRule(paths: PathSet, p: Path)
    requires p != "" && !IsRooted(p)
    requires var norm := Replace(p, '\\', Separator);
             !UnderPrefix(norm, ContentPrefix) && !UnderPrefix(norm, SavePrefix) && !UnderPrefix(norm, SavesPrefix)
    ensures Normalize(paths, p) == Combine(paths.baseData, Replace(p, '\\', Separator))
  {
  }

  /** The roots of the device are absolute. */
  predicate AbsoluteRoots(paths: PathSet) {
    IsRooted(paths.baseData) && IsRooted(paths.content) && IsRooted(paths.save)
  }

  /** With absolute roots every non-empty path resolves to an absolute one, so resolving twice changes nothing. */
  lemma NormalizeIdempotent(paths: PathSet, p: Path)
    requires AbsoluteRoots(paths)
    ensures p != "" ==> IsRooted(Normalize(paths, p))
    ensures Normalize(paths, Normalize(paths, p)) == Normalize(paths, p)
  {
    if p != "" && !IsRooted(p) {
      var c := Classify(Replace(p, '\\', Separator));
      var root := RootPath(paths, c.root);
      CombineCases(root, c.rel);
      if c.rel != "" && !IsRooted(c.rel) {
        assert Normalize(paths, p)[..|root|] == root;
        assert Normalize(paths, p)[0] == root[0];
      }
    }
  }

  /**
   * A second separator after the "Content" word (in any letter case, followed by '/' or '\')
   * makes the rest rooted, and Path.Combine then drops the content root: the path escapes to
   * the rooted remainder, with its backslashes turned into '/'.
   */
  lemma DoubleSeparatorEscapesContent(paths: PathSet, word: string, sep: char, r: Path)
    requires EqualsIgnoreCase(word, ContentPrefix)
    requires sep == Separator || sep == '\\'
    requires IsRooted(r)
    ensures Normalize(paths, word + [sep] + r) == Replace(r, '\\', Separator)
  {
    var p := word + [sep] + r;
    var long := ContentPrefix + [Separator];
    assert |word| == |ContentPrefix|;
    forall i | 0 <= i < |word|
      ensures Upper(word[i]) == Upper(ContentPrefix[i]) && word[i] != '\\' && word[i] != Separator
    {
      FoldCaseAt(word, i);
      FoldCaseAt(ContentPrefix, i);
    }
    assert p[0] == word[0];
    var norm := Replace(p, '\\', Separator);
    var head := norm[..|long|];
    assert head == word + [Separator];
    forall i | 0 <= i < |long|
      ensures FoldCase(head)[i] == FoldCase(long)[i]
    {
      FoldCaseAt(head, i);
      FoldCaseAt(long, i);
      if i < |word| {
        assert head[i] == word[i] && long[i] == ContentPrefix[i];
      }
    }
    assert StartsWithIgnoreCase(norm, long);
    var rest := norm[|ContentPrefix| + 1..];
    assert rest == Replace(r, '\\', Separator);
    assert IsRooted(rest);
    assert Classify(norm) == Redirect(ContentRoot, rest);
    CombineCases(paths.content, rest);
  }

  // ---------------------------------------------------------------------------
  // The writing operations
  // ---------------------------------------------------------------------------

  /** CreateDirectory(path) */
  function CreateDirectoryEffect(v: Volume, paths: PathSet, path: Path): Effect {
    match v.CreateDirectory(Normalize(paths, path))
    case None => Effect(v, false)
    case Some(w) => Effect(w, true)
  }

  /** OpenWrite(path, overwrite): the parent directory, then an empty file (FileMode.Create or CreateNew). */
  function OpenWriteEffect(v: Volume, paths: PathSet, path: Path, overwrite: bool): Effect {
    var p := Normalize(paths, path);
    match EnsureDirectory(v, Parent(p))
    case None => Effect(v, false)
    case Some(v1) =>
      match (if overwrite then v1.WriteFile(p, []) else v1.CreateNewFile(p))
      case None => Effect(v1, false)
      case Some(v2) => Effect(v2, true)
  }

  /** WriteAllText(path, text), with the text already encoded. */
  function WriteAllTextEffect(v: Volume, paths: PathSet, path: Path, data: Bytes): Effect {
    var p := Normalize(paths, path);
    match EnsureDirectory(v, Parent(p))
    case None => Effect(v, false)
    case Some(v1) =>
      match v1.WriteFile(p, data)
      case None => Effect(v1, false)
      case Some(v2) => Effect(v2, true)
  }

  /** Move(src, dst, overwrite): the destination's directory, the old destination when overwriting, then File.Move. */
  function MoveEffect(v: Volume, paths: PathSet, src: Path, dst: Path, overwrite: bool): Effect {
    MoveResolved(v, Normalize(paths, src), Normalize(paths, dst), overwrite)
  }

  /** Move on the resolved source `s` and destination `d`. */
  function MoveResolved(v: Volume, s: Path, d: Path, overwrite: bool): Effect {
    match EnsureDirectory(v, Parent(d))
    case None => Effect(v, false)
    case Some(v1) =>
      match (if overwrite then v1.DeleteFile(d) else Some(v1))
      case None => Effect(v1, false)
      case Some(v2) =>
        match v2.MoveFile(s, d)
        case None => Effect(v2, false)
        case Some(v3) => Effect(v3, true)
  }

  class RootRedirectFileSystem {
    const paths: PathSet
    const fs: FileSystem

    constructor (paths: PathSet, fs: FileSystem)
      ensures this.paths == paths && this.fs == fs
    {
      this.paths := paths;
      this.fs := fs;
    }

    /** Creates the parent of `p` when it is missing; false when that throws. */
    method CreateParent(p: Path) returns (ok: bool)
      modifies fs
      ensures ok <==> EnsureDirectory(old(fs.volume), Parent(p)).Some?
      ensures ok ==> fs.volume == EnsureDirectory(old(fs.volume), Parent(p)).value
      ensures !ok ==> fs.volume == old(fs.volume)
    {
      var dir := Parent(p);
      if !fs.volume.DirectoryExists(dir) {
        var created := fs.volume.CreateDirectory(dir);
        if created.None? {
          return false;
        }
        fs.volume := created.value;
      }
      return true;
    }

    /** Returns false when the call throws. */
    method CreateDirectory(path: Path) returns (ok: bool)
      modifies fs
      ensures Effect(fs.volume, ok) == CreateDirectoryEffect(old(fs.volume), paths, path)
    {
      var p := Normalize(paths, path);
      var created := fs.volume.CreateDirectory(p);
      if created.None? {
        return false;
      }
      fs.volume := created.value;
      return true;
    }

    /** Opens the file for writing, leaving it empty; false when the call throws. */
    method OpenWrite(path: Path, overwrite: bool) returns (ok: bool)
      modifies fs
      ensures Effect(fs.volume, ok) == OpenWriteEffect(old(fs.volume), paths, path, overwrite)
    {
      var p := Normalize(paths, path);
      ok := CreateParent(p);
      if !ok {
        return;
      }
      var created := if overwrite then fs.volume.WriteFile(p, []) else fs.volume.CreateNewFile(p);
      if created.None? {
        return false;
      }
      fs.volume := created.value;
    }

    method WriteAllText(path: Path, data: Bytes) returns (ok: bool)
      modifies fs
      ensures Effect(fs.volume, ok) == WriteAllTextEffect(old(fs.volume), paths, path, data)
    {
      var p := Normalize(paths, path);
      ok := CreateParent(p);
      if !ok {
        return;
      }
      var written := fs.volume.WriteFile(p, data);
      if written.None? {
        return false;
      }
      fs.volume := written.value;
    }

    method Move(src: Path, dst: Path, overwrite: bool) returns (ok: bool)
      modifies fs
      ensures Effect(fs.volume, ok) == MoveEffect(old(fs.volume), paths, src, dst, overwrite)
    {
      var s := Normalize(paths, src);
      var d := Normalize(paths, dst);
      ok := CreateParent(d);
      if !ok {
        return;
      }
      if overwrite && fs.volume.FileExists(d) {
        var deleted := fs.volume.DeleteFile(d);
        if deleted.None? {
          return false;
        }
        fs.volume := deleted.value;
      }
      var moved := fs.volume.MoveFile(s, d);
      if moved.None? {
        return false;
      }
      fs.volume := moved.value;
    }
  }

  // ---------------------------------------------------------------------------
  // Properties of the writing operations
  // ---------------------------------------------------------------------------

  /** A completed CreateDirectory leaves the resolved directory and all above it in place, and no file changed. */
  lemma CreateDirectoryCreates(v: Volume, paths: PathSet, path: Path)
    requires CreateDirectoryEffect(v, paths, path).completed
    ensures var w := CreateDirectoryEffect(v, paths, path).after;
            && w.DirectoryExists(Normalize(paths, path))
            && (forall q :: q in Lineage(Normalize(paths, path)) ==> w.DirectoryExists(q))
            && w.files == v.files
  {
  }

  /**
   * A completed Move leaves the source's bytes at the destination, the source gone and the
   * destination's directory in place, and touches no other file.
   */
  lemma MoveMoves(v: Volume, paths: PathSet, src: Path, dst: Path, overwrite: bool)
    requires MoveEffect(v, paths, src, dst, overwrite).completed
    ensures var s := Normalize(paths, src);
            var d := Normalize(paths, dst);
            var w := MoveEffect(v, paths, src, dst, overwrite).after;
            && s != d
            && v.FileExists(s) && w.ReadFile(d) == Some(v.files[s]) && !w.FileExists(s)
            && w.DirectoryExists(Parent(d))
            && w.files - {s, d} == v.files - {s, d}
  {
    ResolvedMoveMoves(v, Normalize(paths, src), Normalize(paths, dst), overwrite);
  }

  /** MoveMoves on resolved paths. */
  lemma ResolvedMoveMoves(v: Volume, s: Path, d: Path, overwrite: bool)
    requires MoveResolved(v, s, d, overwrite).completed
    ensures var w := MoveResolved(v, s, d, overwrite).after;
            && s != d
            && v.FileExists(s) && w.ReadFile(d) == Some(v.files[s]) && !w.FileExists(s)
            && w.DirectoryExists(Parent(d))
            && w.files - {s, d} == v.files - {s, d}
  {
    var v1 := EnsureDirectory(v, Parent(d)).value;
    var v2 := if overwrite then v1.(files := v1.files - {d}) else v1;
    assert (if overwrite then v1.DeleteFile(d) else Some(v1)) == Some(v2);
    assert v2.files - {d} == v.files - {d};
    assert v2.MoveFile(s, d) == Some(v2.(files := (v2.files - {s})[d := v2.files[s]]));
  }

  /** Without overwrite, a Move onto an existing file (in an existing directory) throws and changes nothing. */
  lemma MoveKeepsExistingTarget(v: Volume, paths: PathSet, src: Path, dst: Path)
    requires v.FileExists(Normalize(paths, dst)) && v.DirectoryExists(Parent(Normalize(paths, dst)))
    ensures MoveEffect(v, paths, src, dst, false) == Effect(v, false)
  {
  }

  /**
   * With overwrite, a Move onto an existing file first deletes that file: when the source exists,
   * the destination is another file in an existing directory, and neither directory is read-only,
   * the move completes and the destination holds the source's bytes.
   */
  lemma MoveOverwrites(v: Volume, paths: PathSet, src: Path, dst: Path)
    requires var s := Normalize(paths, src);
             var d := Normalize(paths, dst);
             && Consistent(v) && s != d && v.FileExists(s) && v.FileExists(d)
             && v.DirectoryExists(Parent(d)) && Parent(s) !in v.readOnly && Parent(d) !in v.readOnly
    ensures var s := Normalize(paths, src);
            var d := Normalize(paths, dst);
            MoveEffect(v, paths, src, dst, true) == Effect(v.(files := (v.files - {s})[d := v.files[s]]), true)
  {
    ResolvedMoveOverwrites(v, Normalize(paths, src), Normalize(paths, dst));
  }

  /** MoveOverwrites on resolved paths. */
  lemma ResolvedMoveOverwrites(v: Volume, s: Path, d: Path)
    requires && Consistent(v) && s != d && v.FileExists(s) && v.FileExists(d)
             && v.DirectoryExists(Parent(d)) && Parent(s) !in v.readOnly && Parent(d) !in v.readOnly
    ensures MoveResolved(v, s, d, true) == Effect(v.(files := (v.files - {s})[d := v.files[s]]), true)
  {
    assert EnsureDirectory(v, Parent(d)) == Some(v);
    var v2 := v.(files := v.files - {d});
    assert v.DeleteFile(d) == Some(v2);
    assert !v2.DirectoryExists(d) && v2.DirectoryExists(Parent(d));
    assert v2.MoveFile(s, d) == Some(v2.(files := (v2.files - {s})[d := v2.files[s]]));
    assert (v2.files - {s})[d := v2.files[s]] == (v.files - {s})[d := v.files[s]];
  }

  /**
   * With overwrite, moving a file onto its own path deletes it before File.Move runs, so the
   * call throws and the file is gone.
   */
  lemma MoveOntoItselfDeletes(v: Volume, paths: PathSet, src: Path, dst: Path)
    requires var s := Normalize(paths, src);
             s == Normalize(paths, dst) && v.FileExists(s) && v.DirectoryExists(Parent(s)) && Parent(s) !in v.readOnly
    ensures var s := Normalize(paths, src);
            MoveEffect(v, paths, src, dst, true) == Effect(v.(files := v.files - {s}), false)
  {
  }

  /** A completed OpenWrite leaves an empty file at the resolved path in an existing directory, and no other file changed. */
  lemma OpenWriteCreates(v: Volume, paths: PathSet, path: Path, overwrite: bool)
    requires OpenWriteEffect(v, paths, path, overwrite).completed
    ensures var p := Normalize(paths, path);
            var w := OpenWriteEffect(v, paths, path, overwrite).after;
            && w.ReadFile(p) == Some([]) && w.DirectoryExists(Parent(p))
            && w.files - {p} == v.files - {p}
            && (!overwrite ==> !v.FileExists(p))
  {
  }

  /** OpenWrite without overwrite on an existing file (in an existing directory) throws and changes nothing. */
  lemma OpenWriteRefusesExisting(v: Volume, paths: PathSet, path: Path)
    requires v.FileExists(Normalize(paths, path)) && v.DirectoryExists(Parent(Normalize(paths, path)))
    ensures OpenWriteEffect(v, paths, path, false) == Effect(v, false)
  {
  }

  /**
   * OpenWrite into a missing directory that can be created succeeds, creating it and an empty
   * file (no file can already stand in a directory that does not exist).
   */
  lemma OpenWriteCreatesParent(v: Volume, paths: PathSet, path: Path, overwrite: bool)
    requires var p := Normalize(paths, path);
             && !v.DirectoryExists(Parent(p)) && !v.FileExists(p) && v.CreateDirectory(Parent(p)).Some?
             && Parent(p) !in v.readOnly && !v.CreateDirectory(Parent(p)).value.DirectoryExists(p)
    ensures var p := Normalize(paths, path);
            OpenWriteEffect(v, paths, path, overwrite) ==
            Effect(v.CreateDirectory(Parent(p)).value.(files := v.files[p := []]), true)
  {
    var p := Normalize(paths, path);
    var v1 := v.CreateDirectory(Parent(p)).value;
    assert EnsureDirectory(v, Parent(p)) == Some(v1);
    assert v1.WriteFile(p, []) == Some(v1.(files := v.files[p := []]));
  }

  /** A completed WriteAllText leaves exactly the data at the resolved path, and no other file changed. */
  lemma WriteAllTextWrites(v: Volume, paths: PathSet, path: Path, data: Bytes)
    requires WriteAllTextEffect(v, paths, path, data).completed
    ensures var p := Normalize(paths, path);
            var w := WriteAllTextEffect(v, paths, path, data).after;
            && w.ReadFile(p) == Some(data) && w.DirectoryExists(Parent(p))
            && w.files - {p} == v.files - {p}
  {
  }

  /** WriteAllText into a missing directory that can be created succeeds, creating it. */
  lemma WriteAllTextCreatesParent(v: Volume, paths: PathSet, path: Path, data: Bytes)
    requires var p := Normalize(paths, path);
             && !v.DirectoryExists(Parent(p)) && v.CreateDirectory(Parent(p)).Some?
             && Parent(p) !in v.readOnly && !v.CreateDirectory(Parent(p)).value.DirectoryExists(p)
    ensures WriteAllTextEffect(v, paths, path, data).completed
  {
  }
}
