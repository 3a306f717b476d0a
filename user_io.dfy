/**
 * UserIO: the save store. A save is written to `<root>/Backups/<name>.celeste` first,
 * read back, and only then written to `<root>/<name>.celeste`; every write goes to a
 * ".tmp" file that is then renamed over the target. Saves run on a worker thread that a
 * coroutine starts and waits for, offering a retry when the save fails.
 *
 * The serializer is a parameter: `deserialize` gives the decoded value or None when the
 * bytes do not decode (Deserialize throwing or returning null).
 */
module UserIO {
  import opened Wrappers
  import opened Paths
  import opened Disk

  const DefaultRoot: Path := "Save"
  const BackupDir: Path := "Backups"
  const Extension: string := ".celeste"
  const TempSuffix: string := ".tmp"
  const SettingsName: string := "settings"

  /** RootDir: the configured save directory, or "Save" when it is missing or empty. */
  function RootDir(savePath: Option<Path>): (r: Path)
    ensures r != ""
    ensures r == DefaultRoot <==> savePath.None? || savePath.value == "" || savePath.value == DefaultRoot
  {
    if savePath.None? || savePath.value == "" then DefaultRoot else savePath.value
  }

  /** GetHandle: `<root>/<name>.celeste`, a file directly in the root. */
  function GetHandle(savePath: Option<Path>, name: string): (r: Path)
    ensures WellNamed(savePath, name) ==> Parent(r) == RootDir(savePath) && FileName(r) == name + Extension
  {
    var file := name + Extension;
    if WellNamed(savePath, name) then
      FileNameHasNoSeparator(name);
      CombineChild(RootDir(savePath), file);
      Combine(RootDir(savePath), file)
    else Combine(RootDir(savePath), file)
  }

  /** GetBackupHandle: `<root>/Backups/<name>.celeste`, a file directly in the backup directory. */
  function GetBackupHandle(savePath: Option<Path>, name: string): (r: Path)
    ensures WellNamed(savePath, name) ==> Parent(r) == Combine(RootDir(savePath), BackupDir) && FileName(r) == name + Extension
  {
    var file := name + Extension;
    if WellNamed(savePath, name) then
      FileNameHasNoSeparator(name);
      CombineEndsWithRight(RootDir(savePath), BackupDir);
      CombineChild(Combine(RootDir(savePath), BackupDir), file);
      Combine(Combine(RootDir(savePath), BackupDir), file)
    else Combine(Combine(RootDir(savePath), BackupDir), file)
  }

  /** A save name without separators stays without them once the extension is appended. */
  lemma FileNameHasNoSeparator(name: string)
    requires Separator !in name
    ensures name + Extension != "" && Separator !in name + Extension
  {
    var file := name + Extension;
    assert forall k :: |name| <= k < |file| ==> file[k] == Extension[k - |name|];
  }

  /** The names a save can be stored under: a single path segment, and a root that does not end in a separator. */
  predicate WellNamed(savePath: Option<Path>, name: string) {
    NoTrailingSeparator(RootDir(savePath)) && Separator !in name
  }

  /** The primary, the backup and their temporary files are four different paths. */
  lemma HandlesDistinct(savePath: Option<Path>, name: string)
    requires WellNamed(savePath, name)
    ensures var h := GetHandle(savePath, name);
            var b := GetBackupHandle(savePath, name);
            && h != b && h != b + TempSuffix && h + TempSuffix != b && h != h + TempSuffix && b != b + TempSuffix
            && Parent(h + TempSuffix) == Parent(h) && Parent(b + TempSuffix) == Parent(b)
  {
    var h := GetHandle(savePath, name);
    var b := GetBackupHandle(savePath, name);
    CombineCases(RootDir(savePath), BackupDir);
    ParentOfSuffixed(h, TempSuffix);
    ParentOfSuffixed(b, TempSuffix);
    assert Parent(h) != Parent(b);
  }

  /** AtomicWriteBytes: create the directory, write path.tmp, delete path, rename path.tmp to path. */
  function AtomicWrite(v: Volume, path: Path, data: Bytes): Effect {
    var tmp := path + TempSuffix;
    match EnsureDirectory(v, Parent(path))
    case None => Effect(v, false)
    case Some(v1) =>
      match v1.WriteFile(tmp, data)
      case None => Effect(v1, false)
      case Some(v2) =>
        match v2.DeleteFile(path)
        case None => Effect(v2, false)
        case Some(v3) =>
          match v3.MoveFile(tmp, path)
          case None => Effect(v3, false)
          case Some(v4) => Effect(v4, true)
  }

  method AtomicWriteBytes(fs: FileSystem, path: Path, data: Bytes) returns (ok: bool)
    modifies fs
    ensures Effect(fs.volume, ok) == AtomicWrite(old(fs.volume), path, data)
  {
    ok := false;
    var dir := Parent(path);
    if !fs.volume.DirectoryExists(dir) {
      var created := fs.volume.CreateDirectory(dir);
      if created.None? {
        return;
      }
      fs.volume := created.value;
    }
    var tmp := path + TempSuffix;
    var written := fs.volume.WriteFile(tmp, data);
    if written.None? {
      return;
    }
    fs.volume := written.value;
    if fs.volume.FileExists(path) {
      var deleted := fs.volume.DeleteFile(path);
      if deleted.None? {
        return;
      }
      fs.volume := deleted.value;
    }
    var moved := fs.volume.MoveFile(tmp, path);
    if moved.None? {
      return;
    }
    fs.volume := moved.value;
    ok := true;
  }

  lemma TempSuffixPlain(path: Path)
    ensures Separator !in TempSuffix
    ensures path != path + TempSuffix
    ensures Parent(path + TempSuffix) == Parent(path)
  {
    ParentOfSuffixed(path, TempSuffix);
  }

  /** AtomicWriteBytes touches no file other than the target and its temporary file, and never removes a directory. */
  lemma AtomicWriteFrame(v: Volume, path: Path, data: Bytes)
    ensures var e := AtomicWrite(v, path, data);
            && e.after.files - {path, path + TempSuffix} == v.files - {path, path + TempSuffix}
            && e.after.readOnly == v.readOnly
            && |v.dirs| <= |e.after.dirs| && e.after.dirs[..|v.dirs|] == v.dirs
  {
    var tmp := path + TempSuffix;
    var keep := {path, tmp};
    match EnsureDirectory(v, Parent(path))
    case None =>
    case Some(v1) =>
      assert v1.files == v.files;
      match v1.WriteFile(tmp, data)
      case None =>
      case Some(v2) =>
        assert v2.files - keep == v.files - keep;
        match v2.DeleteFile(path)
        case None =>
        case Some(v3) =>
          assert v3.files - keep == v.files - keep;
          match v3.MoveFile(tmp, path)
          case None =>
          case Some(v4) =>
            assert v4.files - keep == v.files - keep;
  }

  /** After AtomicWriteBytes completes the target holds exactly the data, the temporary file is gone and the directory exists. */
  lemma AtomicWriteCompletes(v: Volume, path: Path, data: Bytes)
    requires AtomicWrite(v, path, data).completed
    ensures var w := AtomicWrite(v, path, data).after;
            && w.ReadFile(path) == Some(data)
            && !w.FileExists(path + TempSuffix)
            && w.DirectoryExists(Parent(path))
  {
    TempSuffixPlain(path);
  }

  /** AtomicWriteBytes keeps the volume consistent, whether it completes or throws. */
  lemma AtomicWriteConsistent(v: Volume, path: Path, data: Bytes)
    requires Consistent(v)
    ensures Consistent(AtomicWrite(v, path, data).after)
  {
    var tmp := path + TempSuffix;
    match EnsureDirectory(v, Parent(path))
    case None =>
    case Some(v1) =>
      if !v.DirectoryExists(Parent(path)) {
        CreateDirectoryConsistent(v, Parent(path));
      }
      FileOperationsConsistent(v1, tmp, path, data);
      match v1.WriteFile(tmp, data)
      case None =>
      case Some(v2) =>
        FileOperationsConsistent(v2, path, path, data);
        FileOperationsConsistent(v2, tmp, path, data);
        match v2.DeleteFile(path)
        case None =>
        case Some(v3) =>
          FileOperationsConsistent(v3, tmp, path, data);
  }

  /**
   * All or nothing: on a consistent volume, an AtomicWriteBytes that throws leaves the target
   * file as it was (its old content, or still absent).
   */
  lemma AtomicWriteAllOrNothing(v: Volume, path: Path, data: Bytes)
    requires Consistent(v)
    requires !AtomicWrite(v, path, data).completed
    ensures var w := AtomicWrite(v, path, data).after;
            w.ReadFile(path) == v.ReadFile(path)
  {
    var tmp := path + TempSuffix;
    TempSuffixPlain(path);
    match EnsureDirectory(v, Parent(path))
    case None =>
    case Some(v1) =>
      if !v.DirectoryExists(Parent(path)) {
        CreateDirectoryConsistent(v, Parent(path));
      }
      match v1.WriteFile(tmp, data)
      case None =>
      case Some(v2) =>
        FileOperationsConsistent(v1, tmp, path, data);
        // With the target a file, the rename cannot fail: only an absent target is left to check.
        assert path !in v.files ==> path !in v2.files;
  }

  /**
   * Load: the primary (or the backup) decoded; None when that file is missing or its bytes
   * do not decode. The other file is never looked at.
   */
  function Load<T>(v: Volume, savePath: Option<Path>, name: string, backup: bool, deserialize: Bytes -> Option<T>): (r: Option<T>)
    ensures var path := if backup then GetBackupHandle(savePath, name) else GetHandle(savePath, name);
            && (!v.FileExists(path) ==> r.None?)
            && (v.FileExists(path) ==> r == deserialize(v.files[path]))
  {
    var path := if backup then GetBackupHandle(savePath, name) else GetHandle(savePath, name);
    match v.ReadFile(path)
    case None => None
    case Some(bytes) => deserialize(bytes)
  }

  /** Exists looks at the primary only: it holds exactly when reading the primary gives bytes for Load to decode. */
  predicate Exists(v: Volume, savePath: Option<Path>, name: string)
    ensures Exists(v, savePath, name) <==> v.ReadFile(GetHandle(savePath, name)).Some?
  {
    v.FileExists(GetHandle(savePath, name))
  }

  /** Save: back up, verify the backup decodes, then write the primary; any exception makes it return false. */
  function SaveEffect<T>(v: Volume, savePath: Option<Path>, name: string, data: Bytes, deserialize: Bytes -> Option<T>): Effect {
    var handle := GetHandle(savePath, name);
    var backup := GetBackupHandle(savePath, name);
    match EnsureDirectory(v, Parent(handle))
    case None => Effect(v, false)
    case Some(v1) =>
      match EnsureDirectory(v1, Parent(backup))
      case None => Effect(v1, false)
      case Some(v2) => BackupThenPrimary(v2, savePath, name, data, deserialize)
  }

  /** The writes of Save, once both directories exist: the backup, its check, then the primary. */
  function BackupThenPrimary<T>(v: Volume, savePath: Option<Path>, name: string, data: Bytes, deserialize: Bytes -> Option<T>): Effect {
    var b := AtomicWrite(v, GetBackupHandle(savePath, name), data);
    if !b.completed then Effect(b.after, false)
    else if Load(b.after, savePath, name, true, deserialize).None? then Effect(b.after, false)
    else AtomicWrite(b.after, GetHandle(savePath, name), data)
  }

  method Save<T>(fs: FileSystem, savePath: Option<Path>, name: string, data: Bytes, deserialize: Bytes -> Option<T>)
    returns (ok: bool)
    modifies fs
    ensures Effect(fs.volume, ok) == SaveEffect(old(fs.volume), savePath, name, data, deserialize)
  {
    var handle := GetHandle(savePath, name);
    var backupHandle := GetBackupHandle(savePath, name);
    ok := false;
    var directory := Parent(handle);
    if !fs.volume.DirectoryExists(directory) {
      var created := fs.volume.CreateDirectory(directory);
      if created.None? {
        return;
      }
      fs.volume := created.value;
    }
    directory := Parent(backupHandle);
    if !fs.volume.DirectoryExists(directory) {
      var created := fs.volume.CreateDirectory(directory);
      if created.None? {
        return;
      }
      fs.volume := created.value;
    }
    var written := AtomicWriteBytes(fs, backupHandle, data);
    if !written {
      return;
    }
    if Load(fs.volume, savePath, name, true, deserialize).Some? {
      ok := AtomicWriteBytes(fs, handle, data);
    }
  }

  /**
   * A save that returns true leaves exactly `data` in both the primary and the backup, so
   * loading the primary gives back what the backup check decoded.
   */
  lemma SaveRoundTrip<T>(v: Volume, savePath: Option<Path>, name: string, data: Bytes, deserialize: Bytes -> Option<T>)
    requires WellNamed(savePath, name)
    requires SaveEffect(v, savePath, name, data, deserialize).completed
    ensures var w := SaveEffect(v, savePath, name, data, deserialize).after;
            && w.ReadFile(GetHandle(savePath, name)) == Some(data)
            && w.ReadFile(GetBackupHandle(savePath, name)) == Some(data)
            && deserialize(data).Some?
            && Load(w, savePath, name, false, deserialize) == deserialize(data)
            && Load(w, savePath, name, true, deserialize) == deserialize(data)
  {
    var handle := GetHandle(savePath, name);
    var backup := GetBackupHandle(savePath, name);
    HandlesDistinct(savePath, name);
    var v2 := EnsureDirectory(EnsureDirectory(v, Parent(handle)).value, Parent(backup)).value;
    var b := AtomicWrite(v2, backup, data);
    AtomicWriteCompletes(v2, backup, data);
    AtomicWriteCompletes(b.after, handle, data);
    AtomicWriteKeepsOther(b.after, handle, data, backup);
  }

  /** AtomicWriteBytes leaves every file other than its target and temporary file as it was. */
  lemma AtomicWriteKeepsOther(v: Volume, path: Path, data: Bytes, other: Path)
    requires other != path && other != path + TempSuffix
    ensures AtomicWrite(v, path, data).after.ReadFile(other) == v.ReadFile(other)
  {
    AtomicWriteFrame(v, path, data);
    var w := AtomicWrite(v, path, data).after;
    AgreeOutside(w.files, v.files, {path, path + TempSuffix}, other);
  }

  lemma AgreeOutside(m: map<Path, Bytes>, n: map<Path, Bytes>, keep: set<Path>, k: Path)
    requires m - keep == n - keep && k !in keep
    ensures (k in m <==> k in n) && (k in m ==> m[k] == n[k])
  {
    assert k in m <==> k in m - keep;
    assert k in n <==> k in n - keep;
    if k in m {
      assert m[k] == (m - keep)[k];
    }
  }

  /** A save that fails (an exception, or a backup that does not decode) leaves the primary as it was. */
  lemma SaveFailureKeepsPrimary<T>(v: Volume, savePath: Option<Path>, name: string, data: Bytes, deserialize: Bytes -> Option<T>)
    requires WellNamed(savePath, name) && Consistent(v)
    requires !SaveEffect(v, savePath, name, data, deserialize).completed
    ensures SaveEffect(v, savePath, name, data, deserialize).after.ReadFile(GetHandle(savePath, name)) == v.ReadFile(GetHandle(savePath, name))
  {
    var handle := GetHandle(savePath, name);
    var backup := GetBackupHandle(savePath, name);
    var e1 := EnsureDirectory(v, Parent(handle));
    if e1.Some? {
      EnsureDirectoryConsistent(v, Parent(handle));
      var e2 := EnsureDirectory(e1.value, Parent(backup));
      if e2.Some? {
        EnsureDirectoryConsistent(e1.value, Parent(backup));
        assert SaveEffect(v, savePath, name, data, deserialize) == BackupThenPrimary(e2.value, savePath, name, data, deserialize);
        WritesFailureKeepPrimary(e2.value, savePath, name, data, deserialize);
      }
    }
  }


  /**
   * A save whose data does not decode fails at the verification load: the primary is as it
   * was, and the backup holds the data unless writing it threw, in which case the backup is as
   * it was. With both directories present and a backup write that goes through, the backup
   * holds the data: the copy that survives the skipped primary write.
   */
  lemma SaveRejectedKeepsBackup<T>(v: Volume, savePath: Option<Path>, name: string, data: Bytes, deserialize: Bytes -> Option<T>)
    requires WellNamed(savePath, name) && Consistent(v)
    requires deserialize(data).None?
    ensures var e := SaveEffect(v, savePath, name, data, deserialize);
            var handle := GetHandle(savePath, name);
            var backup := GetBackupHandle(savePath, name);
            && !e.completed
            && e.after.ReadFile(handle) == v.ReadFile(handle)
            && (e.after.ReadFile(backup) == Some(data) || e.after.ReadFile(backup) == v.ReadFile(backup))
            && (v.DirectoryExists(Parent(handle)) && v.DirectoryExists(Parent(backup)) && AtomicWrite(v, backup, data).completed
                ==> e.after.ReadFile(backup) == Some(data))
  {
    var handle := GetHandle(savePath, name);
    var backup := GetBackupHandle(savePath, name);
    SaveRejectedFails(v, savePath, name, data, deserialize);
    SaveFailureKeepsPrimary(v, savePath, name, data, deserialize);
    if v.DirectoryExists(Parent(handle)) && v.DirectoryExists(Parent(backup)) {
      assert SaveEffect(v, savePath, name, data, deserialize) == BackupThenPrimary(v, savePath, name, data, deserialize);
      RejectedWritesKeepBackup(v, savePath, name, data, deserialize);
    }
  }

  /** A save whose data does not decode fails, leaving the backup holding the data or as it was. */
  lemma SaveRejectedFails<T>(v: Volume, savePath: Option<Path>, name: string, data: Bytes, deserialize: Bytes -> Option<T>)
    requires Consistent(v)
    requires deserialize(data).None?
    ensures var e := SaveEffect(v, savePath, name, data, deserialize);
            var backup := GetBackupHandle(savePath, name);
            && !e.completed
            && (e.after.ReadFile(backup) == Some(data) || e.after.ReadFile(backup) == v.ReadFile(backup))
  {
    var handle := GetHandle(savePath, name);
    var backup := GetBackupHandle(savePath, name);
    var e := SaveEffect(v, savePath, name, data, deserialize);
    var e1 := EnsureDirectory(v, Parent(handle));
    if e1.Some? {
      EnsureDirectoryConsistent(v, Parent(handle));
      var e2 := EnsureDirectory(e1.value, Parent(backup));
      if e2.Some? {
        EnsureDirectoryConsistent(e1.value, Parent(backup));
        assert e == BackupThenPrimary(e2.value, savePath, name, data, deserialize);
        RejectedWritesKeepBackup(e2.value, savePath, name, data, deserialize);
        assert e2.value.ReadFile(backup) == v.ReadFile(backup);
      }
    }
  }

  /** The writes of a save whose data does not decode: the backup is written, the check rejects it, and the call fails. */
  lemma RejectedWritesKeepBackup<T>(v: Volume, savePath: Option<Path>, name: string, data: Bytes, deserialize: Bytes -> Option<T>)
    requires Consistent(v)
    requires deserialize(data).None?
    ensures var e := BackupThenPrimary(v, savePath, name, data, deserialize);
            var backup := GetBackupHandle(savePath, name);
            && !e.completed
            && (e.after.ReadFile(backup) == Some(data) || e.after.ReadFile(backup) == v.ReadFile(backup))
            && (AtomicWrite(v, backup, data).completed ==> e.after.ReadFile(backup) == Some(data))
  {
    var backup := GetBackupHandle(savePath, name);
    var b := AtomicWrite(v, backup, data);
    if b.completed {
      AtomicWriteCompletes(v, backup, data);
      assert Load(b.after, savePath, name, true, deserialize) == deserialize(data);
    } else {
      AtomicWriteAllOrNothing(v, backup, data);
    }
  }

  lemma WritesFailureKeepPrimary<T>(v: Volume, savePath: Option<Path>, name: string, data: Bytes, deserialize: Bytes -> Option<T>)
    requires WellNamed(savePath, name) && Consistent(v)
    requires !BackupThenPrimary(v, savePath, name, data, deserialize).completed
    ensures BackupThenPrimary(v, savePath, name, data, deserialize).after.ReadFile(GetHandle(savePath, name)) == v.ReadFile(GetHandle(savePath, name))
  {
    var handle := GetHandle(savePath, name);
    var backup := GetBackupHandle(savePath, name);
    HandlesDistinct(savePath, name);
    var b := AtomicWrite(v, backup, data);
    AtomicWriteKeepsOther(v, backup, data, handle);
    if b.completed && Load(b.after, savePath, name, true, deserialize).Some? {
      AtomicWriteConsistent(v, backup, data);
      AtomicWriteAllOrNothing(b.after, handle, data);
    }
  }

  /** Save keeps the volume consistent. */
  lemma SaveConsistent<T>(v: Volume, savePath: Option<Path>, name: string, data: Bytes, deserialize: Bytes -> Option<T>)
    requires Consistent(v)
    ensures Consistent(SaveEffect(v, savePath, name, data, deserialize).after)
  {
    var handle := GetHandle(savePath, name);
    var backup := GetBackupHandle(savePath, name);
    var e1 := EnsureDirectory(v, Parent(handle));
    if e1.Some? {
      EnsureDirectoryConsistent(v, Parent(handle));
      var e2 := EnsureDirectory(e1.value, Parent(backup));
      if e2.Some? {
        EnsureDirectoryConsistent(e1.value, Parent(backup));
        AtomicWriteConsistent(e2.value, backup, data);
        AtomicWriteConsistent(AtomicWrite(e2.value, backup, data).after, handle, data);
      }
    }
  }


  /** What Delete did: the volume afterwards and whether the primary existed. */
  datatype Deletion = Deletion(after: Volume, existed: bool)

  /** Delete: removes the primary when it exists; None when File.Delete throws. */
  function DeleteEffect(v: Volume, savePath: Option<Path>, name: string): Option<Deletion> {
    var handle := GetHandle(savePath, name);
    if !v.FileExists(handle) then Some(Deletion(v, false))
    else match v.DeleteFile(handle)
      case None => None
      case Some(w) => Some(Deletion(w, true))
  }

  method Delete(fs: FileSystem, savePath: Option<Path>, name: string) returns (r: Option<bool>)
    modifies fs
    ensures r.None? ==> fs.volume == old(fs.volume) && DeleteEffect(old(fs.volume), savePath, name).None?
    ensures r.Some? ==> DeleteEffect(old(fs.volume), savePath, name) == Some(Deletion(fs.volume, r.value))
  {
    var handle := GetHandle(savePath, name);
    if fs.volume.FileExists(handle) {
      var deleted := fs.volume.DeleteFile(handle);
      if deleted.None? {
        return None;
      }
      fs.volume := deleted.value;
      return Some(true);
    }
    return Some(false);
  }

  /**
   * Delete returns true exactly when the primary existed, leaves it absent and touches no
   * other file (the backup stays); a second Delete returns false. It throws only when the
   * primary exists in a read-only directory.
   */
  lemma DeleteRemovesPrimaryOnly(v: Volume, savePath: Option<Path>, name: string)
    ensures var handle := GetHandle(savePath, name);
            DeleteEffect(v, savePath, name).None? <==> v.FileExists(handle) && Parent(handle) in v.readOnly
    ensures DeleteEffect(v, savePath, name).Some? ==>
              var d := DeleteEffect(v, savePath, name).value;
              && (d.existed <==> Exists(v, savePath, name))
              && !Exists(d.after, savePath, name)
              && d.after.files == v.files - {GetHandle(savePath, name)}
              && DeleteEffect(d.after, savePath, name) == Some(Deletion(d.after, false))
  {
  }

  /** Exists looks at the primary only: writing the backup does not change its answer. */
  lemma ExistsIgnoresBackup(v: Volume, savePath: Option<Path>, name: string, data: Bytes)
    requires WellNamed(savePath, name)
    ensures Exists(v.(files := v.files[GetBackupHandle(savePath, name) := data]), savePath, name) == Exists(v, savePath, name)
  {
    HandlesDistinct(savePath, name);
  }

  // ---------------------------------------------------------------------------
  // The save handshake: SaveHandler, the SaveRoutine coroutine and SaveThread
  // ---------------------------------------------------------------------------

  /**
   * Where the SaveRoutine coroutine stands (its MoveNext state): not running (-1, or no
   * routine), created but not yet stepped (0), waiting for the worker (1), waiting for the
   * error overlay to close (2).
   */
  datatype Phase = Idle | Starting(file: bool, settings: bool) | AwaitingThread | AwaitingMenu

  /** The error overlay as the coroutine sees it in one frame. */
  datatype Overlay = Overlay(open: bool, tryAgain: bool)

  /** The static flags of UserIO and the coroutine's state. */
  datatype Flags = Flags(
    saving: bool,
    savingInternal: bool,
    savingResult: bool,
    savingFile: bool,
    savingSettings: bool,
    fileData: Bytes,
    settingsData: Bytes,
    phase: Phase)

  /** Saving is set exactly while a SaveRoutine is in flight. */
  predicate Coherent(f: Flags) {
    f.saving <==> f.phase != Idle
  }

  /** SaveHandler: start a routine unless one is in flight. */
  function Handled(f: Flags, file: bool, settings: bool): Flags {
    if f.saving then f else f.(saving := true, phase := Starting(file, settings))
  }

  /** Serialize what is requested, raise savingInternal, clear SavingResult, start the worker. */
  function Launched(f: Flags, fileData: Bytes, settingsData: Bytes): Flags {
    f.(fileData := if f.savingFile then fileData else f.fileData,
       settingsData := if f.savingSettings then settingsData else f.settingsData,
       savingInternal := true, savingResult := false, phase := AwaitingThread)
  }

  /** The end of the routine: Saving cleared and Celeste.SaveRoutine dropped. */
  function Finished(f: Flags): Flags {
    f.(saving := false, phase := Idle)
  }

  /** The overlay step of MoveNext: wait while it is open, then retry or give up. */
  function MenuStep(f: Flags, fileData: Bytes, settingsData: Bytes, menu: Overlay): (Flags, bool) {
    if menu.open then (f.(phase := AwaitingMenu), true)
    else if !menu.tryAgain then (Finished(f), false)
    else (Launched(f, fileData, settingsData), true)
  }

  /**
   * One MoveNext of SaveRoutine, given the serialized save data and settings of this frame:
   * the flags afterwards and whether the coroutine yields (true) or has ended (false).
   */
  function Stepped(f: Flags, fileData: Bytes, settingsData: Bytes, menu: Overlay): (Flags, bool) {
    match f.phase
    case Idle => (f, false)
    case Starting(file, settings) => (Launched(f.(savingFile := file, savingSettings := settings), fileData, settingsData), true)
    case AwaitingThread =>
      if f.savingInternal then (f, true)
      else if f.savingResult then (Finished(f), false)
      else MenuStep(f, fileData, settingsData, menu)
    case AwaitingMenu => MenuStep(f, fileData, settingsData, menu)
  }

  /** SaveThread, run to its end in one step: the flags and the volume afterwards. */
  function ThreadRan<S, C>(f: Flags, v: Volume, savePath: Option<Path>, fileName: string,
                           deserializeSave: Bytes -> Option<S>, deserializeSettings: Bytes -> Option<C>): (Flags, Volume)
  {
    var e1 := if f.savingFile then SaveEffect(v, savePath, fileName, f.fileData, deserializeSave) else Effect(v, true);
    var e2 := if f.savingSettings then SaveEffect(e1.after, savePath, SettingsName, f.settingsData, deserializeSettings) else Effect(e1.after, true);
    (f.(savingResult := e1.completed && e2.completed, savingInternal := false), e2.after)
  }

  class SaveHandshake<S, C> {
    var saving: bool
    var savingInternal: bool
    var savingResult: bool
    var savingFile: bool
    var savingSettings: bool
    var savingFileData: Bytes
    var savingSettingsData: Bytes
    var phase: Phase

    const fs: FileSystem
    const savePath: Option<Path>
    /** SaveData.GetFilename() */
    const fileName: string
    const deserializeSave: Bytes -> Option<S>
    const deserializeSettings: Bytes -> Option<C>

    function Snap(): Flags
      reads this
    {
      Flags(saving, savingInternal, savingResult, savingFile, savingSettings, savingFileData, savingSettingsData, phase)
    }

    constructor (fs: FileSystem, savePath: Option<Path>, fileName: string,
                 deserializeSave: Bytes -> Option<S>, deserializeSettings: Bytes -> Option<C>)
      ensures Snap() == Flags(false, false, false, false, false, [], [], Idle) && Coherent(Snap())
      ensures this.fs == fs && this.savePath == savePath && this.fileName == fileName
      ensures this.deserializeSave == deserializeSave && this.deserializeSettings == deserializeSettings
    {
      this.fs := fs;
      this.savePath := savePath;
      this.fileName := fileName;
      this.deserializeSave := deserializeSave;
      this.deserializeSettings := deserializeSettings;
      saving := false;
      savingInternal := false;
      savingResult := false;
      savingFile := false;
      savingSettings := false;
      savingFileData := [];
      savingSettingsData := [];
      phase := Idle;
    }

    method SaveHandler(file: bool, settings: bool)
      modifies this
      ensures Snap() == Handled(old(Snap()), file, settings)
    {
      if !saving {
        saving := true;
        phase := Starting(file, settings);
      }
    }

    method Launch(fileData: Bytes, settingsData: Bytes)
      modifies this
      ensures Snap() == Launched(old(Snap()), fileData, settingsData)
    {
      if savingFile {
        savingFileData := fileData;
      }
      if savingSettings {
        savingSettingsData := settingsData;
      }
      savingInternal := true;
      savingResult := false;
      phase := AwaitingThread;
    }

    method AwaitMenu(fileData: Bytes, settingsData: Bytes, menu: Overlay) returns (more: bool)
      modifies this
      ensures (Snap(), more) == MenuStep(old(Snap()), fileData, settingsData, menu)
    {
      if menu.open {
        phase := AwaitingMenu;
        return true;
      }
      if !menu.tryAgain {
        saving := false;
        phase := Idle;
        return false;
      }
      Launch(fileData, settingsData);
      return true;
    }

    method MoveNext(fileData: Bytes, settingsData: Bytes, menu: Overlay) returns (more: bool)
      modifies this
      ensures (Snap(), more) == Stepped(old(Snap()), fileData, settingsData, menu)
    {
      match phase {
        case Idle =>
          return false;
        case Starting(file, settings) =>
          savingFile := file;
          savingSettings := settings;
          Launch(fileData, settingsData);
          return true;
        case AwaitingThread =>
          if savingInternal {
            return true;
          }
          if savingResult {
            saving := false;
            phase := Idle;
            return false;
          }
          more := AwaitMenu(fileData, settingsData, menu);
        case AwaitingMenu =>
          more := AwaitMenu(fileData, settingsData, menu);
      }
    }

    method SaveThread()
      modifies this, fs
      ensures (Snap(), fs.volume) == ThreadRan(old(Snap()), old(fs.volume), savePath, fileName, deserializeSave, deserializeSettings)
    {
      ghost var f, v := Snap(), fs.volume;
      savingResult := false;
      // Open(Mode.Write) always succeeds.
      savingResult := true;
      ghost var e1 := if f.savingFile then SaveEffect(v, savePath, fileName, f.fileData, deserializeSave) else Effect(v, true);
      if savingFile {
        var ok := Save(fs, savePath, fileName, savingFileData, deserializeSave);
        savingResult := savingResult && ok;
      }
      assert Effect(fs.volume, savingResult) == e1;
      ghost var e2 := if f.savingSettings then SaveEffect(e1.after, savePath, SettingsName, f.settingsData, deserializeSettings) else Effect(e1.after, true);
      if savingSettings {
        var ok := Save(fs, savePath, SettingsName, savingSettingsData, deserializeSettings);
        savingResult := savingResult && ok;
      }
      assert fs.volume == e2.after && savingResult == (e1.completed && e2.completed);
      savingInternal := false;
    }
  }

  /** SaveHandler does nothing while a save is in flight, and otherwise starts exactly one routine. */
  lemma HandlerSingleFlight(f: Flags, file: bool, settings: bool)
    ensures f.saving ==> Handled(f, file, settings) == f
    ensures !f.saving ==> Handled(f, file, settings) == f.(saving := true, phase := Starting(file, settings))
    ensures Coherent(f) ==> Coherent(Handled(f, file, settings))
  {
  }

  /** Every step of the coroutine and of the worker keeps Saving set exactly while the routine is in flight. */
  lemma CoherenceKept<S, C>(f: Flags, fileData: Bytes, settingsData: Bytes, menu: Overlay, v: Volume,
                            savePath: Option<Path>, fileName: string,
                            deserializeSave: Bytes -> Option<S>, deserializeSettings: Bytes -> Option<C>)
    requires Coherent(f)
    ensures Coherent(Stepped(f, fileData, settingsData, menu).0)
    ensures Coherent(ThreadRan(f, v, savePath, fileName, deserializeSave, deserializeSettings).0)
    ensures !Stepped(f, fileData, settingsData, menu).1 <==> !Stepped(f, fileData, settingsData, menu).0.saving
  {
  }

  /**
   * SaveThread's result is the AND of the saves it was asked for (true when none), every
   * requested save runs even after an earlier one failed, and savingInternal ends cleared.
   */
  lemma ThreadResultIsConjunction<S, C>(f: Flags, v: Volume, savePath: Option<Path>, fileName: string,
                                        deserializeSave: Bytes -> Option<S>, deserializeSettings: Bytes -> Option<C>)
    ensures var (g, w) := ThreadRan(f, v, savePath, fileName, deserializeSave, deserializeSettings);
            var e1 := SaveEffect(v, savePath, fileName, f.fileData, deserializeSave);
            var mid := if f.savingFile then e1.after else v;
            var e2 := SaveEffect(mid, savePath, SettingsName, f.settingsData, deserializeSettings);
            && !g.savingInternal
            && (g.savingResult <==> (!f.savingFile || e1.completed) && (!f.savingSettings || e2.completed))
            && w == (if f.savingSettings then e2.after else mid)
            && (!f.savingFile && !f.savingSettings ==> g.savingResult && w == v)
            && g.saving == f.saving && g.phase == f.phase
  {
  }

  /** The routine waits while the worker runs, and ends (Saving cleared) as soon as the worker reports success. */
  lemma RoutineEndsOnSuccess(f: Flags, fileData: Bytes, settingsData: Bytes, menu: Overlay)
    requires f.phase == AwaitingThread
    ensures f.savingInternal ==> Stepped(f, fileData, settingsData, menu) == (f, true)
    ensures !f.savingInternal && f.savingResult ==>
              var (g, more) := Stepped(f, fileData, settingsData, menu);
              !g.saving && g.phase == Idle && !more
  {
  }

  /** After a failed save the overlay is shown; declining ends the routine, retrying starts the worker again. */
  lemma RoutineAfterFailure(f: Flags, fileData: Bytes, settingsData: Bytes, menu: Overlay)
    requires f.phase == AwaitingMenu || (f.phase == AwaitingThread && !f.savingInternal && !f.savingResult)
    ensures var (g, more) := Stepped(f, fileData, settingsData, menu);
            && (menu.open ==> g.phase == AwaitingMenu && g.saving == f.saving && more)
            && (!menu.open && !menu.tryAgain ==> !g.saving && g.phase == Idle && !more)
            && (!menu.open && menu.tryAgain ==>
                  g.phase == AwaitingThread && g.savingInternal && !g.savingResult && g.saving == f.saving && more)
  {
  }

  /**
   * A whole successful round: from no save in flight, SaveHandler(file: true), one MoveNext,
   * the worker and one more MoveNext leave Saving cleared and the save data in the primary.
   */
  lemma SaveRoundCompletes<S, C>(f: Flags, v: Volume, savePath: Option<Path>, fileName: string, data: Bytes,
                                 menu: Overlay, deserializeSave: Bytes -> Option<S>, deserializeSettings: Bytes -> Option<C>)
    requires !f.saving && WellNamed(savePath, fileName)
    requires SaveEffect(v, savePath, fileName, data, deserializeSave).completed
    ensures var f1 := Handled(f, true, false);
            var (f2, _) := Stepped(f1, data, [], menu);
            var (f3, w) := ThreadRan(f2, v, savePath, fileName, deserializeSave, deserializeSettings);
            var (f4, more) := Stepped(f3, data, [], menu);
            && !f4.saving && f4.phase == Idle && !more
            && w.ReadFile(GetHandle(savePath, fileName)) == Some(data)
  {
    SaveRoundTrip(v, savePath, fileName, data, deserializeSave);
  }
}
