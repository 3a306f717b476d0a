/**
 * ContentValidator: a read-only check that the content root holds the directories the
 * game needs. It stops at the first defect of the root itself; otherwise it checks every
 * required directory (and, when audio is required, the FMOD directory) and reports every
 * defect it finds, in a fixed order.
 */
module ContentValidator {
  import opened Wrappers
  import opened Paths
  import opened Disk

  /** The directories the game cannot start without, each with the minimum content it must hold. */
  datatype Required = Dialog | Effects | Graphics
  {
    function Name(): (r: string)
      ensures r != "" && Separator !in r
    {
      match this
      case Dialog => "Dialog"
      case Effects => "Effects"
      case Graphics => "Graphics"
    }

    /** Position in RequiredDirs. */
    function Index(): (k: nat)
      ensures k < |RequiredDirs| && RequiredDirs[k] == this
    {
      match this
      case Dialog => 0
      case Effects => 1
      case Graphics => 2
    }
  }

  /** The order in which Validate visits the required directories. */
  const RequiredDirs: seq<Required> := [Dialog, Effects, Graphics]
  const AudioDir: string := "FMOD"

  const SummaryNotInitialised: string := "Paths/FS não inicializados"
  const SummaryContentAbsent: string := "Content ausente"
  const SummaryContentEmpty: string := "Content vazio"
  const SummaryContentUnreadable: string := "Não foi possível ler Content"
  const SummaryOk: string := "OK"
  const SummaryIncomplete: string := "INCOMPLETO"

  /** One defect of the content tree; Message() is the text Validate puts in its list. */
  datatype Problem =
    | ServicesMissing
    | ContentAbsent(content: Path)
    | ContentEmpty(content: Path)
    | ContentUnlistable(error: Fault)
    | NoEffectBinaries(dir: Path)
    | DialogEmpty(dir: Path)
    | GraphicsEmpty(dir: Path)
    | CaseMismatch(expected: Required, found: string)
    | RequiredAbsent(missing: Required, dir: Path)
    | AudioCaseMismatch(found: string)
    | AudioAbsent
  {
    function Message(): string {
      match this
      case ServicesMissing => "PathsProvider ou FileSystem está null."
      case ContentAbsent(c) => "Pasta Content não existe: " + c
      case ContentEmpty(c) => "Pasta Content está vazia: " + c
      case ContentUnlistable(e) => "Falha ao enumerar Content: " + e.Describe()
      case NoEffectBinaries(d) => "Effects existe mas não contém .xnb: " + d
      case DialogEmpty(d) => "Dialog existe mas está vazio: " + d
      case GraphicsEmpty(d) => "Graphics existe mas está vazio: " + d
      case CaseMismatch(n, f) =>
        "Case mismatch: esperado '" + n.Name() + "/' mas encontrado '" + f + "/'. Renomeie para exatamente '"
        + n.Name() + "/'."
      case RequiredAbsent(n, d) => "Pasta crítica ausente: " + n.Name() + "/ (esperado em " + d + ")"
      case AudioCaseMismatch(f) => "Case mismatch: esperado 'FMOD/' mas encontrado '" + f + "/'. Renomeie para 'FMOD/'."
      case AudioAbsent => "Pasta FMOD ausente (áudio pode falhar): FMOD/"
    }

    /**
     * Position of the directory the problem is about in the order Validate reports them:
     * 0, 1, 2 for the required directories, 3 for FMOD, -1 for the content root itself.
     */
    function Rank(): (k: int)
      ensures -1 <= k <= |RequiredDirs|
    {
      match this
      case DialogEmpty(_) => Dialog.Index()
      case NoEffectBinaries(_) => Effects.Index()
      case GraphicsEmpty(_) => Graphics.Index()
      case CaseMismatch(n, _) => n.Index()
      case RequiredAbsent(n, _) => n.Index()
      case AudioCaseMismatch(_) => |RequiredDirs|
      case AudioAbsent => |RequiredDirs|
      case _ => -1
    }
  }

  /** ContentValidator.Result */
  datatype Report = Report(ok: bool, summary: string, problems: seq<Problem>)

  /** What Validate does: return a report, or let an exception escape. */
  datatype Outcome = Returned(report: Report) | Threw(fault: Fault)

  /** The problems of part of a scan, or the exception that cut it short. */
  datatype Scan = Scanned(problems: seq<Problem>) | Aborted(fault: Fault)

  /** The first directory of `dirs` whose name equals `name` ignoring case. */
  function FirstIgnoringCase(dirs: seq<Path>, name: string): Option<Path> {
    if dirs == [] then None
    else if EqualsIgnoreCase(FileName(dirs[0]), name) then Some(dirs[0])
    else FirstIgnoringCase(dirs[1..], name)
  }

  /** The directory's last component equals `name` ignoring case. */
  predicate NameMatches(d: Path, name: string) {
    EqualsIgnoreCase(FileName(d), name)
  }

  /** The search finds nothing exactly when no directory matches. */
  lemma {:induction false} FirstIgnoringCaseNone(dirs: seq<Path>, name: string)
    ensures FirstIgnoringCase(dirs, name).None? <==> forall i :: 0 <= i < |dirs| ==> !NameMatches(dirs[i], name)
  {
    if dirs != [] {
      if NameMatches(dirs[0], name) {
        assert FirstIgnoringCase(dirs, name).Some?;
      } else {
        var tail := dirs[1..];
        assert FirstIgnoringCase(dirs, name) == FirstIgnoringCase(tail, name);
        FirstIgnoringCaseNone(tail, name);
        assert forall i :: 0 < i < |dirs| ==> dirs[i] == tail[i - 1];
      }
    }
  }

  /** The search returns the earliest matching directory. */
  lemma {:induction false} FirstIgnoringCaseSome(dirs: seq<Path>, name: string) returns (i: int)
    requires FirstIgnoringCase(dirs, name).Some?
    ensures 0 <= i < |dirs| && dirs[i] == FirstIgnoringCase(dirs, name).value && NameMatches(dirs[i], name)
    ensures forall j :: 0 <= j < i ==> !NameMatches(dirs[j], name)
  {
    if NameMatches(dirs[0], name) {
      i := 0;
    } else {
      var k := FirstIgnoringCaseSome(dirs[1..], name);
      i := k + 1;
      assert forall j :: 0 < j <= i ==> dirs[j] == dirs[1..][j - 1];
    }
  }

  /** FindDirectoryCaseInsensitive(parent, name) as a value: a failed listing is swallowed. */
  function SiblingIgnoringCase(v: Volume, parent: Path, name: string): Option<Path> {
    if !v.CanList(parent) then None else FirstIgnoringCase(v.Subdirectories(parent), name)
  }

  /** What the case-insensitive search finds: a subdirectory matching the name, or nothing when none matches. */
  lemma SiblingIgnoringCaseFinds(v: Volume, parent: Path, name: string)
    ensures var r := SiblingIgnoringCase(v, parent, name);
            r.Some? ==> r.value in v.dirs && IsChild(r.value, parent) && NameMatches(r.value, name)
    ensures SiblingIgnoringCase(v, parent, name).None? <==>
            !v.CanList(parent) || forall d :: d in v.dirs && IsChild(d, parent) ==> !NameMatches(d, name)
  {
    if SiblingIgnoringCase(v, parent, name).Some? {
      SiblingFound(v, parent, name);
    } else if v.CanList(parent) {
      SiblingNone(v, parent, name);
    }
  }

  /** A found directory is a listed child of the parent whose name matches. */
  lemma SiblingFound(v: Volume, parent: Path, name: string)
    requires SiblingIgnoringCase(v, parent, name).Some?
    ensures v.CanList(parent)
    ensures var r := SiblingIgnoringCase(v, parent, name).value;
            r in v.dirs && IsChild(r, parent) && NameMatches(r, name)
  {
    var subdirs := v.Subdirectories(parent);
    var i := FirstIgnoringCaseSome(subdirs, name);
    assert subdirs[i] in subdirs;
  }

  /** When a listable parent yields nothing, none of its children matches. */
  lemma SiblingNone(v: Volume, parent: Path, name: string)
    requires SiblingIgnoringCase(v, parent, name).None? && v.CanList(parent)
    ensures forall d :: d in v.dirs && IsChild(d, parent) ==> !NameMatches(d, name)
  {
    var subdirs := v.Subdirectories(parent);
    forall d | d in v.dirs && IsChild(d, parent)
      ensures !NameMatches(d, name)
    {
      assert d in subdirs;
      NoMatchMember(subdirs, name, d);
    }
  }

  /** When the search finds nothing, no listed directory matches. */
  lemma NoMatchMember(dirs: seq<Path>, name: string, d: Path)
    requires FirstIgnoringCase(dirs, name).None? && d in dirs
    ensures !NameMatches(d, name)
  {
    FirstIgnoringCaseNone(dirs, name);
    var i :| 0 <= i < |dirs| && dirs[i] == d;
  }

  /** The file name ending Validate searches for below Effects ("*.xnb") and Dialog ("*.*", which matches every file). */
  const XnbSuffix: string := ".xnb"
  const AnySuffix: string := ""

  /** A recursive search as a check: nothing when it finds a file, `absent` when there is none, its exception otherwise. */
  function Searched(s: Search, absent: Problem): Scan {
    match s
    case Found => Scanned([])
    case Exhausted => Scanned([absent])
    case Denied(p) => Aborted(AccessDenied(p))
  }

  /** The content check of a required directory that exists under its exact name. */
  function CheckContents(v: Volume, expected: Path, dir: Required): Scan {
    if !v.CanList(expected) then Aborted(AccessDenied(expected))
    else
      match dir
      case Effects => Searched(v.FindFileBeneath(expected, XnbSuffix), NoEffectBinaries(expected))
      case Dialog => Searched(v.FindFileBeneath(expected, AnySuffix), DialogEmpty(expected))
      case Graphics => if v.HasEntries(expected) then Scanned([]) else Scanned([GraphicsEmpty(expected)])
  }

  /**
   * The content check of an existing required directory throws: its listing fails, or, below
   * Dialog and Effects, the search meets a directory that cannot be listed before any match.
   */
  predicate Blocked(v: Volume, expected: Path, dir: Required) {
    match dir
    case Effects => v.FindFileBeneath(expected, XnbSuffix).Denied?
    case Dialog => v.FindFileBeneath(expected, AnySuffix).Denied?
    case Graphics => !v.CanList(expected)
  }

  /** The problem for a required directory missing under its exact name. */
  function Misnamed(v: Volume, content: Path, dir: Required): Problem {
    match SiblingIgnoringCase(v, content, dir.Name())
    case Some(found) => CaseMismatch(dir, FileName(found))
    case None => RequiredAbsent(dir, Combine(content, dir.Name()))
  }

  /** The check of one required directory: at most one problem, or the exception of a failed listing. */
  function CheckRequired(v: Volume, content: Path, dir: Required): Scan {
    var expected := Combine(content, dir.Name());
    if v.DirectoryExists(expected) then CheckContents(v, expected, dir)
    else Scanned([Misnamed(v, content, dir)])
  }

  /** Two parts of a scan one after the other: the first exception wins, problems accumulate. */
  function Then(first: Scan, second: Scan): (r: Scan)
    ensures r.Aborted? <==> first.Aborted? || second.Aborted?
    ensures first.Aborted? ==> r == first
  {
    match first
    case Aborted(_) => first
    case Scanned(ps) =>
      match second
      case Aborted(_) => second
      case Scanned(qs) => Scanned(ps + qs)
  }

  /** The checks of `dirs`, in order; the first exception ends the scan. */
  function ScanDirs(v: Volume, content: Path, dirs: seq<Required>): Scan
    decreases |dirs|
  {
    if dirs == [] then Scanned([])
    else Then(ScanDirs(v, content, dirs[..|dirs| - 1]), CheckRequired(v, content, dirs[|dirs| - 1]))
  }

  /** The optional FMOD check: existence or a case mismatch, never its contents. */
  function CheckAudio(v: Volume, content: Path, requireAudio: bool): seq<Problem> {
    if !requireAudio || v.DirectoryExists(Combine(content, AudioDir)) then []
    else [AudioMisnamed(v, content)]
  }

  /** The problem for an FMOD directory missing under its exact name. */
  function AudioMisnamed(v: Volume, content: Path): Problem {
    match SiblingIgnoringCase(v, content, AudioDir)
    case Some(found) => AudioCaseMismatch(FileName(found))
    case None => AudioAbsent
  }

  /** The verdict of a full scan. */
  function Verdict(problems: seq<Problem>): Report {
    var ok := |problems| == 0;
    Report(ok, if ok then SummaryOk else SummaryIncomplete, problems)
  }

  /** The scan of a content root that exists, can be listed and is not empty. */
  function ScanContent(v: Volume, content: Path, requireAudio: bool): Outcome {
    match ScanDirs(v, content, RequiredDirs)
    case Aborted(f) => Threw(f)
    case Scanned(ps) => Returned(Verdict(ps + CheckAudio(v, content, requireAudio)))
  }

  /** The content root exists, can be listed and is not empty: every directory gets checked. */
  predicate FullScan(paths: Option<PathSet>, fsReady: bool, v: Volume) {
    && paths.Some? && fsReady
    && v.DirectoryExists(paths.value.content)
    && v.CanList(paths.value.content)
    && v.HasEntries(paths.value.content)
  }

  /** ContentValidator.Validate(paths, fs, requireAudio), with `fsReady` standing for fs != null. */
  function Validation(paths: Option<PathSet>, fsReady: bool, v: Volume, requireAudio: bool): Outcome {
    if paths.None? || !fsReady then Returned(Report(false, SummaryNotInitialised, [ServicesMissing]))
    else
      var content := paths.value.content;
      if !v.DirectoryExists(content) then Returned(Report(false, SummaryContentAbsent, [ContentAbsent(content)]))
      else if !v.CanList(content) then
        Returned(Report(false, SummaryContentUnreadable, [ContentUnlistable(AccessDenied(content))]))
      else if !v.HasEntries(content) then Returned(Report(false, SummaryContentEmpty, [ContentEmpty(content)]))
      else ScanContent(v, content, requireAudio)
  }

  /** FindDirectoryCaseInsensitive: the first subdirectory whose name matches ignoring case. */
  method FindDirectoryCaseInsensitive(v: Volume, parent: Path, name: string) returns (found: Option<Path>)
    ensures found == SiblingIgnoringCase(v, parent, name)
  {
    if !v.CanList(parent) {
      // the listing throws and the exception is swallowed
      return None;
    }
    var entries := v.Subdirectories(parent);
    for i := 0 to |entries|
      invariant FirstIgnoringCase(entries, name) == FirstIgnoringCase(entries[i..], name)
    {
      assert entries[i..][1..] == entries[i + 1..];
      if EqualsIgnoreCase(FileName(entries[i]), name) {
        return Some(entries[i]);
      }
    }
    return None;
  }

  /** An exception in one directory's check ends every longer scan with the same exception. */
  lemma {:induction false} AbortPersists(v: Volume, content: Path, dirs: seq<Required>, k: nat)
    requires k <= |dirs|
    requires ScanDirs(v, content, dirs[..k]).Aborted?
    ensures ScanDirs(v, content, dirs) == ScanDirs(v, content, dirs[..k])
    decreases |dirs|
  {
    if k < |dirs| {
      assert dirs[..|dirs| - 1][..k] == dirs[..k];
      AbortPersists(v, content, dirs[..|dirs| - 1], k);
    } else {
      assert dirs[..k] == dirs;
    }
  }

  /** The body of Validate's loop for one required directory: its problem, if any, or the exception. */
  method CheckDirectory(v: Volume, content: Path, dir: Required) returns (s: Scan)
    ensures s == CheckRequired(v, content, dir)
  {
    var dirName := dir.Name();
    var expected := Combine(content, dirName);
    if v.DirectoryExists(expected) {
      if !v.CanList(expected) {
        // the enumeration throws; Validate does not catch it
        return Aborted(AccessDenied(expected));
      }
      match dir {
        case Effects =>
          var anyXnb := v.FindFileBeneath(expected, XnbSuffix);
          if anyXnb.Denied? {
            // an unlistable directory below; Validate does not catch it
            return Aborted(AccessDenied(anyXnb.at));
          }
          if anyXnb.Exhausted? {
            return Scanned([NoEffectBinaries(expected)]);
          }
        case Dialog =>
          var anyFile := v.FindFileBeneath(expected, AnySuffix);
          if anyFile.Denied? {
            return Aborted(AccessDenied(anyFile.at));
          }
          if anyFile.Exhausted? {
            return Scanned([DialogEmpty(expected)]);
          }
        case Graphics =>
          var anyItem := v.HasEntries(expected);
          if !anyItem {
            return Scanned([GraphicsEmpty(expected)]);
          }
      }
      return Scanned([]);
    }
    var found := FindDirectoryCaseInsensitive(v, content, dirName);
    if found.Some? {
      return Scanned([CaseMismatch(dir, FileName(found.value))]);
    }
    return Scanned([RequiredAbsent(dir, expected)]);
  }

  /** The part of Validate after the checks of the root: the required directories, then FMOD, then the verdict. */
  method ScanContentTree(v: Volume, content: Path, requireAudio: bool) returns (r: Outcome)
    ensures r == ScanContent(v, content, requireAudio)
  {
    var problems: seq<Problem> := [];
    for i := 0 to |RequiredDirs|
      invariant ScanDirs(v, content, RequiredDirs[..i]) == Scanned(problems)
    {
      assert RequiredDirs[..i + 1][..i] == RequiredDirs[..i];
      var s := CheckDirectory(v, content, RequiredDirs[i]);
      if s.Aborted? {
        AbortPersists(v, content, RequiredDirs, i + 1);
        return Threw(s.fault);
      }
      problems := problems + s.problems;
    }
    assert RequiredDirs[..|RequiredDirs|] == RequiredDirs;

    if requireAudio {
      var fmodDir := Combine(content, AudioDir);
      if !v.DirectoryExists(fmodDir) {
        var found := FindDirectoryCaseInsensitive(v, content, AudioDir);
        if found.Some? {
          problems := problems + [AudioCaseMismatch(FileName(found.value))];
        } else {
          problems := problems + [AudioAbsent];
        }
      }
    }

    var ok := |problems| == 0;
    var summary := if ok then SummaryOk else SummaryIncomplete;
    return Returned(Report(ok, summary, problems));
  }

  /** ContentValidator.Validate */
  method Validate(paths: Option<PathSet>, fsReady: bool, v: Volume, requireAudio: bool) returns (r: Outcome)
    ensures r == Validation(paths, fsReady, v, requireAudio)
  {
    var problems: seq<Problem> := [];
    if paths.None? || !fsReady {
      return Returned(Report(false, SummaryNotInitialised, [ServicesMissing]));
    }
    var content := paths.value.content;
    if !v.DirectoryExists(content) {
      problems := problems + [ContentAbsent(content)];
      return Returned(Report(false, SummaryContentAbsent, problems));
    }
    if !v.CanList(content) {
      problems := problems + [ContentUnlistable(AccessDenied(content))];
      return Returned(Report(false, SummaryContentUnreadable, problems));
    }
    if !v.HasEntries(content) {
      problems := problems + [ContentEmpty(content)];
      return Returned(Report(false, SummaryContentEmpty, problems));
    }
    r := ScanContentTree(v, content, requireAudio);
  }

  // ---------------------------------------------------------------------------
  // Properties of the validation
  // ---------------------------------------------------------------------------

  /** Problems about directories under the root, each directory at most once, in the order of the scan. */
  predicate Ranked(ps: seq<Problem>) {
    (forall i :: 0 <= i < |ps| ==> 0 <= ps[i].Rank()) &&
    (forall i, j :: 0 <= i < j < |ps| ==> ps[i].Rank() < ps[j].Rank())
  }

  /** The problem of a misnamed directory is about that directory. */
  lemma MisnamedRank(v: Volume, content: Path, dir: Required)
    ensures Misnamed(v, content, dir).Rank() == dir.Index()
  {
    match SiblingIgnoringCase(v, content, dir.Name())
    case Some(found) =>
      assert Misnamed(v, content, dir) == CaseMismatch(dir, FileName(found));
    case None =>
      assert Misnamed(v, content, dir) == RequiredAbsent(dir, Combine(content, dir.Name()));
  }

  /** A required directory yields at most one problem, and it is about that directory. */
  lemma CheckRequiredRanked(v: Volume, content: Path, dir: Required)
    requires CheckRequired(v, content, dir).Scanned?
    ensures |CheckRequired(v, content, dir).problems| <= 1
    ensures forall q :: q in CheckRequired(v, content, dir).problems ==> q.Rank() == dir.Index()
  {
    var expected := Combine(content, dir.Name());
    if v.DirectoryExists(expected) {
      assert CheckRequired(v, content, dir) == CheckContents(v, expected, dir);
    } else {
      MisnamedRank(v, content, dir);
      assert CheckRequired(v, content, dir).problems == [Misnamed(v, content, dir)];
    }
  }

  /** A required directory is never the root or the working directory. */
  lemma RequiredNotTop(content: Path, dir: Required)
    ensures !IsTop(Combine(content, dir.Name()))
  {
    var name := dir.Name();
    assert name[0] in name;
    CombineCases(content, name);
  }

  /**
   * A required directory's check throws exactly when the directory exists under its exact name
   * and is blocked; the exception names a directory at or below it that cannot be listed.
   */
  lemma CheckRequiredThrows(v: Volume, content: Path, dir: Required)
    ensures CheckRequired(v, content, dir).Aborted? <==>
              v.DirectoryExists(Combine(content, dir.Name())) && Blocked(v, Combine(content, dir.Name()), dir)
    ensures var s := CheckRequired(v, content, dir);
            s.Aborted? ==> Within(s.fault.path, Combine(content, dir.Name())) && !v.CanList(s.fault.path)
  {
    var e := Combine(content, dir.Name());
    RequiredNotTop(content, dir);
    FindFileBeneathSound(v, e, XnbSuffix);
    FindFileBeneathSound(v, e, AnySuffix);
    if !v.CanList(e) {
      assert v.OpenInTurn([e], XnbSuffix) == Denied(e);
      assert v.OpenInTurn([e], AnySuffix) == Denied(e);
    }
  }

  /**
   * Being blocked lies between the two plain cases: a required directory that cannot be listed
   * is always blocked, and one below which every directory can be listed never is.
   */
  lemma BlockedBounds(v: Volume, content: Path, dir: Required)
    ensures var e := Combine(content, dir.Name());
            (!v.CanList(e) ==> Blocked(v, e, dir)) && (v.ListableTree(e) ==> !Blocked(v, e, dir))
  {
    var e := Combine(content, dir.Name());
    RequiredNotTop(content, dir);
    if !v.CanList(e) {
      assert v.OpenInTurn([e], XnbSuffix) == Denied(e);
      assert v.OpenInTurn([e], AnySuffix) == Denied(e);
    }
    if v.ListableTree(e) {
      ListableTreeNotDenied(v, e, XnbSuffix);
      ListableTreeNotDenied(v, e, AnySuffix);
    }
  }

  /** The required directories are scanned as Dialog, then Effects, then Graphics. */
  lemma ScanRequiredUnrolled(v: Volume, content: Path)
    ensures ScanDirs(v, content, RequiredDirs) ==
            Then(Then(CheckRequired(v, content, Dialog), CheckRequired(v, content, Effects)),
                 CheckRequired(v, content, Graphics))
  {
    var d := CheckRequired(v, content, Dialog);
    assert RequiredDirs[..2] == [Dialog, Effects];
    assert RequiredDirs[..2][..1] == [Dialog];
    assert [Dialog][..0] == [];
    assert ScanDirs(v, content, [Dialog]) == Then(Scanned([]), d);
    assert Then(Scanned([]), d) == d by {
      if d.Scanned? {
        assert [] + d.problems == d.problems;
      }
    }
  }

  /** A scan throws exactly when the check of one of its directories throws. */
  lemma {:induction false} ScanThrows(v: Volume, content: Path, dirs: seq<Required>)
    ensures ScanDirs(v, content, dirs).Aborted? <==>
            exists d :: d in dirs && CheckRequired(v, content, d).Aborted?
    decreases |dirs|
  {
    if dirs != [] {
      var init := dirs[..|dirs| - 1];
      ScanThrows(v, content, init);
      assert forall d :: d in dirs <==> d in init || d == dirs[|dirs| - 1];
    }
  }

  /** A scan that completes reports every problem of every directory it checked. */
  lemma {:induction false} ScanIncludes(v: Volume, content: Path, dirs: seq<Required>, d: Required)
    requires d in dirs
    requires ScanDirs(v, content, dirs).Scanned?
    ensures CheckRequired(v, content, d).Scanned?
    ensures forall q :: q in CheckRequired(v, content, d).problems ==> q in ScanDirs(v, content, dirs).problems
    decreases |dirs|
  {
    var init := dirs[..|dirs| - 1];
    if d != dirs[|dirs| - 1] {
      assert d in init by {
        assert forall m :: m in dirs <==> m in init || m == dirs[|dirs| - 1];
      }
      ScanIncludes(v, content, init, d);
    }
  }

  /** Past the checks of the root, Validate is the scan of the content directory. */
  lemma FullScanValidation(paths: Option<PathSet>, fsReady: bool, v: Volume, requireAudio: bool)
    requires FullScan(paths, fsReady, v)
    ensures Validation(paths, fsReady, v, requireAudio) == ScanContent(v, paths.value.content, requireAudio)
  {
  }

  /** A defect of the content root itself stops validation with exactly that one problem. */
  lemma RootDefectStops(paths: Option<PathSet>, fsReady: bool, v: Volume, requireAudio: bool)
    requires !FullScan(paths, fsReady, v)
    ensures var r := Validation(paths, fsReady, v, requireAudio);
            r.Returned? && !r.report.ok && r.report.summary !in {SummaryOk, SummaryIncomplete} &&
            |r.report.problems| == 1 && r.report.problems[0].Rank() == -1
  {
  }

  /** Validate throws exactly when a required directory exists under the listable root and is blocked. */
  lemma ThrowsExactly(paths: Option<PathSet>, fsReady: bool, v: Volume, requireAudio: bool)
    ensures Validation(paths, fsReady, v, requireAudio).Threw? <==>
            FullScan(paths, fsReady, v) &&
            exists d: Required :: v.DirectoryExists(Combine(paths.value.content, d.Name())) &&
                                  Blocked(v, Combine(paths.value.content, d.Name()), d)
  {
    if FullScan(paths, fsReady, v) {
      FullScanValidation(paths, fsReady, v, requireAudio);
      ScanThrowsExactly(v, paths.value.content, requireAudio);
    } else {
      RootDefectStops(paths, fsReady, v, requireAudio);
    }
  }

  /** The scan of the content directory throws exactly when a required directory exists and is blocked. */
  lemma ScanThrowsExactly(v: Volume, c: Path, requireAudio: bool)
    ensures ScanContent(v, c, requireAudio).Threw? <==>
            exists d: Required :: v.DirectoryExists(Combine(c, d.Name())) && Blocked(v, Combine(c, d.Name()), d)
  {
    ScanThrows(v, c, RequiredDirs);
    forall d: Required
      ensures d in RequiredDirs
      ensures CheckRequired(v, c, d).Aborted? <==> v.DirectoryExists(Combine(c, d.Name())) && Blocked(v, Combine(c, d.Name()), d)
    {
      assert RequiredDirs[d.Index()] == d;
      CheckRequiredThrows(v, c, d);
    }
  }

  /** The verdict: "OK" with no problems, "INCOMPLETO" with some; those two summaries only after a full scan. */
  lemma OkExactlyWhenNoProblems(paths: Option<PathSet>, fsReady: bool, v: Volume, requireAudio: bool)
    requires Validation(paths, fsReady, v, requireAudio).Returned?
    ensures var rep := Validation(paths, fsReady, v, requireAudio).report;
            (rep.ok <==> rep.problems == []) && (rep.ok <==> rep.summary == SummaryOk) &&
            (FullScan(paths, fsReady, v) <==> rep.summary in {SummaryOk, SummaryIncomplete})
  {
    if FullScan(paths, fsReady, v) {
      FullScanValidation(paths, fsReady, v, requireAudio);
    } else {
      RootDefectStops(paths, fsReady, v, requireAudio);
    }
  }

  /** The problems of a completed scan, directory by directory. */
  lemma ScanContentProblems(v: Volume, content: Path, requireAudio: bool)
    requires ScanContent(v, content, requireAudio).Returned?
    ensures CheckRequired(v, content, Dialog).Scanned?
    ensures CheckRequired(v, content, Effects).Scanned?
    ensures CheckRequired(v, content, Graphics).Scanned?
    ensures ScanContent(v, content, requireAudio).report.problems ==
            CheckRequired(v, content, Dialog).problems + CheckRequired(v, content, Effects).problems +
            CheckRequired(v, content, Graphics).problems + CheckAudio(v, content, requireAudio)
  {
    ScanRequiredUnrolled(v, content);
  }

  /** After a full scan there are at most four problems, one per checked directory at most, in order. */
  lemma ProblemsRanked(paths: Option<PathSet>, fsReady: bool, v: Volume, requireAudio: bool)
    requires FullScan(paths, fsReady, v)
    requires Validation(paths, fsReady, v, requireAudio).Returned?
    ensures Ranked(Validation(paths, fsReady, v, requireAudio).report.problems)
    ensures |Validation(paths, fsReady, v, requireAudio).report.problems| <= |RequiredDirs| + 1
  {
    FullScanValidation(paths, fsReady, v, requireAudio);
    ScanRanked(v, paths.value.content, requireAudio);
  }

  /** The problems of a completed scan are ranked, at most one per checked directory. */
  lemma ScanRanked(v: Volume, c: Path, requireAudio: bool)
    requires ScanContent(v, c, requireAudio).Returned?
    ensures Ranked(ScanContent(v, c, requireAudio).report.problems)
    ensures |ScanContent(v, c, requireAudio).report.problems| <= |RequiredDirs| + 1
  {
    ScanContentProblems(v, c, requireAudio);
    var d, e, g := CheckRequired(v, c, Dialog), CheckRequired(v, c, Effects), CheckRequired(v, c, Graphics);
    CheckRequiredRanked(v, c, Dialog);
    CheckRequiredRanked(v, c, Effects);
    CheckRequiredRanked(v, c, Graphics);
    AudioRanked(v, c, requireAudio);
    RankedFour(d.problems, e.problems, g.problems, CheckAudio(v, c, requireAudio));
  }

  /** The FMOD check yields at most one problem, about FMOD. */
  lemma AudioRanked(v: Volume, c: Path, requireAudio: bool)
    ensures |CheckAudio(v, c, requireAudio)| <= 1
    ensures forall q :: q in CheckAudio(v, c, requireAudio) ==> q.Rank() == |RequiredDirs|
  {
    if requireAudio && !v.DirectoryExists(Combine(c, AudioDir)) {
      var p := AudioMisnamed(v, c);
      assert p.AudioCaseMismatch? || p.AudioAbsent?;
      assert CheckAudio(v, c, requireAudio) == [p];
    } else {
      assert CheckAudio(v, c, requireAudio) == [];
    }
  }

  /** At most one problem of each rank 0, 1, 2, 3, put together in that order, are ranked. */
  lemma RankedFour(d: seq<Problem>, e: seq<Problem>, g: seq<Problem>, a: seq<Problem>)
    requires |d| <= 1 && forall q :: q in d ==> q.Rank() == 0
    requires |e| <= 1 && forall q :: q in e ==> q.Rank() == 1
    requires |g| <= 1 && forall q :: q in g ==> q.Rank() == 2
    requires |a| <= 1 && forall q :: q in a ==> q.Rank() == 3
    ensures Ranked(d + e + g + a) && |d + e + g + a| <= 4
  {
    assert [] + d == d;
    RankedConcat([], -1, d, 0);
    RankedConcat(d, 0, e, 1);
    RankedConcat(d + e, 1, g, 2);
    RankedConcat(d + e + g, 2, a, 3);
  }

  /** Appending problems about a later directory keeps the order. */
  lemma RankedConcat(ps: seq<Problem>, bound: int, qs: seq<Problem>, k: int)
    requires Ranked(ps) && forall p :: p in ps ==> p.Rank() <= bound
    requires bound < k && 0 <= k && |qs| <= 1 && forall q :: q in qs ==> q.Rank() == k
    requires |ps| <= bound + 1
    ensures Ranked(ps + qs) && (forall p :: p in ps + qs ==> p.Rank() <= k) && |ps + qs| <= k + 1
  {
    var r := ps + qs;
    forall i, j | 0 <= i < j < |r|
      ensures r[i].Rank() < r[j].Rank()
    {
      if j >= |ps| {
        assert r[j] in qs;
        assert r[i] in ps;
      }
    }
  }

  /** A required directory absent under its exact name is reported, with the folder found under another case if any. */
  lemma MissingDirectoryReported(paths: Option<PathSet>, fsReady: bool, v: Volume, requireAudio: bool, dir: Required)
    requires FullScan(paths, fsReady, v)
    requires !v.DirectoryExists(Combine(paths.value.content, dir.Name()))
    requires Validation(paths, fsReady, v, requireAudio).Returned?
    ensures var c := paths.value.content;
            var problems := Validation(paths, fsReady, v, requireAudio).report.problems;
            match SiblingIgnoringCase(v, c, dir.Name())
            case Some(found) => CaseMismatch(dir, FileName(found)) in problems
            case None => RequiredAbsent(dir, Combine(c, dir.Name())) in problems
  {
    var c := paths.value.content;
    FullScanValidation(paths, fsReady, v, requireAudio);
    assert dir in RequiredDirs by {
      assert RequiredDirs[dir.Index()] == dir;
    }
    ScanIncludes(v, c, RequiredDirs, dir);
    assert CheckRequired(v, c, dir).problems == [Misnamed(v, c, dir)];
  }

  /** An Effects directory with no .xnb file anywhere below it is reported. */
  lemma EffectsWithoutBinariesReported(paths: Option<PathSet>, fsReady: bool, v: Volume, requireAudio: bool)
    requires FullScan(paths, fsReady, v)
    requires var effects := Combine(paths.value.content, "Effects");
             v.DirectoryExists(effects) && !v.HasFileBeneath(effects, ".xnb")
    requires Validation(paths, fsReady, v, requireAudio).Returned?
    ensures NoEffectBinaries(Combine(paths.value.content, "Effects")) in
              Validation(paths, fsReady, v, requireAudio).report.problems
  {
    var c := paths.value.content;
    var effects := Combine(c, Effects.Name());
    FullScanValidation(paths, fsReady, v, requireAudio);
    assert Effects in RequiredDirs by {
      assert RequiredDirs[1] == Effects;
    }
    ScanIncludes(v, c, RequiredDirs, Effects);
    RequiredNotTop(c, Effects);
    FindFileBeneathSound(v, effects, XnbSuffix);
    assert CheckContents(v, effects, Effects) == Scanned([NoEffectBinaries(effects)]);
    assert NoEffectBinaries(effects) in CheckRequired(v, c, Effects).problems;
  }

  /**
   * An Effects directory with no .xnb of its own whose first subdirectory cannot be listed makes
   * Validate throw once Dialog's check has passed, whatever that subdirectory holds.
   */
  lemma LockedEffectsSubdirectoryThrows(paths: Option<PathSet>, fsReady: bool, v: Volume, requireAudio: bool)
    requires FullScan(paths, fsReady, v)
    requires CheckRequired(v, paths.value.content, Dialog).Scanned?
    requires var effects := Combine(paths.value.content, "Effects");
             && v.DirectoryExists(effects) && v.CanList(effects) && !v.HasFileIn(effects, XnbSuffix)
             && v.Subdirectories(effects) != [] && !v.CanList(v.Subdirectories(effects)[0])
    ensures Validation(paths, fsReady, v, requireAudio) ==
            Threw(AccessDenied(v.Subdirectories(Combine(paths.value.content, "Effects"))[0]))
  {
    var c := paths.value.content;
    var effects := Combine(c, Effects.Name());
    FullScanValidation(paths, fsReady, v, requireAudio);
    FirstSubdirectoryDenied(v, effects, XnbSuffix);
    ScanRequiredUnrolled(v, c);
    assert CheckRequired(v, c, Effects) == Aborted(AccessDenied(v.Subdirectories(effects)[0]));
  }

  /** The FMOD check only appends: requireAudio adds at most the FMOD problem and changes nothing else. */
  lemma AudioOnlyAppends(paths: Option<PathSet>, fsReady: bool, v: Volume)
    ensures var withAudio := Validation(paths, fsReady, v, true);
            var without := Validation(paths, fsReady, v, false);
            && (withAudio.Threw? <==> without.Threw?)
            && (withAudio.Threw? ==> withAudio == without)
            && (without.Returned? ==> forall p :: p in without.report.problems ==> p.Rank() != |RequiredDirs|)
            && (withAudio.Returned? && FullScan(paths, fsReady, v) ==>
                  withAudio.report.problems == without.report.problems + CheckAudio(v, paths.value.content, true))
            && (!FullScan(paths, fsReady, v) ==> withAudio == without)
  {
    if FullScan(paths, fsReady, v) {
      var c := paths.value.content;
      FullScanValidation(paths, fsReady, v, true);
      FullScanValidation(paths, fsReady, v, false);
      ScanAudioAppends(v, c);
    } else {
      RootDefectStops(paths, fsReady, v, false);
    }
  }

  /** ScanContent with and without the FMOD check. */
  lemma ScanAudioAppends(v: Volume, c: Path)
    ensures var withAudio := ScanContent(v, c, true);
            var without := ScanContent(v, c, false);
            && (withAudio.Threw? <==> without.Threw?)
            && (withAudio.Threw? ==> withAudio == without)
            && (without.Returned? ==> forall p :: p in without.report.problems ==> p.Rank() != |RequiredDirs|)
            && (withAudio.Returned? ==> withAudio.report.problems == without.report.problems + CheckAudio(v, c, true))
  {
    if ScanContent(v, c, false).Returned? {
      ScanContentProblems(v, c, false);
      CheckRequiredRanked(v, c, Dialog);
      CheckRequiredRanked(v, c, Effects);
      CheckRequiredRanked(v, c, Graphics);
      var ps := ScanContent(v, c, false).report.problems;
      assert ps + [] == ps;
    }
  }

  /** Everything the game needs is present under its exact name and not empty. */
  predicate Present(v: Volume, content: Path, requireAudio: bool) {
    && (forall d: Required :: v.DirectoryExists(Combine(content, d.Name())) && v.CanList(Combine(content, d.Name())))
    && v.HasFileBeneath(Combine(content, "Effects"), XnbSuffix)
    && v.HasFileBeneath(Combine(content, "Dialog"), AnySuffix)
    && v.HasEntries(Combine(content, "Graphics"))
    && (requireAudio ==> v.DirectoryExists(Combine(content, AudioDir)))
  }

  /** Present, and neither search below Dialog nor below Effects meets an unlistable directory before a match. */
  predicate Complete(v: Volume, content: Path, requireAudio: bool) {
    && Present(v, content, requireAudio)
    && !Blocked(v, Combine(content, "Dialog"), Dialog)
    && !Blocked(v, Combine(content, "Effects"), Effects)
  }

  /** A tree that is present and can be listed throughout below Dialog and Effects is complete. */
  lemma ListablePresentComplete(v: Volume, content: Path, requireAudio: bool)
    requires Present(v, content, requireAudio)
    requires v.ListableTree(Combine(content, "Dialog")) && v.ListableTree(Combine(content, "Effects"))
    ensures Complete(v, content, requireAudio)
  {
    BlockedBounds(v, content, Dialog);
    BlockedBounds(v, content, Effects);
  }

  /**
   * Validate says "OK" only for a sound root and a complete tree; on a grounded volume (every
   * entry inside an existing directory, as on a device) it says "OK" for every such tree.
   */
  lemma OkIffComplete(paths: Option<PathSet>, fsReady: bool, v: Volume, requireAudio: bool)
    ensures Validation(paths, fsReady, v, requireAudio) == Returned(Report(true, SummaryOk, [])) ==>
            FullScan(paths, fsReady, v) && Complete(v, paths.value.content, requireAudio)
    ensures v.Grounded() && FullScan(paths, fsReady, v) && Complete(v, paths.value.content, requireAudio) ==>
            Validation(paths, fsReady, v, requireAudio) == Returned(Report(true, SummaryOk, []))
  {
    if FullScan(paths, fsReady, v) {
      FullScanValidation(paths, fsReady, v, requireAudio);
      ScanOkIffComplete(v, paths.value.content, requireAudio);
    } else {
      RootDefectStops(paths, fsReady, v, requireAudio);
    }
  }

  /** The scan of the content directory finds nothing only for a complete tree, and for every one on a grounded volume. */
  lemma ScanOkIffComplete(v: Volume, c: Path, requireAudio: bool)
    ensures ScanContent(v, c, requireAudio) == Returned(Report(true, SummaryOk, [])) ==> Complete(v, c, requireAudio)
    ensures v.Grounded() && Complete(v, c, requireAudio) ==> ScanContent(v, c, requireAudio) == Returned(Report(true, SummaryOk, []))
  {
    if ScanContent(v, c, requireAudio) == Returned(Report(true, SummaryOk, [])) {
      CleanComplete(v, c, requireAudio);
    }
    if v.Grounded() && Complete(v, c, requireAudio) {
      CompleteClean(v, c, requireAudio);
    }
  }

  /** A scan without problems means the tree is complete. */
  lemma CleanComplete(v: Volume, c: Path, requireAudio: bool)
    requires ScanContent(v, c, requireAudio) == Returned(Report(true, SummaryOk, []))
    ensures Complete(v, c, requireAudio)
  {
    ScanContentProblems(v, c, requireAudio);
    var d, e, g := CheckRequired(v, c, Dialog), CheckRequired(v, c, Effects), CheckRequired(v, c, Graphics);
    assert d.problems + e.problems + g.problems + CheckAudio(v, c, requireAudio) == [];
    assert d == Scanned([]) && e == Scanned([]) && g == Scanned([]) && CheckAudio(v, c, requireAudio) == [];
    forall r: Required
      ensures v.DirectoryExists(Combine(c, r.Name())) && v.CanList(Combine(c, r.Name()))
    {
      match r
      case Dialog => RequiredClean(v, c, Dialog);
      case Effects => RequiredClean(v, c, Effects);
      case Graphics => RequiredClean(v, c, Graphics);
    }
    RequiredClean(v, c, Effects);
    RequiredClean(v, c, Dialog);
    RequiredClean(v, c, Graphics);
    AudioClean(v, c, requireAudio);
  }

  /** An empty FMOD check means FMOD exists whenever it is required. */
  lemma AudioClean(v: Volume, c: Path, requireAudio: bool)
    requires CheckAudio(v, c, requireAudio) == []
    ensures requireAudio ==> v.DirectoryExists(Combine(c, AudioDir))
  {
  }

  /** On a grounded volume a complete tree passes every check. */
  lemma CompleteClean(v: Volume, c: Path, requireAudio: bool)
    requires v.Grounded() && Complete(v, c, requireAudio)
    ensures ScanContent(v, c, requireAudio) == Returned(Report(true, SummaryOk, []))
  {
    ScanRequiredUnrolled(v, c);
    var dialog, effects, graphics := Combine(c, Dialog.Name()), Combine(c, Effects.Name()), Combine(c, Graphics.Name());
    assert v.DirectoryExists(dialog) && v.CanList(dialog);
    assert v.DirectoryExists(effects) && v.CanList(effects);
    assert v.DirectoryExists(graphics) && v.CanList(graphics);
    FindFileBeneathComplete(v, dialog, AnySuffix);
    FindFileBeneathComplete(v, effects, XnbSuffix);
    assert CheckRequired(v, c, Dialog) == CheckContents(v, dialog, Dialog) == Scanned([]);
    assert CheckRequired(v, c, Effects) == CheckContents(v, effects, Effects) == Scanned([]);
    assert CheckRequired(v, c, Graphics) == CheckContents(v, graphics, Graphics) == Scanned([]);
    assert CheckAudio(v, c, requireAudio) == [];
  }

  /**
   * A required directory without problems exists under its exact name, can be listed, holds its
   * minimum content, and its search was not blocked.
   */
  lemma RequiredClean(v: Volume, content: Path, dir: Required)
    requires CheckRequired(v, content, dir) == Scanned([])
    ensures v.DirectoryExists(Combine(content, dir.Name())) && v.CanList(Combine(content, dir.Name()))
    ensures !Blocked(v, Combine(content, dir.Name()), dir)
    ensures dir == Effects ==> v.HasFileBeneath(Combine(content, dir.Name()), XnbSuffix)
    ensures dir == Dialog ==> v.HasFileBeneath(Combine(content, dir.Name()), AnySuffix)
    ensures dir == Graphics ==> v.HasEntries(Combine(content, dir.Name()))
  {
    RequiredNotTop(content, dir);
    FindFileBeneathSound(v, Combine(content, dir.Name()), XnbSuffix);
    FindFileBeneathSound(v, Combine(content, dir.Name()), AnySuffix);
  }
}
