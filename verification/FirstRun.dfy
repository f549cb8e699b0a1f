/** First-run initialization: seven files published one by one and a manifest last, by attempts that may be killed
    between any two file-system changes. */
module FirstRun {
  import opened Contracts
  import Credentials = BootstrapCredentials

  /** The files of an installation, numbered in the order of publication: four files of key material, then configuration
      and secrets, the manifest last. */
  type Name = n: nat | n < ALL_FILES
  const SOPS_YAML: Name := 0
  const AGE_KEY: Name := 1
  const SSH_KEY: Name := 2
  const SSH_PUBLIC_KEY: Name := 3
  const CONFIG_LOCAL: Name := 4
  const CONFIG: Name := 5
  const SECRETS: Name := 6
  const MANIFEST: Name := 7
  const KEY_FILES: nat := 4
  const MANAGED_FILES: nat := 7
  const ALL_FILES: nat := 8

  const MANAGED: set<Name> := {SOPS_YAML, AGE_KEY, SSH_KEY, SSH_PUBLIC_KEY, CONFIG_LOCAL, CONFIG, SECRETS}
  const PARTIAL_STATE: set<Name> := {CONFIG, CONFIG_LOCAL, SECRETS}
  const MANIFEST_VERSION: int := 1

  datatype Manifest = Manifest(version: int, configRevision: Digest<Content>, digests: map<Name, Digest<Content>>)
  datatype Content = Data(bytes: string) | Json(manifest: Manifest)
  datatype Node = Regular(content: Content) | Unsafe

  type Dir = map<Name, Node>

  /** Whether the encrypted store decrypts and the configuration loads, given the managed files. */
  type Loads = Dir -> bool

  datatype Phase = Uninitialized | RecoveryRequired | Ready

  function ReadValidManifest(files: Dir): Option<Manifest> {
    if MANIFEST !in files || files[MANIFEST].Unsafe? then None
    else
      match files[MANIFEST].content
      case Data(_) => None
      case Json(m) =>
        if m.version != MANIFEST_VERSION then None
        else if m.digests.Keys != MANAGED then None
        else if m.configRevision != m.digests[CONFIG] then None
        else Some(m)
  }

  predicate Intact(files: Dir, m: Manifest, name: Name) {
    name in files && files[name].Regular? && name in m.digests && Sha256(files[name].content) == m.digests[name]
  }

  /** `bootstrap_phase`. */
  function PhaseOf(dirsSafe: bool, files: Dir, loads: Loads): Phase {
    if !dirsSafe then RecoveryRequired
    else
      var manifest := ReadValidManifest(files);
      if manifest.None? then
        if MANIFEST in files || (exists name :: name in PARTIAL_STATE && name in files) then RecoveryRequired
        else Uninitialized
      else if exists name: Name :: name < MANAGED_FILES && !Intact(files, manifest.value, name) then RecoveryRequired
      else if !loads(files) then RecoveryRequired
      else Ready
  }

  // ---- one attempt --------------------------------------------------------------------------------------------

  /** The staged contents of the seven managed files. */
  type Stage = contents: seq<Content> | |contents| == MANAGED_FILES witness seq(MANAGED_FILES, _ => Data(""))

  function ManifestOf(stage: Stage): Manifest {
    Manifest(MANIFEST_VERSION, Sha256(stage[CONFIG]), map name: Name | name < MANAGED_FILES :: Sha256(stage[name]))
  }

  function At(stage: Stage, name: Name): Content {
    if name == MANIFEST then Json(ManifestOf(stage)) else stage[name]
  }

  /** An operating-system error while the at-th file is published: before its link exists, or after, when the staged
      copy is unlinked and the directory synced. */
  datatype Fault = BeforeLink(at: nat) | AfterLink(at: nat)

  /** One call: whether the session grant is valid at the start and accepted at the end, the staged state or a staging
      failure, an error during publication, and how many file-system changes it makes before it is killed, if it makes
      that many. */
  datatype Attempt = Attempt(grantValid: bool, stage: Option<Stage>, fault: Option<Fault>, consumes: bool, budget: nat)

  datatype Outcome =
    | GrantRefused | NotAvailable | UnsafeMaterial | Killed | FailedBeforeCommit | Interrupted | CommittedInvalid
    | Initialized(revision: Digest<Content>)

  datatype Status = Complete | OutOfBudget | Obstructed | Broken

  datatype Progress = Progress(files: Dir, budget: nat, status: Status)

  function CleanOne(files: Dir, name: Name, budget: nat): Progress {
    if name !in files then Progress(files, budget, Complete)
    else if files[name].Unsafe? then Progress(files, budget, Obstructed)
    else if budget == 0 then Progress(files, 0, OutOfBudget)
    else Progress(files - {name}, budget - 1, Complete)
  }

  /** `_remove_orphaned_bootstrap_material` from the i-th reserved file on. */
  function Clean(files: Dir, i: nat, budget: nat): Progress
    requires i <= KEY_FILES
    decreases KEY_FILES - i, budget
  {
    if i == KEY_FILES then Progress(files, budget, Complete)
    else
      var one := CleanOne(files, i, budget);
      if one.status.Complete? then Clean(one.files, i + 1, one.budget) else one
  }

  /** Exclusive installation of the i-th published file and those after it: how many of the eight are linked in the end,
      and how it ends. */
  function Install(present: set<Name>, i: nat, fault: Option<Fault>, budget: nat): (nat, Status)
    requires i <= ALL_FILES
    decreases ALL_FILES - i, budget
  {
    if i == ALL_FILES then (i, Complete)
    else if fault == Some(BeforeLink(i)) then (i, Broken)
    else if budget == 0 then (i, OutOfBudget)
    else if i in present then (i, Obstructed)
    else if fault == Some(AfterLink(i)) then (i + 1, Broken)
    else Install(present, i + 1, fault, budget - 1)
  }

  /** The root with the first `k` staged files linked into it. */
  function WithFiles(files: Dir, stage: Stage, k: nat): Dir {
    files + Prefix(stage, k)
  }

  function Prefix(stage: Stage, k: nat): Dir {
    map name: Name | name < k :: Regular(At(stage, name))
  }

  datatype Result = Result(files: Dir, outcome: Outcome)

  /** `initialize_bootstrap`. */
  function Try(dirsSafe: bool, files: Dir, loads: Loads, a: Attempt): Result {
    if !a.grantValid then Result(files, GrantRefused)
    else if PhaseOf(dirsSafe, files, loads) != Uninitialized then Result(files, NotAvailable)
    else
      var cleaned := Clean(files, 0, a.budget);
      match cleaned.status
      case OutOfBudget => Result(cleaned.files, Killed)
      case Obstructed => Result(cleaned.files, UnsafeMaterial)
      case _ =>
        if a.stage.None? then Result(cleaned.files, FailedBeforeCommit)
        else Publication(dirsSafe, cleaned.files, loads, a.stage.value, a.fault, a.consumes, cleaned.budget)
  }

  /** The eight installations, the phase check and the consumption of the grant. */
  function Publication(dirsSafe: bool, files: Dir, loads: Loads, stage: Stage, fault: Option<Fault>, consumes: bool,
                       budget: nat): Result
  {
    var (k, status) := Install(files.Keys, 0, fault, budget);
    var done := WithFiles(files, stage, k);
    Result(done, Ending(status, PhaseOf(dirsSafe, done, loads), stage, consumes))
  }

  /** What is reported after the publication ended, from the phase it left. */
  function Ending(status: Status, phase: Phase, stage: Stage, consumes: bool): Outcome {
    match status
    case OutOfBudget => Killed
    case Complete =>
      if phase != Ready then CommittedInvalid
      else if !consumes then FailedBeforeCommit
      else Initialized(Sha256(stage[CONFIG]))
    case _ => if phase == RecoveryRequired then Interrupted else FailedBeforeCommit
  }

  /** The installation root, changed in place. */
  class BootstrapRoot {
    var files: Dir
    const dirsSafe: bool
    const loads: Loads

    constructor (dirsSafe: bool, loads: Loads)
      ensures files == map[] && this.dirsSafe == dirsSafe && this.loads == loads
    {
      this.files, this.dirsSafe, this.loads := map[], dirsSafe, loads;
    }

    method RemoveOrphanedMaterial(budget: nat) returns (left: nat, status: Status)
      modifies this
      ensures Progress(files, left, status) == Clean(old(files), 0, budget)
    {
      left, status := budget, Complete;
      ghost var all := Clean(files, 0, budget);
      var i := 0;
      while i < KEY_FILES
        invariant 0 <= i <= KEY_FILES && status == Complete
        invariant Clean(files, i, left) == all
      {
        left, status := RemoveOne(i, left);
        if !status.Complete? { return; }
        i := i + 1;
      }
    }

    method RemoveOne(name: Name, budget: nat) returns (left: nat, status: Status)
      modifies this
      ensures Progress(files, left, status) == CleanOne(old(files), name, budget)
    {
      if name !in files { return budget, Complete; }
      if files[name].Unsafe? { return budget, Obstructed; }
      if budget == 0 { return 0, OutOfBudget; }
      files := files - {name};
      return budget - 1, Complete;
    }

    method Publish(stage: Stage, fault: Option<Fault>, budget: nat) returns (status: Status)
      modifies this
      ensures var (k, end) := Install(old(files).Keys, 0, fault, budget);
              files == WithFiles(old(files), stage, k) && status == end
    {
      var i, left := 0, budget;
      ghost var before := files;
      ghost var (k, end) := Install(files.Keys, i, fault, budget);
      NoneYet(files, stage);
      status := Complete;
      while i < ALL_FILES && status.Complete?
        invariant 0 <= i <= ALL_FILES
        invariant if status.Complete? then
                    files == WithFiles(before, stage, i) && Install(before.Keys, i, fault, left) == (k, end)
                  else files == WithFiles(before, stage, k) && status == end
        decreases ALL_FILES - i
      {
        left, status := InstallExclusive(stage, i, fault, left, before);
        i := i + 1;
      }
    }

    /** `_install_file_exclusive`. */
    method InstallExclusive(stage: Stage, i: nat, fault: Option<Fault>, budget: nat, ghost before: Dir)
      returns (left: nat, status: Status)
      requires i < ALL_FILES && files == WithFiles(before, stage, i)
      modifies this
      ensures status.Complete? ==>
                (files == WithFiles(before, stage, i + 1) && budget > 0
                 && Install(before.Keys, i + 1, fault, left) == Install(before.Keys, i, fault, budget))
      ensures !status.Complete? ==>
                (var (k, end) := Install(before.Keys, i, fault, budget);
                 files == WithFiles(before, stage, k) && status == end)
    {
      OneMoreFile(before, stage, i);
      if fault == Some(BeforeLink(i)) { return budget, Broken; }
      if budget == 0 { return 0, OutOfBudget; }
      if i in files { return budget, Obstructed; }
      files := files[i := Regular(At(stage, i))];
      return budget - 1, if fault == Some(AfterLink(i)) then Broken else Complete;
    }

    method Initialize(a: Attempt) returns (outcome: Outcome)
      modifies this
      ensures Result(files, outcome) == Try(dirsSafe, old(files), loads, a)
    {
      if !a.grantValid { return GrantRefused; }
      if PhaseOf(dirsSafe, files, loads) != Uninitialized { return NotAvailable; }
      var left, status := RemoveOrphanedMaterial(a.budget);
      if status.OutOfBudget? { return Killed; }
      if status.Obstructed? { return UnsafeMaterial; }
      if a.stage.None? { return FailedBeforeCommit; }
      status := Publish(a.stage.value, a.fault, left);
      if status.OutOfBudget? { return Killed; }
      var phase := PhaseOf(dirsSafe, files, loads);
      if status.Obstructed? || status.Broken? {
        return if phase == RecoveryRequired then Interrupted else FailedBeforeCommit;
      }
      if phase != Ready { return CommittedInvalid; }
      if !a.consumes { return FailedBeforeCommit; }
      outcome := Initialized(Sha256(a.stage.value[CONFIG]));
    }
  }

  // ---- crash points -------------------------------------------------------------------------------------------

  lemma NoneYet(files: Dir, stage: Stage)
    ensures WithFiles(files, stage, 0) == files
  {
  }

  lemma OneMoreFile(files: Dir, stage: Stage, i: nat)
    requires i < ALL_FILES
    ensures WithFiles(files, stage, i + 1) == WithFiles(files, stage, i)[i := Regular(At(stage, i))]
    ensures i in WithFiles(files, stage, i) <==> i in files
  {
  }

  /** Every crash point is classified: key material alone counts as nothing done, any configuration or secret without
      the manifest needs recovery, and only the manifest makes the installation ready, if it loads. */
  lemma CrashPointPhase(stage: Stage, k: nat, loads: Loads)
    requires k <= ALL_FILES
    ensures PhaseOf(true, Prefix(stage, k), loads) ==
              if k <= KEY_FILES then Uninitialized
              else if k < ALL_FILES || !loads(Prefix(stage, k)) then RecoveryRequired
              else Ready
  {
    var files := Prefix(stage, k);
    if k > KEY_FILES {
      assert CONFIG_LOCAL in files;
      if k == ALL_FILES { CommittedIntact(stage); }
    }
  }

  lemma CommittedIntact(stage: Stage)
    ensures var files := Prefix(stage, ALL_FILES);
            && ReadValidManifest(files) == Some(ManifestOf(stage))
            && forall name: Name :: name < MANAGED_FILES ==> Intact(files, ManifestOf(stage), name)
  {
    assert ManifestOf(stage).digests.Keys == MANAGED;
  }

  /** What attempts on an empty root can leave behind: some key material, or one attempt's first five to eight files. */
  ghost predicate Reachable(files: Dir) {
    || OnlyMaterial(files)
    || (exists stage: Stage, k: nat :: 5 <= k <= 8 && files == Prefix(stage, k))
  }

  ghost predicate OnlyMaterial(files: Dir) {
    forall name :: name in files ==> name < KEY_FILES && files[name].Regular?
  }

  /** Cleaning key material costs one change a file and, if it is not killed, leaves nothing. */
  lemma {:induction false} CleanMaterial(files: Dir, i: nat, budget: nat)
    requires i <= KEY_FILES && OnlyMaterial(files)
    requires forall name :: name in files ==> name >= i
    ensures var p := Clean(files, i, budget);
            && OnlyMaterial(p.files)
            && p.status == (if budget >= |files| then Complete else OutOfBudget)
            && (p.status.Complete? ==> p.files == map[] && p.budget == budget - |files|)
    decreases KEY_FILES - i
  {
    if i < KEY_FILES {
      CleanStep(files, i, budget);
      CleanNext(files, i, budget);
      var one := CleanOne(files, i, budget);
      if one.status.Complete? { CleanMaterial(one.files, i + 1, one.budget); }
    } else {
      assert files == map[];
    }
  }

  lemma CleanStep(files: Dir, i: nat, budget: nat)
    requires i < KEY_FILES
    ensures var one := CleanOne(files, i, budget);
            Clean(files, i, budget) == if one.status.Complete? then Clean(one.files, i + 1, one.budget) else one
  {
  }

  lemma CleanNext(files: Dir, i: nat, budget: nat)
    requires i < KEY_FILES && OnlyMaterial(files) && forall name :: name in files ==> name >= i
    ensures var one := CleanOne(files, i, budget);
            && OnlyMaterial(one.files)
            && one.status == (if i in files && budget == 0 then OutOfBudget else Complete)
            && (one.status.Complete? ==> (forall name :: name in one.files ==> name >= i + 1)
                                         && one.budget + |files| == budget + |one.files|)
            && (one.status.OutOfBudget? ==> |files| > budget)
  {
    if i in files { OneLess(files, i); }
  }

  lemma OneLess(files: Dir, name: Name)
    requires name in files
    ensures |files - {name}| == |files| - 1
  {
    assert (files - {name}).Keys == files.Keys - {name};
  }

  predicate Breaks(fault: Option<Fault>) {
    fault.Some? && fault.value.at < ALL_FILES
  }

  /** The same from an empty root, in closed form. */
  function Links(fault: Option<Fault>, budget: nat): (nat, Status) {
    var breaks := if fault.None? then 0 else if fault.value.BeforeLink? then fault.value.at else fault.value.at + 1;
    if Breaks(fault) && breaks <= budget then (breaks, Broken)
    else if budget < ALL_FILES then (budget, OutOfBudget)
    else (ALL_FILES, Complete)
  }

  lemma {:induction false} NothingInTheWay(present: set<Name>, i: nat, fault: Option<Fault>, budget: nat)
    requires present == {} && i <= ALL_FILES && (fault.Some? ==> fault.value.at >= i)
    ensures Install(present, i, fault, budget) == Links(fault, i + budget)
    decreases ALL_FILES - i
  {
    if i < ALL_FILES && budget > 0 && fault != Some(BeforeLink(i)) && fault != Some(AfterLink(i)) {
      NothingInTheWay(present, i + 1, fault, budget - 1);
    }
  }

  lemma MaterialIsUninitialized(files: Dir, loads: Loads)
    requires OnlyMaterial(files)
    ensures PhaseOf(true, files, loads) == Uninitialized
  {
  }

  /** How an attempt ends that starts from key material alone and is not killed while cleaning up: what it leaves, and
      every way of ending. */
  lemma PublishedAttempt(files: Dir, loads: Loads, a: Attempt)
    requires OnlyMaterial(files) && a.grantValid && a.stage.Some? && a.budget >= |files|
    ensures var r := Try(true, files, loads, a);
            var (k, status) := Links(a.fault, a.budget - |files|);
            var whole := Prefix(a.stage.value, ALL_FILES);
            && k <= ALL_FILES && r.files == Prefix(a.stage.value, k) && Reachable(r.files)
            && r.outcome == match status
                            case OutOfBudget => Killed
                            case Complete =>
                              if !loads(whole) then CommittedInvalid
                              else if !a.consumes then FailedBeforeCommit
                              else Initialized(Sha256(a.stage.value[CONFIG]))
                            case _ => if k <= 4 || (k == 8 && loads(whole)) then FailedBeforeCommit else Interrupted
  {
    var (k, status) := Links(a.fault, a.budget - |files|);
    PublishedResult(files, loads, a);
    CrashPointPhase(a.stage.value, k, loads);
    assert k <= KEY_FILES ==> OnlyMaterial(Prefix(a.stage.value, k));
  }

  lemma FilesAlone(stage: Stage, k: nat)
    ensures WithFiles(map[], stage, k) == Prefix(stage, k)
  {
  }

  /** What a publication from an empty root comes to. */
  function Expected(loads: Loads, stage: Stage, fault: Option<Fault>, consumes: bool, budget: nat): Result {
    var (k, status) := Links(fault, budget);
    var done := Prefix(stage, k);
    Result(done, Ending(status, PhaseOf(true, done, loads), stage, consumes))
  }

  lemma PublishedResult(files: Dir, loads: Loads, a: Attempt)
    requires OnlyMaterial(files) && a.grantValid && a.stage.Some? && a.budget >= |files|
    ensures Try(true, files, loads, a) == Expected(loads, a.stage.value, a.fault, a.consumes, a.budget - |files|)
  {
    TryPublishes(files, loads, a);
    PublishedFromNothing(map[], loads, a.stage.value, a.fault, a.consumes, a.budget - |files|);
  }

  lemma PublishedFromNothing(files: Dir, loads: Loads, stage: Stage, fault: Option<Fault>, consumes: bool, budget: nat)
    requires files == map[]
    ensures Publication(true, files, loads, stage, fault, consumes, budget)
         == Expected(loads, stage, fault, consumes, budget)
  {
    NothingInTheWay(files.Keys, 0, fault, budget);
    FilesAlone(stage, Links(fault, budget).0);
  }

  lemma TryPublishes(files: Dir, loads: Loads, a: Attempt)
    requires OnlyMaterial(files) && a.grantValid && a.stage.Some? && a.budget >= |files|
    ensures Try(true, files, loads, a)
         == Publication(true, map[], loads, a.stage.value, a.fault, a.consumes, a.budget - |files|)
  {
    MaterialIsUninitialized(files, loads);
    CleanMaterial(files, 0, a.budget);
  }

  /** One more attempt, failing or killed anywhere, stays within the crash states; a retry from key material alone is
      never obstructed by a leftover, and anything beyond key material is left alone. */
  lemma AttemptStaysReachable(files: Dir, loads: Loads, a: Attempt)
    requires Reachable(files)
    ensures var r := Try(true, files, loads, a);
            && Reachable(r.files)
            && r.outcome != UnsafeMaterial
            && (!OnlyMaterial(files) ==> r.files == files && r.outcome in {GrantRefused, NotAvailable})
            && (OnlyMaterial(files) && a.grantValid && a.stage.Some? && !Breaks(a.fault) && a.budget >= |files| + 8 ==>
                  r.files == Prefix(a.stage.value, 8))
  {
    if OnlyMaterial(files) {
      MaterialIsUninitialized(files, loads);
      CleanMaterial(files, 0, a.budget);
      if a.grantValid && a.stage.Some? && a.budget >= |files| {
        PublishedAttempt(files, loads, a);
      }
    } else {
      var stage: Stage, k: nat :| 5 <= k <= 8 && files == Prefix(stage, k);
      CrashPointPhase(stage, k, loads);
    }
  }

  function Attempts(dirsSafe: bool, files: Dir, loads: Loads, tries: seq<Attempt>): Dir {
    if |tries| == 0 then files
    else Try(dirsSafe, Attempts(dirsSafe, files, loads, tries[..|tries| - 1]), loads, tries[|tries| - 1]).files
  }

  /** Over any sequence of attempts on an empty root, each killed anywhere, the phase tells exactly how far the
      installation got. */
  lemma {:induction false} CrashSafe(loads: Loads, tries: seq<Attempt>)
    ensures var files := Attempts(true, map[], loads, tries);
            && Reachable(files)
            && (PhaseOf(true, files, loads) == Uninitialized <==> OnlyMaterial(files))
            && (PhaseOf(true, files, loads) == Ready <==> MANIFEST in files && loads(files))
  {
    if |tries| > 0 {
      CrashSafe(loads, tries[..|tries| - 1]);
      AttemptStaysReachable(Attempts(true, map[], loads, tries[..|tries| - 1]), loads, tries[|tries| - 1]);
    }
    var files := Attempts(true, map[], loads, tries);
    ReachablePhase(files, loads);
  }

  lemma ReachablePhase(files: Dir, loads: Loads)
    requires Reachable(files)
    ensures PhaseOf(true, files, loads) == Uninitialized <==> OnlyMaterial(files)
    ensures PhaseOf(true, files, loads) == Ready <==> MANIFEST in files && loads(files)
  {
    if OnlyMaterial(files) {
      MaterialIsUninitialized(files, loads);
    } else {
      var stage: Stage, k: nat :| 5 <= k <= 8 && files == Prefix(stage, k);
      CrashPointPhase(stage, k, loads);
    }
  }

  // ---- nothing committed is ever overwritten ----------------------------------------------------------------------

  predicate Committed(files: Dir) {
    MANIFEST in files || CONFIG in files || CONFIG_LOCAL in files || SECRETS in files
  }

  /** From any root whatever, once a configuration, secret store or manifest exists, in whatever condition, no sequence
      of attempts changes any file. */
  lemma {:induction false} NeverOverwritten(dirsSafe: bool, files: Dir, loads: Loads, tries: seq<Attempt>)
    requires Committed(files)
    ensures Attempts(dirsSafe, files, loads, tries) == files
  {
    if |tries| > 0 {
      NeverOverwritten(dirsSafe, files, loads, tries[..|tries| - 1]);
    }
  }

  /** The attempt will report a failure before the commit although it commits. */
  predicate FalseReport(files: Dir, loads: Loads, a: Attempt) {
    && (forall name :: name in files ==> name < KEY_FILES && files[name].Regular?)
    && a.grantValid && a.stage.Some? && a.budget >= |files| + ALL_FILES && loads(Prefix(a.stage.value, ALL_FILES))
    && (a.fault == Some(AfterLink(7)) || (!Breaks(a.fault) && !a.consumes))
  }

  /** "Failed before state was committed" is reported although something was committed, exactly when everything is
      published and then either the manifest's link is made but not finished, or the grant is refused at the end. */
  lemma FailureReport(files: Dir, loads: Loads, a: Attempt)
    requires Reachable(files)
    ensures var r := Try(true, files, loads, a);
            (r.outcome == FailedBeforeCommit && PhaseOf(true, r.files, loads) != Uninitialized)
            <==> FalseReport(files, loads, a)
    ensures FalseReport(files, loads, a) ==> PhaseOf(true, Try(true, files, loads, a).files, loads) == Ready
  {
    if !OnlyMaterial(files) {
      AttemptStaysReachable(files, loads, a);
    } else if a.grantValid && a.stage.Some? && a.budget >= |files| {
      PublishedReport(files, loads, a);
    } else {
      NothingPublished(files, loads, a);
    }
  }

  lemma PublishedReport(files: Dir, loads: Loads, a: Attempt)
    requires OnlyMaterial(files) && a.grantValid && a.stage.Some? && a.budget >= |files|
    ensures var r := Try(true, files, loads, a);
            (r.outcome == FailedBeforeCommit && PhaseOf(true, r.files, loads) != Uninitialized)
            <==> FalseReport(files, loads, a)
    ensures FalseReport(files, loads, a) ==> PhaseOf(true, Try(true, files, loads, a).files, loads) == Ready
  {
    var (k, status) := Links(a.fault, a.budget - |files|);
    PublishedResult(files, loads, a);
    CrashPointPhase(a.stage.value, k, loads);
    AllLinked(a.fault, a.budget - |files|);
  }

  lemma AllLinked(fault: Option<Fault>, budget: nat)
    ensures var (k, status) := Links(fault, budget);
            && k <= ALL_FILES && (status.OutOfBudget? ==> k < ALL_FILES) && (status.Complete? ==> !Breaks(fault))
            && !status.Obstructed?
            && (k == ALL_FILES <==> budget >= ALL_FILES && (fault == Some(AfterLink(7)) || !Breaks(fault)))
  {
  }

  lemma NothingPublished(files: Dir, loads: Loads, a: Attempt)
    requires OnlyMaterial(files) && !(a.grantValid && a.stage.Some? && a.budget >= |files|)
    ensures PhaseOf(true, Try(true, files, loads, a).files, loads) == Uninitialized
  {
    MaterialIsUninitialized(files, loads);
    CleanMaterial(files, 0, a.budget);
    MaterialIsUninitialized(Clean(files, 0, a.budget).files, loads);
  }

  /** One such attempt: the directory cannot be synced after the manifest is linked. */
  lemma FalseReportExists(stage: Stage)
    ensures var a := Attempt(true, Some(stage), Some(AfterLink(7)), true, 8);
            var r := Try(true, map[], _ => true, a);
            r.outcome == FailedBeforeCommit && PhaseOf(true, r.files, _ => true) == Ready
  {
    var a := Attempt(true, Some(stage), Some(AfterLink(7)), true, 8);
    FailureReport(map[], _ => true, a);
  }

  /** An attempt whose grant is validated at the start and consumed at the end, others using the credentials between. */
  function WithGrant(v: Credentials.Vault, start: int, token: Credentials.Token, between: seq<Credentials.Step>,
                     end: int, principal: string, stage: Option<Stage>, fault: Option<Fault>, budget: nat): Attempt
  {
    var (validated, reply) := Credentials.Do(v, start, Credentials.Validate(token));
    var last := Credentials.Do(Credentials.Run(validated, between), end, Credentials.Consume(token, principal));
    Attempt(reply.Granted?, stage, fault, last.1.Accepted?, budget)
  }

  /** Why the last call refuses a grant that was valid at the start of an attempt that published everything: the
      principal is malformed, the session has expired by then, or somebody spoiled it in between. */
  lemma {:induction false} FalseReportCauses(files: Dir, loads: Loads, v: Credentials.Vault, start: int,
                                             token: Credentials.Token, between: seq<Credentials.Step>, end: int,
                                             principal: string, stage: Stage, budget: nat)
    requires OnlyMaterial(files) && budget >= |files| + ALL_FILES && loads(Prefix(stage, ALL_FILES))
    requires Credentials.Do(v, start, Credentials.Validate(token)).1.Granted?
    ensures FalseReport(files, loads, WithGrant(v, start, token, between, end, principal, Some(stage), None, budget))
            <==> Credentials.Lost(v, token.id, between, end, principal)
  {
    Credentials.GrantLost(v, start, token, between, end, principal);
  }
}
