/** The phases of an installation and the file changes of one attempt, told from the directory itself, whatever it
    holds. */
module InstallationPhases {
  import opened Contracts
  import opened FirstRun

  // ---- phases --------------------------------------------------------------------------------------------------

  /** The manifest is a readable file of version 1 that lists the seven managed files and names the configuration's
      digest as its revision. */
  predicate ManifestHolds(files: Dir) {
    && MANIFEST in files && files[MANIFEST].Regular? && files[MANIFEST].content.Json?
    && var m := files[MANIFEST].content.manifest;
    && m.version == 1
    && (forall name: Name :: name in m.digests <==> name < 7)
    && m.configRevision == m.digests[CONFIG]
  }

  /** The managed file is there and is the one the manifest lists. */
  predicate FileHolds(files: Dir, name: Name)
    requires ManifestHolds(files) && name < 7
  {
    name in files && files[name].Regular?
    && files[MANIFEST].content.manifest.digests[name] == Sha256(files[name].content)
  }

  /** Ready means: safe directories, a valid manifest, every managed file as listed, and a store that loads.
      Uninitialized means: safe directories, and neither a manifest nor any configuration or secret. Everything else
      needs recovery. */
  lemma PhaseExact(dirsSafe: bool, files: Dir, loads: Loads)
    ensures PhaseOf(dirsSafe, files, loads) == Ready <==>
              && dirsSafe && ManifestHolds(files) && (forall name: Name :: name < 7 ==> FileHolds(files, name))
              && loads(files)
    ensures PhaseOf(dirsSafe, files, loads) == Uninitialized <==>
              dirsSafe && MANIFEST !in files && CONFIG_LOCAL !in files && CONFIG !in files && SECRETS !in files
  {
    ManifestExact(files);
    if ManifestHolds(files) {
      var m := files[MANIFEST].content.manifest;
      assert forall name: Name :: name < 7 ==> (Intact(files, m, name) <==> FileHolds(files, name));
    }
  }

  lemma ManifestExact(files: Dir)
    ensures ReadValidManifest(files) == if ManifestHolds(files) then Some(files[MANIFEST].content.manifest) else None
  {
    if MANIFEST in files && files[MANIFEST].Regular? && files[MANIFEST].content.Json? {
      var m := files[MANIFEST].content.manifest;
      assert m.digests.Keys == MANAGED <==> forall name: Name :: name in m.digests <==> name < 7;
    }
  }

  /** The file is not in both directories, or not the same. */
  predicate Differs(files: Dir, damaged: Dir, name: Name) {
    !(name in files && name in damaged && damaged[name] == files[name])
  }

  /** Once ready, any damage is seen: if some managed file is gone or not what it was while the manifest is, or the
      manifest is gone or no longer valid while some configuration or secret remains, recovery is required. */
  lemma DamageIsSeen(files: Dir, damaged: Dir, loads: Loads)
    requires PhaseOf(true, files, loads) == Ready
    requires || (MANIFEST in damaged && damaged[MANIFEST] == files[MANIFEST]
                 && exists name: Name :: name < 7 && Differs(files, damaged, name))
             || (!ManifestHolds(damaged)
                 && (MANIFEST in damaged || CONFIG in damaged || CONFIG_LOCAL in damaged || SECRETS in damaged))
    ensures PhaseOf(true, damaged, loads) == RecoveryRequired
  {
    PhaseExact(true, files, loads);
    PhaseExact(true, damaged, loads);
    if MANIFEST in damaged && damaged[MANIFEST] == files[MANIFEST] {
      if name: Name :| name < 7 && Differs(files, damaged, name) {
        assert ManifestHolds(damaged) && FileHolds(files, name) && !FileHolds(damaged, name);
      }
    }
  }

  // ---- the changes of one attempt ------------------------------------------------------------------------------

  /** From `files` the cleanup of the key files from `i` on came to `p`: it removed plain key material and nothing else,
      one change a file. */
  ghost predicate Removed(files: Dir, i: nat, budget: nat, p: Progress) {
    && (forall name :: name in p.files ==> name in files && p.files[name] == files[name])
    && (forall name :: name in files && name !in p.files ==> i <= name < 4 && files[name].Regular?)
    && |p.files| + budget == |files| + p.budget
  }

  /** It is complete only if no key material is left; it is stopped only by an unsafe file, with all before it gone, or
      by the end of the budget, with key material left. */
  ghost predicate StoppedRightly(i: nat, p: Progress) {
    match p.status
    case Complete => forall name: Name :: i <= name < 4 ==> name !in p.files
    case Obstructed =>
      exists name: Name :: i <= name < 4 && name in p.files && p.files[name].Unsafe?
                           && forall before: Name :: i <= before < name ==> before !in p.files
    case OutOfBudget =>
      p.budget == 0 && exists name: Name :: i <= name < 4 && name in p.files && p.files[name].Regular?
    case Broken => false
  }

  lemma {:induction false} CleanExact(files: Dir, i: nat, budget: nat)
    requires i <= 4
    ensures Removed(files, i, budget, Clean(files, i, budget)) && StoppedRightly(i, Clean(files, i, budget))
    decreases 4 - i
  {
    if i < 4 {
      CleanStep(files, i, budget);
      CleanOneExact(files, i, budget);
      var one := CleanOne(files, i, budget);
      if one.status.Complete? {
        CleanExact(one.files, i + 1, one.budget);
        CleanOnward(files, i, budget, one, Clean(one.files, i + 1, one.budget));
      } else {
        StoppedHere(files, i, one);
      }
    }
  }

  lemma CleanOnward(files: Dir, i: nat, budget: nat, one: Progress, p: Progress)
    requires i < 4 && one.files == files - {i} && |one.files| + budget == |files| + one.budget
    requires i in files ==> files[i].Regular?
    requires Removed(one.files, i + 1, one.budget, p) && StoppedRightly(i + 1, p)
    ensures Removed(files, i, budget, p) && StoppedRightly(i, p)
  {
    if p.status.Obstructed? {
      var name: Name :| i + 1 <= name < 4 && name in p.files && p.files[name].Unsafe?
                        && forall before: Name :: i + 1 <= before < name ==> before !in p.files;
      assert i !in p.files;
    }
  }

  lemma StoppedHere(files: Dir, i: nat, one: Progress)
    requires i < 4 && i in files && one.files == files
    requires if files[i].Unsafe? then one.status.Obstructed? else one.status.OutOfBudget? && one.budget == 0
    ensures StoppedRightly(i, one)
  {
  }

  lemma CleanOneExact(files: Dir, name: Name, budget: nat)
    ensures var p := CleanOne(files, name, budget);
            && (p.status.Complete? <==> name !in files || (files[name].Regular? && budget > 0))
            && (p.status.Obstructed? <==> name in files && files[name].Unsafe?)
            && !p.status.Broken?
            && p.files == (if p.status.Complete? then files - {name} else files)
            && |p.files| + budget == |files| + p.budget
            && (p.status.OutOfBudget? ==> p.budget == 0)
  {
    if name in files { OneLess(files, name); } else { assert files - {name} == files; }
  }

  /** Publication never replaces a file: it stops before the first name that is already taken. It links a file only
      within the budget, and all eight exactly when nothing is in the way and nothing raises before the last link. */
  lemma {:induction false} InstallExact(present: set<Name>, i: nat, fault: Option<Fault>, budget: nat)
    requires i <= 8
    ensures var (k, status) := Install(present, i, fault, budget);
            && i <= k <= 8 && k - i <= budget
            && (forall name: Name :: i <= name < k ==> name !in present)
            && (status.Complete? ==> k == 8)
            && (status.Obstructed? ==> k < 8 && k in present)
            && (status.OutOfBudget? ==> k - i == budget && k < 8)
            && (status.Broken? <==>
                  || (k < 8 && fault == Some(BeforeLink(k)))
                  || (k > i && fault == Some(AfterLink(k - 1))))
    decreases 8 - i
  {
    if i < 8 && budget > 0 && i !in present && fault != Some(BeforeLink(i)) && fault != Some(AfterLink(i)) {
      InstallExact(present, i + 1, fault, budget - 1);
    }
  }

  /** How an attempt on any directory ends before it publishes anything: the grant is checked first, then the phase,
      then the leftovers are removed, then the new state is staged. Publication keeps what the cleanup left. */
  lemma AttemptBeforePublication(dirsSafe: bool, files: Dir, loads: Loads, a: Attempt)
    ensures var r, cleaned := Try(dirsSafe, files, loads, a), Clean(files, 0, a.budget);
            if !a.grantValid then r == Result(files, GrantRefused)
            else if PhaseOf(dirsSafe, files, loads) != Uninitialized then r == Result(files, NotAvailable)
            else if !cleaned.status.Complete? then
              r.files == cleaned.files
              && r.outcome == if cleaned.status.Obstructed? then UnsafeMaterial else Killed
            else
              && r.outcome !in {GrantRefused, NotAvailable, UnsafeMaterial}
              && (a.stage.None? ==> r == Result(cleaned.files, FailedBeforeCommit))
              && (forall name :: name in cleaned.files ==> name in r.files && r.files[name] == cleaned.files[name])
  {
    var cleaned := Clean(files, 0, a.budget);
    CleanEnds(files, a.budget);
    if cleaned.status.Complete? && a.stage.Some? {
      PublicationKeeps(dirsSafe, cleaned.files, loads, a.stage.value, a.fault, a.consumes, cleaned.budget);
    }
  }

  lemma CleanEnds(files: Dir, budget: nat)
    ensures !Clean(files, 0, budget).status.Broken?
  {
    CleanExact(files, 0, budget);
  }

  lemma PublicationKeeps(dirsSafe: bool, files: Dir, loads: Loads, stage: Stage, fault: Option<Fault>, consumes: bool,
                         budget: nat)
    ensures var r := Publication(dirsSafe, files, loads, stage, fault, consumes, budget);
            && r.outcome !in {GrantRefused, NotAvailable, UnsafeMaterial}
            && forall name :: name in files ==> name in r.files && r.files[name] == files[name]
  {
    InstallExact(files.Keys, 0, fault, budget);
  }
}
