/**
 * The install transaction of the device tool: backup, apply, commit, automatic and manual
 * rollback.  Any file operation or command may fail at any point, and the Codex command line,
 * whenever it is asked to change something, may leave the registry and the plugin cache in any
 * state at all.  A digest stands for what it was taken of.
 */
module Device {
  import opened Basics

  datatype Label = Agent(name: string) | DeviceConfig | SourceControl

  type Content = string
  type Version = string
  type Tid = nat

  /** A directory tree; digests over significant files leave generated ones out. */
  datatype Tree = Tree(files: map<string, Content>, generated: map<string, Content>)

  /** The plugin cache: one tree a version. */
  type Cache = map<Version, Tree>

  datatype Plugin = Plugin(version: Version, source: string)

  datatype Registry = Registry(marketplace: Option<string>, plugin: Option<Plugin>)

  /** What the private record keeps of the registry, and the snapshot of the plugin that was cached. */
  datatype RestoreRecord = RestoreRecord(marketplace: Option<string>, plugin: Option<Version>, snapshot: Option<Tree>)

  datatype Phase = Prepared | Applying | Committed | RolledBack | AutoRolledBack | RollbackFailed

  datatype PostState = PostState(files: map<Label, Content>, cache: map<Version, map<string, Content>>)

  datatype Manifest = Manifest(
    phase: Phase, version: Version, source: string,
    files: map<Label, Option<Content>>, cache: Option<Cache>, record: RestoreRecord, postState: Option<PostState>)

  /** The transaction's directory, which others can alter between calls. */
  datatype Backup = Backup(files: map<Label, Content>, cache: Option<Cache>, record: RestoreRecord,
    snapshot: Option<Tree>)

  /** What an installation of one version from one checkout amounts to. */
  datatype Target = Target(source: string, version: Version, plugin: Tree, agents: map<string, Content>,
                           config: Content, sourceControl: Option<Content>)

  function Significant(cache: Cache): map<Version, map<string, Content>> { map v | v in cache :: cache[v].files }

  function At(files: map<Label, Content>, l: Label): Option<Content> { if l in files then Some(files[l]) else None }

  /** The cached tree of a version. */
  function Cached(cache: Option<Cache>, v: Version): Option<Tree> {
    if cache.Some? && v in cache.value then Some(cache.value[v]) else None
  }

  /** What is registered can be put back: a plugin has its marketplace, and its version is cached. */
  predicate Recordable(r: Registry, cache: Option<Cache>) {
    r.plugin.Some? ==> r.marketplace.Some? && cache.Some? && r.plugin.value.version in cache.value
  }

  predicate CanRecord(record: RestoreRecord, cache: Option<Cache>) {
    record.plugin.Some? ==> record.marketplace.Some? && cache.Some? && record.plugin.value in cache.value
  }

  /** Every agent of the target is listed. */
  predicate Lists(names: seq<string>, t: Target) { forall a :: a in t.agents ==> a in names }

  predicate RegistryInstalled(r: Registry, t: Target) {
    && r.plugin.Some? && r.marketplace.Some?
    && r.plugin.value.version == t.version && r.plugin.value.source == t.source && r.marketplace.value == t.source
  }

  /** Registry, cache, agents and configuration are what the target asks for. */
  predicate Installed(files: map<Label, Content>, cache: Option<Cache>, r: Registry, t: Target) {
    && RegistryInstalled(r, t)
    && cache.Some? && t.version in cache.value && cache.value[t.version].files == t.plugin.files
    && (forall a :: a in t.agents ==> At(files, Agent(a)) == Some(t.agents[a]))
    && At(files, DeviceConfig) == Some(t.config)
    && (t.sourceControl.Some? ==> At(files, SourceControl) == t.sourceControl)
  }

  /** The registry has what the record says: the same presence, and the same plugin version. */
  predicate RegistryRestored(r: Registry, record: RestoreRecord) {
    && (r.marketplace.Some? <==> record.marketplace.Some?)
    && (r.plugin.Some? <==> record.plugin.Some?)
    && (r.plugin.Some? && record.plugin.Some? ==> r.plugin.value.version == record.plugin.value)
  }

  /** Plugin and marketplace are there or not as before, the plugin in the same version. */
  predicate SameInstallation(now: Registry, before: Registry) {
    && (now.marketplace.Some? <==> before.marketplace.Some?)
    && (now.plugin.Some? <==> before.plugin.Some?)
    && (now.plugin.Some? && before.plugin.Some? ==> now.plugin.value.version == before.plugin.value.version)
  }

  /** Every owned file is as the manifest recorded it. */
  predicate FilesRestored(files: map<Label, Content>, m: Manifest, owned: seq<Label>) {
    forall i :: 0 <= i < |owned| ==> owned[i] in m.files && At(files, owned[i]) == m.files[owned[i]]
  }

  /** The manifest recorded exactly this state of files, cache and registration. */
  predicate Remembers(m: Manifest, owned: seq<Label>, files: map<Label, Content>, cache: Option<Cache>, r: Registry) {
    FilesRestored(files, m, owned) && m.cache == cache && RegistryRestored(r, m.record)
  }

  /** Every backup is what the manifest recorded. */
  predicate ArtifactsIntact(m: Manifest, b: Backup, owned: seq<Label>) {
    && b.record == m.record
    && (m.record.snapshot.Some? ==> b.snapshot == m.record.snapshot)
    && (forall i :: 0 <= i < |owned| ==>
          owned[i] in m.files && (m.files[owned[i]].Some? ==> At(b.files, owned[i]) == m.files[owned[i]]))
    && (m.cache.Some? ==> b.cache == m.cache)
  }

  /** Everything a rollback of the transaction would restore from is there. */
  predicate BackedUp(m: Manifest, backups: map<Tid, Backup>, tid: Tid, owned: seq<Label>) {
    tid in backups && RecordOk(m.record) && ArtifactsIntact(m, backups[tid], owned)
  }

  predicate PhaseAllows(phase: Phase, auto: bool) {
    if auto then phase in {Prepared, Applying} else phase == Committed
  }

  /** A phase from which no rollback, automatic or manual, is allowed. */
  predicate Closed(phase: Phase) { !PhaseAllows(phase, true) && !PhaseAllows(phase, false) }

  /** A backed-up plugin needs its marketplace; the private record is refused otherwise. */
  predicate RecordOk(r: RestoreRecord) { r.plugin.Some? ==> r.marketplace.Some? }

  /** The committed installation is still there, untouched. */
  predicate PostStateUnchanged(files: map<Label, Content>, cache: Option<Cache>, r: Registry, m: Manifest) {
    && m.postState.Some? && cache.Some?
    && r.plugin.Some? && r.marketplace.Some?
    && r.plugin.value.version == m.version && r.plugin.value.source == m.source && r.marketplace.value == m.source
    && m.postState.value == PostState(files, Significant(cache.value))
  }

  /** All that is checked before a rollback touches anything. */
  predicate Rollbackable(m: Manifest, backups: map<Tid, Backup>, tid: Tid, source: string, auto: bool,
                         owned: seq<Label>,
                         files: map<Label, Content>, cache: Option<Cache>, r: Registry)
  {
    && m.source == source && PhaseAllows(m.phase, auto)
    && (!auto ==> PostStateUnchanged(files, cache, r, m))
    && tid in backups && RecordOk(m.record) && ArtifactsIntact(m, backups[tid], owned)
  }

  /** What is left of a tree whose removal was interrupted. */
  predicate PartOf(rest: Option<Cache>, whole: Option<Cache>) {
    rest.None? || (whole.Some? && CachePart(rest.value, whole.value))
  }

  predicate CachePart(rest: Cache, whole: Cache) {
    rest.Keys <= whole.Keys && forall v :: v in rest ==> TreePart(rest[v], whole[v])
  }

  predicate TreePart(rest: Tree, whole: Tree) {
    && rest.files.Keys <= whole.files.Keys && (forall f :: f in rest.files ==> rest.files[f] == whole.files[f])
    && rest.generated.Keys <= whole.generated.Keys
    && (forall f :: f in rest.generated ==> rest.generated[f] == whole.generated[f])
  }

  ghost predicate FilesOwned(files: map<Label, Content>, owned: seq<Label>) {
    forall k :: k in files ==> k in owned
  }

  ghost predicate IdsBelow(manifests: map<Tid, Manifest>, next: Tid) { forall t :: t in manifests ==> t < next }

  /** A counter has not moved for any of these transactions. */
  ghost predicate SameCounts(manifests: map<Tid, Manifest>, before: map<Tid, nat>, after: map<Tid, nat>) {
    forall t :: t in manifests && t in before ==> t in after && after[t] == before[t]
  }

  lemma NothingMoved(manifests: map<Tid, Manifest>, passed: map<Tid, nat>, unrecorded: map<Tid, nat>)
    ensures SameCounts(manifests, passed, passed) && SameCounts(manifests, unrecorded, unrecorded)
    ensures NewRecorded(manifests, manifests, unrecorded)
  {
  }

  lemma OneCountMoves(manifests: map<Tid, Manifest>, before: map<Tid, nat>, after: map<Tid, nat>, t: Tid, n: nat)
    requires SameCounts(manifests, before, after) && t !in manifests
    ensures SameCounts(manifests, before, after[t := n])
  {
  }

  /** No rollback of a transaction that is new went unrecorded. */
  ghost predicate NewRecorded(before: map<Tid, Manifest>, after: map<Tid, Manifest>, unrecorded: map<Tid, nat>) {
    forall t :: t in after && t !in before ==> t in unrecorded && unrecorded[t] == 0
  }

  /** With every outcome of the only new transaction on record. */
  lemma OneNew(before: map<Tid, Manifest>, after: map<Tid, Manifest>, unrecorded: map<Tid, nat>, t: Tid)
    requires after.Keys <= before.Keys + {t} && (t in after ==> t in unrecorded && unrecorded[t] == 0)
    ensures NewRecorded(before, after, unrecorded)
  {
  }

  /**
   * Of the rollbacks of one transaction that passed their checks, all but one ended without a
   * record of how; once one is on record, the phase admits no further rollback.
   */
  ghost predicate AtMostOnce(manifests: map<Tid, Manifest>, passed: map<Tid, nat>, unrecorded: map<Tid, nat>) {
    forall t :: t in manifests ==>
      && t in passed && t in unrecorded && unrecorded[t] <= passed[t] <= 1 + unrecorded[t]
      && (passed[t] > unrecorded[t] ==> Closed(manifests[t].phase))
  }

  /** A transaction of which no rollback passed may move to any phase. */
  lemma PhaseMoves(manifests: map<Tid, Manifest>, passed: map<Tid, nat>, unrecorded: map<Tid, nat>, t: Tid, m: Manifest)
    requires AtMostOnce(manifests, passed, unrecorded) && t in manifests && t in passed && passed[t] == 0
    ensures AtMostOnce(manifests[t := m], passed, unrecorded)
  {
  }

  /** What the manifest of a rolled back transaction becomes when its outcome is written down. */
  function Outcome(m: Manifest, ok: bool, auto: bool): Manifest {
    m.(phase := if !ok then RollbackFailed else if auto then AutoRolledBack else RolledBack)
  }

  /** A transaction begins under a new number, without rollbacks, with a snapshot of the plugin it would restore. */
  lemma NewTransaction(manifests: map<Tid, Manifest>, passed: map<Tid, nat>, unrecorded: map<Tid, nat>, t: Tid,
    m: Manifest)
    requires AtMostOnce(manifests, passed, unrecorded) && RecordsComplete(manifests) && IdsBelow(manifests, t)
    requires m.record.plugin.Some? ==> m.record.snapshot.Some?
    ensures AtMostOnce(manifests, passed[t := 0], unrecorded[t := 0])
    ensures AtMostOnce(manifests[t := m], passed[t := 0], unrecorded[t := 0])
    ensures t !in manifests && IdsBelow(manifests[t := m], t + 1)
    ensures RecordsComplete(manifests[t := m])
  {
  }

  lemma NextIds(manifests: map<Tid, Manifest>, next: Tid)
    requires IdsBelow(manifests, next)
    ensures IdsBelow(manifests, next + 1)
  {
  }

  lemma RecordedFiles(files: map<Label, Content>, m: Manifest, owned: seq<Label>)
    requires m.files == map l | l in owned :: At(files, l)
    ensures FilesRestored(files, m, owned)
  {
  }

  lemma FreshBackup(files: map<Label, Content>, m: Manifest, backups: map<Tid, Backup>, tid: Tid, owned: seq<Label>)
    requires (m.files == map l | l in owned :: At(files, l)) && RecordOk(m.record)
    requires tid in backups && backups[tid] == Backup(files, m.cache, m.record, m.record.snapshot)
    ensures BackedUp(m, backups, tid, owned)
  {
  }

  /** What is backed up does not depend on phase, version and post-state. */
  lemma StillBackedUp(m: Manifest, m': Manifest, backups: map<Tid, Backup>, tid: Tid, owned: seq<Label>)
    requires BackedUp(m, backups, tid, owned)
    requires m'.files == m.files && m'.cache == m.cache && m'.record == m.record
    ensures BackedUp(m', backups, tid, owned)
  {
  }

  lemma MayRollBack(m: Manifest, backups: map<Tid, Backup>, tid: Tid, owned: seq<Label>,
                    files: map<Label, Content>, cache: Option<Cache>, r: Registry)
    requires BackedUp(m, backups, tid, owned)
    ensures m.phase in {Prepared, Applying} ==> Rollbackable(m, backups, tid, m.source, true, owned, files, cache, r)
    ensures m.phase == Committed && PostStateUnchanged(files, cache, r, m) ==>
      Rollbackable(m, backups, tid, m.source, false, owned, files, cache, r)
  {
    hide ArtifactsIntact, PostStateUnchanged;
  }

  lemma InstalledCache(files: map<Label, Content>, cache: Option<Cache>, r: Registry, t: Target)
    requires Installed(files, cache, r, t)
    ensures cache.Some? && RegistryInstalled(r, t)
  {
  }

  lemma SameRecords(files: map<Label, Content>, m: Manifest, m': Manifest, owned: seq<Label>)
    requires FilesRestored(files, m, owned) && m'.files == m.files
    ensures FilesRestored(files, m', owned)
  {
  }

  /** Commands that change the installation; `AddPlugin` names what the marketplace offers and the tree of it. */
  datatype Command =
    | RemovePlugin | RemoveMarketplace | AddMarketplace(root: string) | AddPlugin(plugin: Plugin, offered: Tree)

  /** What an obedient command line makes of the registry. */
  function Obeyed(r: Registry, c: Command): Registry {
    match c
    case RemovePlugin => r.(plugin := None)
    case RemoveMarketplace => r.(marketplace := None)
    case AddMarketplace(root) => r.(marketplace := Some(root))
    case AddPlugin(plugin, _) => r.(plugin := Some(plugin))
  }

  /** A record that can be restored from: a plugin has its marketplace and an intact snapshot. */
  predicate Restorable(record: RestoreRecord, snapshot: Option<Tree>) {
    RecordOk(record) && (record.plugin.Some? ==> record.snapshot.Some? && snapshot == record.snapshot)
  }

  ghost predicate RecordsComplete(manifests: map<Tid, Manifest>) {
    forall t :: t in manifests ==> manifests[t].record.plugin.Some? ==> manifests[t].record.snapshot.Some?
  }

  /**
   * Writing an outcome down, or failing to, keeps what is known of the manifests, whether or not
   * the rollback passed its checks.
   */
  lemma OutcomeKeeps(manifests: map<Tid, Manifest>, passed: map<Tid, nat>, unrecorded: map<Tid, nat>, next: Tid,
                     t: Tid, ok: bool, auto: bool)
    requires AtMostOnce(manifests, passed, unrecorded) && IdsBelow(manifests, next) && RecordsComplete(manifests)
    requires t in manifests
    ensures t in passed && t in unrecorded
    ensures var after := manifests[t := Outcome(manifests[t], ok, auto)];
      && IdsBelow(after, next) && RecordsComplete(after) && AtMostOnce(after, passed, unrecorded)
      && (PhaseAllows(manifests[t].phase, auto) ==> AtMostOnce(after, passed[t := passed[t] + 1], unrecorded))
    ensures PhaseAllows(manifests[t].phase, auto) ==>
      AtMostOnce(manifests, passed[t := passed[t] + 1], unrecorded[t := unrecorded[t] + 1])
  {
  }

  /**
   * After a rollback that passed, the same rollback would pass again exactly when the outcome of
   * the first is not on record, the backups are unaltered and, for a manual one, the committed
   * installation is still there.
   */
  lemma PassesAgainIff(m: Manifest, now: Manifest, recorded: bool, ok: bool, backups: map<Tid, Backup>, tid: Tid,
                       source: string, auto: bool, owned: seq<Label>,
                       files: map<Label, Content>, cache: Option<Cache>, r: Registry, backups': map<Tid, Backup>,
                       files': map<Label, Content>, cache': Option<Cache>, r': Registry)
    requires Rollbackable(m, backups, tid, source, auto, owned, files, cache, r)
    requires now == if recorded then Outcome(m, ok, auto) else m
    ensures Rollbackable(now, backups', tid, source, auto, owned, files', cache', r') <==>
            !recorded && (auto || PostStateUnchanged(files', cache', r', now))
            && tid in backups' && ArtifactsIntact(m, backups'[tid], owned)
  {
  }

  lemma PassingMeans(m: Manifest, backups: map<Tid, Backup>, tid: Tid, source: string, auto: bool, owned: seq<Label>,
                     files: map<Label, Content>, cache: Option<Cache>, r: Registry, manifests: map<Tid, Manifest>)
    requires Rollbackable(m, backups, tid, source, auto, owned, files, cache, r)
    requires RecordsComplete(manifests) && tid in manifests && manifests[tid] == m
    ensures tid in backups && ArtifactsIntact(m, backups[tid], owned) && PhaseAllows(m.phase, auto)
    ensures Restorable(m.record, m.record.snapshot)
  {
  }

  /** Whether the schedule has the next step raise. */
  predicate NextFault(faults: seq<bool>) { faults != [] && faults[0] }

  /** What the schedule holds after the next step. */
  function Later(faults: seq<bool>): seq<bool> { if faults == [] then [] else faults[1..] }

  /** The checks of a rollback go through, the first file cannot be restored, nor the failure written down. */
  predicate FailsUnrecorded(faults: seq<bool>) {
    !NextFault(faults) && NextFault(Later(faults)) && NextFault(Later(Later(faults)))
  }

  datatype Applied = NoOp | Refused | Done(tid: Tid) | Undone(tid: Tid) | Stranded(tid: Tid)

  class Host {
    const owned: seq<Label>
    var files: map<Label, Content>
    var cache: Option<Cache>
    var staged: Option<Cache>
    var displaced: Option<Cache>
    var registry: Registry
    var manifests: map<Tid, Manifest>
    var backups: map<Tid, Backup>
    var nextTid: Tid
    // In calm weather no step raises and the command line does what it is asked to.  Otherwise the
    // schedule says which of the next steps raise, none once it is used up, and the command line
    // may do anything.
    const calm: bool
    var faults: seq<bool>

    // How often a rollback of a transaction passed its checks, and how often the outcome of one
    // that did could not be written down.
    ghost var passed: map<Tid, nat>
    ghost var unrecorded: map<Tid, nat>

    ghost predicate Valid()
      reads this
    {
      && FilesOwned(files, owned) && IdsBelow(manifests, nextTid)
      && AtMostOnce(manifests, passed, unrecorded) && RecordsComplete(manifests)
    }

    constructor (owned: seq<Label>, registry: Registry, calm: bool, faults: seq<bool>)
      requires DeviceConfig in owned && SourceControl in owned
      ensures Valid() && this.owned == owned && this.calm == calm && this.faults == faults && manifests == map[]
    {
      this.owned, this.registry, this.calm, this.faults := owned, registry, calm, faults;
      files, cache, staged, displaced := map[], None, None, None;
      manifests, backups, nextTid, passed, unrecorded := map[], map[], 0, map[], map[];
    }

    // -------------------------------------------------------------- the world

    /** Any step of the tool may raise; the schedule says whether the next one does. */
    method Raises() returns (raised: bool)
      modifies this`faults
      ensures raised <==> !calm && NextFault(old(faults))
      ensures faults == Later(old(faults))
    {
      raised := !calm && NextFault(faults);
      faults := Later(faults);
    }

    /** A command that changes the installation: no telling what it leaves behind. */
    method Codex(command: Command) returns (ok: bool)
      modifies this`registry, this`cache
      ensures calm ==> ok && registry == Obeyed(old(registry), command)
      ensures calm && command.AddPlugin? ==> Cached(cache, command.plugin.version) == Some(command.offered)
    {
      var before := registry;
      registry := *;
      cache := *;
      ok := *;
      if calm {
        ok, registry := true, Obeyed(before, command);
        if command.AddPlugin? {
          cache := Some((if cache.Some? then cache.value else map[])[command.plugin.version := command.offered]);
        }
      }
    }

    /** Between calls anyone may change the installation and the backups. */
    method Outside()
      requires Valid()
      modifies this`files, this`cache, this`registry, this`backups
      ensures Valid() && manifests == old(manifests)
    {
      var changed: map<Label, Content> := *;
      files := map l | l in changed && l in owned :: changed[l];
      cache := *;
      registry := *;
      backups := *;
    }

    /** The atomic rewrite of a manifest: it happens or it raises. */
    method WriteManifest(tid: Tid, m: Manifest) returns (ok: bool)
      modifies this`manifests, this`faults
      ensures manifests == if ok then old(manifests)[tid := m] else old(manifests)
      ensures ok <==> calm || !NextFault(old(faults))
      ensures faults == Later(old(faults))
    {
      var raised := Raises();
      if raised { return false; }
      manifests := manifests[tid := m];
      return true;
    }

    // -------------------------------------------------------------- restoring

    method RestoreFile(l: Label, m: Manifest, b: Backup) returns (ok: bool)
      requires l in owned && l in m.files && FilesOwned(files, owned)
      modifies this`files, this`faults
      ensures forall k :: k != l ==> At(files, k) == At(old(files), k)
      ensures FilesOwned(files, owned)
      ensures ok ==> At(files, l) == m.files[l]
      ensures calm && (m.files[l].Some? ==> At(b.files, l) == m.files[l]) ==> ok
      ensures !calm && NextFault(old(faults)) ==> !ok && files == old(files)
      ensures !calm && NextFault(old(faults)) && (m.files[l].Some? ==> At(b.files, l) == m.files[l]) ==>
        faults == Later(old(faults))
    {
      if m.files[l].Some? && At(b.files, l) != m.files[l] { return false; }
      var raised := Raises();
      if raised { return false; }
      if m.files[l].Some? {
        files := files[l := m.files[l].value];
      } else {
        files := files - {l};
      }
      raised := Raises();
      return !raised;
    }

    method RestoreFiles(m: Manifest, b: Backup) returns (ok: bool)
      requires (forall i :: 0 <= i < |owned| ==> owned[i] in m.files) && FilesOwned(files, owned)
      modifies this`files, this`faults
      ensures FilesOwned(files, owned)
      ensures ok ==> FilesRestored(files, m, owned)
      ensures calm && ArtifactsIntact(m, b, owned) ==> ok
      ensures !calm && owned != [] && NextFault(old(faults)) && ArtifactsIntact(m, b, owned) ==>
        !ok && files == old(files) && faults == Later(old(faults))
    {
      for i := 0 to |owned|
        invariant FilesOwned(files, owned)
        invariant forall j :: 0 <= j < i ==> At(files, owned[j]) == m.files[owned[j]]
        invariant i == 0 ==> files == old(files) && faults == old(faults)
        invariant i > 0 ==> calm || !NextFault(old(faults))
      {
        var restored := RestoreFile(owned[i], m, b);
        if !restored { return false; }
      }
      return true;
    }

    /** Whatever the commands do to registry and cache, a normal return has verified the registry. */
    method RestoreRegistry(record: RestoreRecord, b: Backup) returns (ok: bool)
      modifies this`registry, this`cache, this`faults
      ensures ok ==> RegistryRestored(registry, record)
      ensures calm ==> (ok <==> Restorable(record, b.snapshot))
    {
      var ignored := Codex(RemovePlugin);
      ignored := Codex(RemoveMarketplace);
      if !RecordOk(record) { return false; }
      if record.marketplace.Some? {
        if record.plugin.Some? && (record.snapshot.None? || b.snapshot != record.snapshot) { return false; }
        var added := Codex(AddMarketplace(record.marketplace.value));
        if !added { return false; }
      }
      if record.plugin.Some? {
        var added := Codex(AddPlugin(Plugin(record.plugin.value, record.marketplace.value), b.snapshot.value));
        if !added { return false; }
      }
      var raised := Raises();
      return !raised && RegistryRestored(registry, record);
    }

    /** Removes a tree; when it raises, any part of the tree may be left. */
    method RemoveTree(whole: Option<Cache>) returns (ok: bool, rest: Option<Cache>)
      modifies this`faults
      ensures if ok then rest == None else PartOf(rest, whole)
      ensures calm ==> ok
    {
      var raised := Raises();
      if !raised { return true, None; }
      rest := *;
      if !PartOf(rest, whole) { rest := None; }
      return false, rest;
    }

    /**
     * The rename-based restore.  A normal return leaves exactly the backup, or nothing when none
     * was taken.  When a step raises before the displaced tree starts to be removed, the handler
     * puts the old cache back whole; after that, a part of it is all it can put back.  When the
     * handler itself raises, the old tree, or that part of it, still lies beside the cache.
     */
    method RestoreCache(backup: Option<Cache>, present: bool, expected: Option<Cache>)
      returns (ok: bool, ghost removing: bool, ghost handled: bool)
      requires present ==> expected.Some?
      modifies this`cache, this`staged, this`displaced, this`faults
      ensures ok ==> cache == if present then expected else None
      ensures !ok && !removing ==> (if handled then cache else displaced) == old(cache)
      ensures !ok && removing ==> PartOf(if handled then cache else displaced, old(cache))
      ensures calm ==> handled
      ensures calm ==> (ok <==> (present ==> backup == expected))
    {
      removing, handled := false, true;
      var raised := Raises();
      if raised || (present && backup != expected) { return false, false, true; }
      staged, displaced := None, None;
      var movedCurrent, installedStaged := false, false;
      ok := true;
      // The guarded block.
      if present {
        raised := Raises();
        staged := *;
        if calm { staged := backup; }
        if raised || staged != expected { ok := false; }
      }
      if ok && cache.Some? {
        raised := Raises();
        if raised {
          ok := false;
        } else {
          displaced, cache := cache, None;
          movedCurrent := true;
        }
      }
      if ok && present {
        raised := Raises();
        if raised {
          ok := false;
        } else {
          cache, staged := staged, None;
          installedStaged := true;
          raised := Raises();
          if raised { ok := false; }
        }
      }
      if ok && displaced.Some? {
        removing := true;
        var removed, rest := RemoveTree(displaced);
        displaced := rest;
        ok := removed;
      }
      // The exception handler.
      if !ok { handled := PutBack(movedCurrent, installedStaged); }
      if staged.Some? {
        var removed, rest := RemoveTree(staged);
        staged := rest;
      }
    }

    /** Takes what was installed away again and moves the displaced tree back. */
    method PutBack(movedCurrent: bool, installedStaged: bool) returns (ok: bool)
      requires movedCurrent && !installedStaged ==> cache.None?
      requires displaced.Some? ==> movedCurrent
      modifies this`cache, this`displaced, this`faults
      ensures ok ==> cache == if movedCurrent || installedStaged then old(displaced) else old(cache)
      ensures !ok ==> displaced == old(displaced) && (movedCurrent || installedStaged)
      ensures calm ==> ok
    {
      if installedStaged && cache.Some? {
        var removed, rest := RemoveTree(cache);
        cache := rest;
        if !removed { return false; }
      }
      if movedCurrent && displaced.Some? && cache.None? {
        var raised := Raises();
        if raised { return false; }
        cache, displaced := displaced, None;
      }
      return true;
    }

    // -------------------------------------------------------------- rollback

    /**
     * Everything that is checked before the first owned file, registry entry or cache directory is
     * touched.  Queries of the registry may fail but do not change it.
     */
    method CheckRollback(m: Manifest, tid: Tid, source: string, auto: bool) returns (pass: bool)
      modifies this`faults
      ensures pass <==> (
        (calm || !NextFault(old(faults))) && Rollbackable(m, backups, tid, source, auto, owned, files, cache, registry))
      ensures faults == Later(old(faults))
    {
      hide ArtifactsIntact, PostStateUnchanged;
      var raised := Raises();
      if raised || m.source != source || !PhaseAllows(m.phase, auto) { return false; }
      if !auto && !PostStateUnchanged(files, cache, registry, m) { return false; }
      return tid in backups && RecordOk(m.record) && ArtifactsIntact(m, backups[tid], owned);
    }

    /** What follows once the checks have passed. */
    method RestoreAll(m: Manifest, b: Backup) returns (ok: bool)
      requires ArtifactsIntact(m, b, owned) && FilesOwned(files, owned)
      modifies this`files, this`registry, this`cache, this`staged, this`displaced, this`faults
      ensures FilesOwned(files, owned)
      ensures ok ==> FilesRestored(files, m, owned) && RegistryRestored(registry, m.record) && cache == m.cache
      ensures calm && Restorable(m.record, m.record.snapshot) ==> ok
      ensures !calm && owned != [] && NextFault(old(faults)) ==>
        !ok && files == old(files) && registry == old(registry) && cache == old(cache) && faults == Later(old(faults))
    {
      var restored := RestoreFiles(m, b);
      if !restored { return false; }
      var verified := RestoreRegistry(b.record, b);
      if !verified { return false; }
      ghost var removing, handled;
      ok, removing, handled := RestoreCache(b.cache, m.cache.Some?, m.cache);
    }

    /** Restores everything if the checks passed, and writes the outcome down if that can be done. */
    method RestoreAndRecord(tid: Tid, m: Manifest, pass: bool, auto: bool) returns (ok: bool, recorded: bool)
      requires (pass ==> tid in backups && ArtifactsIntact(m, backups[tid], owned)) && FilesOwned(files, owned)
      modifies this`files, this`registry, this`cache, this`staged, this`displaced, this`manifests, this`faults
      ensures FilesOwned(files, owned)
      ensures manifests == if recorded then old(manifests)[tid := Outcome(m, ok, auto)] else old(manifests)
      ensures ok ==> pass && recorded
      ensures ok ==> FilesRestored(files, m, owned) && RegistryRestored(registry, m.record) && cache == m.cache
      ensures calm && pass && Restorable(m.record, m.record.snapshot) ==> ok
      ensures !pass ==> files == old(files) && registry == old(registry) && cache == old(cache)
      ensures !pass ==> (recorded <==> calm || !NextFault(old(faults)))
      ensures (pass && !calm && owned != [] && NextFault(old(faults)) && NextFault(Later(old(faults))))
              ==> (!recorded && files == old(files) && registry == old(registry) && cache == old(cache)
                   && faults == Later(Later(old(faults))))
    {
      hide FilesOwned, FilesRestored, RegistryRestored, ArtifactsIntact, Restorable, NextFault, Later, Outcome;
      ok, recorded := false, false;
      if pass {
        ok := RestoreAll(m, backups[tid]);
        if ok { ok := WriteManifest(tid, Outcome(m, true, auto)); }
      }
      if ok { return true, true; }
      // The failure is noted if it can be; a second failure is swallowed.
      recorded := WriteManifest(tid, Outcome(m, false, auto));
    }

    /**
     * Rolls one transaction back.  `passes` says whether the checks passed and `recorded` whether
     * the last write of the manifest went through.
     */
    method RollbackInstallation(tid: Tid, source: string, auto: bool)
      returns (ok: bool, ghost passes: bool, ghost recorded: bool)
      requires Valid()
      modifies this`files, this`registry, this`cache, this`staged, this`displaced
      modifies this`manifests, this`passed, this`unrecorded, this`faults
      ensures Valid()
      ensures passes <==> (
        && tid in old(manifests) && (calm || !NextFault(old(faults)))
        && Rollbackable(old(manifests[tid]), backups, tid, source, auto, owned, old(files), old(cache), old(registry)))
      ensures !passes ==> files == old(files) && registry == old(registry) && cache == old(cache)
      ensures ok ==> passes && recorded
      ensures calm && passes ==> ok
      ensures ok ==> FilesRestored(files, old(manifests[tid]), owned) && cache == old(manifests[tid]).cache
      ensures ok ==> RegistryRestored(registry, old(manifests[tid]).record)
      ensures recorded ==> tid in old(manifests)
      ensures manifests ==
        if recorded then old(manifests)[tid := Outcome(old(manifests[tid]), ok, auto)] else old(manifests)
      ensures recorded ==>
        manifests[tid].phase == if !ok then RollbackFailed else if auto then AutoRolledBack else RolledBack
      ensures passes ==> old(manifests[tid]).phase in if auto then {Prepared, Applying} else {Committed}
      ensures !passes && tid in old(manifests) ==> (recorded <==> calm || !NextFault(Later(old(faults))))
      ensures passes ==> tid in old(passed) && tid in old(unrecorded)
      ensures passed == if passes then old(passed)[tid := old(passed)[tid] + 1] else old(passed)
      ensures unrecorded ==
        if passes && !recorded then old(unrecorded)[tid := old(unrecorded)[tid] + 1] else old(unrecorded)
      ensures passes ==>
        (Rollbackable(manifests[tid], backups, tid, source, auto, owned, files, cache, registry) <==>
         !recorded && (auto || PostStateUnchanged(files, cache, registry, manifests[tid])))
      ensures (!calm && owned != [] && FailsUnrecorded(old(faults)) && passes)
              ==> (!recorded && files == old(files) && registry == old(registry) && cache == old(cache)
                   && faults == Later(Later(Later(old(faults)))))
    {
      hide FilesOwned, FilesRestored, Rollbackable, RegistryRestored, Restorable, RecordsComplete, ArtifactsIntact;
      hide AtMostOnce, IdsBelow, PostStateUnchanged;
      recorded := false;
      if tid !in manifests { return false, false, false; }
      var m := manifests[tid];
      var pass := CheckRollback(m, tid, source, auto);
      passes := pass;
      OutcomeKeeps(manifests, passed, unrecorded, nextTid, tid, true, auto);
      OutcomeKeeps(manifests, passed, unrecorded, nextTid, tid, false, auto);
      hide Closed, PhaseAllows, NextFault, Later, Outcome;
      if pass {
        PassingMeans(m, backups, tid, source, auto, owned, files, cache, registry, manifests);
        passed := passed[tid := passed[tid] + 1];
      }
      ok, recorded := RestoreAndRecord(tid, m, pass, auto);
      if pass {
        if !recorded { unrecorded := unrecorded[tid := unrecorded[tid] + 1]; }
        PassesAgainIff(m, manifests[tid], recorded, ok, backups, tid, source, auto, owned,
          old(files), old(cache), old(registry), backups, files, cache, registry);
      }
    }

    // -------------------------------------------------------------- apply

    /** Reads the installation; may fail, changes nothing. */
    method Inspect(t: Target) returns (ok: bool, matches: bool, record: RestoreRecord)
      modifies this`faults
      ensures matches <==> Installed(files, cache, registry, t)
      ensures record.marketplace == registry.marketplace && record.snapshot == None
      ensures record.plugin == if registry.plugin.Some? then Some(registry.plugin.value.version) else None
      ensures calm ==> ok
    {
      var raised := Raises();
      ok := !raised;
      matches := Installed(files, cache, registry, t);
      record := RestoreRecord(registry.marketplace,
        if registry.plugin.Some? then Some(registry.plugin.value.version) else None, None);
    }

    /** The record with a copy of the cached tree of the registered version, when there is one to copy. */
    method TakeSnapshot(record: RestoreRecord) returns (ok: bool, full: RestoreRecord)
      modifies this`faults
      ensures full.marketplace == record.marketplace && full.plugin == record.plugin
      ensures ok && full.plugin.Some? ==> full.snapshot.Some?
      ensures ok ==> RecordOk(full)
      ensures calm ==> (ok <==> CanRecord(record, cache))
    {
      full := record;
      var raised := Raises();
      if raised || !RecordOk(record) { return false, full; }
      if record.plugin.Some? {
        if cache.None? || record.plugin.value !in cache.value { return false, full; }
        full := record.(snapshot := Some(cache.value[record.plugin.value]));
      }
      return true, full;
    }

    /** Backs everything up and writes the manifest; a failure on the way leaves no manifest. */
    method CreateTransaction(t: Target, record: RestoreRecord) returns (ok: bool, tid: Tid)
      requires Valid()
      modifies this`manifests, this`backups, this`nextTid, this`passed, this`unrecorded, this`faults
      ensures Valid() && tid == old(nextTid)
      ensures ok ==> tid in manifests && manifests == old(manifests)[tid := manifests[tid]]
      ensures ok ==> manifests[tid].phase == Prepared && manifests[tid].source == t.source
      ensures ok ==> FilesRestored(files, manifests[tid], owned) && manifests[tid].cache == cache
      ensures ok ==>
        manifests[tid].record.marketplace == record.marketplace && manifests[tid].record.plugin == record.plugin
      ensures ok ==> tid in passed && tid in unrecorded && passed[tid] == 0 && unrecorded[tid] == 0
      ensures ok ==> BackedUp(manifests[tid], backups, tid, owned)
      ensures !ok ==> manifests == old(manifests)
      ensures calm ==> (ok <==> CanRecord(record, cache))
      ensures tid !in old(manifests)
      ensures passed == old(passed) || passed == old(passed)[tid := 0]
      ensures unrecorded == old(unrecorded) || unrecorded == old(unrecorded)[tid := 0]
    {
      hide RecordOk, NextFault, Later, CanRecord;
      tid := nextTid;
      var copied, full := TakeSnapshot(record);
      var m := Manifest(Prepared, t.version, t.source, map l | l in owned :: At(files, l), cache, full, None);
      RecordedFiles(files, m, owned);
      if copied { FreshBackup(files, m, backups[tid := Backup(files, cache, full, full.snapshot)], tid, owned); }
      hide AtMostOnce, RecordsComplete, IdsBelow, FilesOwned, FilesRestored, At, BackedUp;
      NextIds(manifests, tid);
      nextTid := nextTid + 1;
      if !copied { return false, tid; }
      NewTransaction(manifests, passed, unrecorded, tid, m);
      backups := backups[tid := Backup(files, cache, full, full.snapshot)];
      passed, unrecorded := passed[tid := 0], unrecorded[tid := 0];
      ok := WriteManifest(tid, m);
    }

    /** Writes one owned file, atomically. */
    method WriteFile(l: Label, c: Content) returns (ok: bool)
      requires l in owned && FilesOwned(files, owned)
      modifies this`files, this`faults
      ensures FilesOwned(files, owned)
      ensures files == if ok then old(files)[l := c] else old(files)
      ensures calm ==> ok
    {
      var raised := Raises();
      if !raised { files := files[l := c]; }
      return !raised;
    }

    /** The agent files, as many as can be written. */
    method WriteAgents(t: Target, names: seq<string>) returns (ok: bool)
      requires FilesOwned(files, owned)
      requires forall i :: 0 <= i < |names| ==> names[i] in t.agents && Agent(names[i]) in owned
      modifies this`files, this`faults
      ensures FilesOwned(files, owned)
      ensures calm ==> ok
      ensures ok ==> forall i :: 0 <= i < |names| ==> At(files, Agent(names[i])) == Some(t.agents[names[i]])
    {
      for i := 0 to |names|
        invariant FilesOwned(files, owned)
        invariant forall j :: 0 <= j < i ==> At(files, Agent(names[j])) == Some(t.agents[names[j]])
      {
        ok := WriteFile(Agent(names[i]), t.agents[names[i]]);
        if !ok { return; }
      }
      ok := true;
    }

    /** Installs plugin, agents and configuration; any step may fail half-way, none does in calm weather. */
    method Install(t: Target, names: seq<string>) returns (ok: bool)
      requires FilesOwned(files, owned) && DeviceConfig in owned && SourceControl in owned
      requires forall i :: 0 <= i < |names| ==> names[i] in t.agents && Agent(names[i]) in owned
      modifies this`files, this`registry, this`cache, this`faults
      ensures FilesOwned(files, owned)
      ensures calm ==> ok && (Lists(names, t) ==> Installed(files, cache, registry, t))
    {
      hide FilesOwned;
      var ignored := Codex(RemovePlugin);
      ignored := Codex(RemoveMarketplace);
      ok := Codex(AddMarketplace(t.source));
      if !ok { return; }
      ok := Codex(AddPlugin(Plugin(t.version, t.source), t.plugin));
      if !ok { return; }
      ok := WriteAgents(t, names);
      if !ok { return; }
      ok := cache.Some? && t.version in cache.value;
      if !ok { return; }
      ok := WriteFile(DeviceConfig, t.config);
      if !ok { return; }
      if t.sourceControl.Some? { ok := WriteFile(SourceControl, t.sourceControl.value); }
    }

    /** The guarded block of the apply: it commits, or leaves the transaction to be rolled back. */
    method TryApply(t: Target, names: seq<string>, tid: Tid) returns (ok: bool)
      requires Valid() && DeviceConfig in owned && SourceControl in owned
      requires forall i :: 0 <= i < |names| ==> names[i] in t.agents && Agent(names[i]) in owned
      requires tid in manifests && tid in passed && passed[tid] == 0 && manifests[tid].source == t.source
      modifies this`files, this`registry, this`cache, this`manifests, this`faults
      ensures Valid() && manifests.Keys == old(manifests).Keys
      ensures forall x :: x in manifests && x != tid ==> manifests[x] == old(manifests[x])
      ensures manifests[tid].files == old(manifests[tid]).files && manifests[tid].cache == old(manifests[tid]).cache
      ensures manifests[tid].record == old(manifests[tid]).record
      ensures ok ==> Installed(files, cache, registry, t) && manifests[tid].phase == Committed
      ensures ok ==> PostStateUnchanged(files, cache, registry, manifests[tid])
      ensures manifests[tid].source == t.source
      ensures !ok ==> manifests[tid].phase in {old(manifests[tid]).phase, Applying}
      ensures calm && Lists(names, t) ==> ok
    {
      hide FilesOwned, Installed, AtMostOnce, NextFault, Later, Lists;
      var m := manifests[tid];
      var applying := m.(phase := Applying);
      PhaseMoves(manifests, passed, unrecorded, tid, applying);
      ok := WriteManifest(tid, applying);
      if ok { ok := Install(t, names); }
      if ok {
        var seen, verified, _ := Inspect(t);
        ok := seen && verified;
      }
      if ok {
        InstalledCache(files, cache, registry, t);
        var raised := Raises();
        ok := !raised;
        if ok {
          var committed := m.(phase := Committed, version := t.version,
            postState := Some(PostState(files, Significant(cache.value))));
          PhaseMoves(manifests, passed, unrecorded, tid, committed);
          ok := WriteManifest(tid, committed);
        }
      }
    }

    /** From a transaction just created: the guarded block, then the automatic rollback if that fails. */
    method ApplyCreated(t: Target, names: seq<string>, tid: Tid) returns (result: Applied)
      requires Valid() && DeviceConfig in owned && SourceControl in owned
      requires forall i :: 0 <= i < |names| ==> names[i] in t.agents && Agent(names[i]) in owned
      requires tid in manifests && tid in passed && tid in unrecorded && passed[tid] == 0 && unrecorded[tid] == 0
      requires manifests[tid].source == t.source && manifests[tid].cache == cache
      requires FilesRestored(files, manifests[tid], owned) && RegistryRestored(registry, manifests[tid].record)
      requires manifests[tid].phase == Prepared && BackedUp(manifests[tid], backups, tid, owned)
      modifies this`files, this`registry, this`cache, this`staged, this`displaced, this`faults
      modifies this`manifests, this`passed, this`unrecorded
      ensures Valid() && manifests.Keys == old(manifests).Keys
      ensures forall x :: x in manifests && x != tid ==> manifests[x] == old(manifests[x])
      ensures result in {Done(tid), Undone(tid), Stranded(tid)}
      ensures result.Done? ==> Installed(files, cache, registry, t) && manifests[tid].phase == Committed
      ensures result.Done? ==> PostStateUnchanged(files, cache, registry, manifests[tid])
      ensures result.Undone? ==> files == old(files) && cache == old(cache)
      ensures result.Undone? ==> SameInstallation(registry, old(registry)) && manifests[tid].phase == AutoRolledBack
      ensures calm && Lists(names, t) ==> result.Done?
      ensures calm ==> !result.Stranded?
      ensures result.Done? ==>
        Rollbackable(manifests[tid], backups, tid, t.source, false, owned, files, cache, registry)
      ensures manifests[tid].files == old(manifests[tid]).files && manifests[tid].cache == old(manifests[tid]).cache
      ensures manifests[tid].record == old(manifests[tid]).record
      ensures result.Done? ==> passed == old(passed)
      ensures result.Undone? ==> passed == old(passed)[tid := 1]
      ensures passed == old(passed) || passed == old(passed)[tid := 1]
      ensures unrecorded == old(unrecorded) || unrecorded == old(unrecorded)[tid := 1]
      ensures calm || !result.Stranded? ==> unrecorded == old(unrecorded)
    {
      hide FilesOwned, FilesRestored, ArtifactsIntact, Installed, AtMostOnce, PostStateUnchanged, NextFault, Later;
      hide IdsBelow, RecordsComplete, Rollbackable, Lists, BackedUp;
      ghost var wasFiles, m := files, manifests[tid];
      var ok := TryApply(t, names, tid);
      ghost var atFailure := manifests[tid];
      StillBackedUp(m, atFailure, backups, tid, owned);
      MayRollBack(atFailure, backups, tid, owned, files, cache, registry);
      if ok { return Done(tid); }
      SameRecords(wasFiles, m, atFailure, owned);
      var undone;
      ghost var passes, recorded;
      undone, passes, recorded := RollbackInstallation(tid, t.source, true);
      if !undone { return Stranded(tid); }
      RestoredIsOld(wasFiles, files, atFailure, owned);
      return Undone(tid);
    }

    /**
     * Applies a target.  It reports success only with the target installed and the transaction
     * committed over exactly that; it reports an undone failure only with every owned file, the
     * cache and what matters of the registry as they were before.
     */
    method ApplyPluginTransaction(t: Target, names: seq<string>) returns (result: Applied)
      requires Valid() && DeviceConfig in owned && SourceControl in owned
      requires forall i :: 0 <= i < |names| ==> names[i] in t.agents && Agent(names[i]) in owned
      modifies this`files, this`registry, this`cache, this`staged, this`displaced, this`faults
      modifies this`manifests, this`backups, this`nextTid, this`passed, this`unrecorded, this`faults
      ensures Valid()
      ensures forall x :: x in old(manifests) ==> x in manifests && manifests[x] == old(manifests[x])
      ensures result.NoOp? ==> Installed(files, cache, registry, t)
      ensures result.NoOp? || result.Refused? ==>
        files == old(files) && cache == old(cache) && registry == old(registry)
      ensures result.Done? ==> Installed(files, cache, registry, t) && result.tid in manifests
      ensures result.Done? ==> manifests[result.tid].phase == Committed
      ensures result.Done? ==> PostStateUnchanged(files, cache, registry, manifests[result.tid])
      ensures result.Undone? ==> files == old(files) && cache == old(cache)
      ensures result.Undone? ==> SameInstallation(registry, old(registry))
      ensures result.Undone? ==> result.tid in manifests && manifests[result.tid].phase == AutoRolledBack
      ensures SameCounts(old(manifests), old(passed), passed) && SameCounts(old(manifests), old(unrecorded), unrecorded)
      ensures result.Done? ==> result.tid !in old(manifests) && result.tid in passed && passed[result.tid] == 0
      ensures result.Undone? ==> result.tid !in old(manifests) && result.tid in passed && passed[result.tid] == 1
      ensures calm ==> (result.NoOp? <==> Installed(old(files), old(cache), old(registry), t))
      ensures calm && !Installed(old(files), old(cache), old(registry), t) && !Recordable(old(registry), old(cache)) ==>
        result.Refused?
      ensures (calm && !Installed(old(files), old(cache), old(registry), t) && Recordable(old(registry), old(cache))
               && Lists(names, t)) ==> result.Done?
      ensures calm ==> !result.Stranded?
      ensures result.Done? ==>
        Rollbackable(manifests[result.tid], backups, result.tid, t.source, false, owned, files, cache, registry)
      ensures result.Done? ==>
        Remembers(manifests[result.tid], owned, old(files), old(cache), old(registry))
      ensures calm || !result.Stranded? ==> NewRecorded(old(manifests), manifests, unrecorded)
    {
      hide FilesOwned, FilesRestored, ArtifactsIntact, Installed, AtMostOnce, PostStateUnchanged, NextFault, Later;
      hide SameCounts, NewRecorded, IdsBelow, RecordsComplete, SameInstallation, Lists, BackedUp, Rollbackable;
      ghost var before, passes, misses := manifests, passed, unrecorded;
      NothingMoved(before, passes, misses);
      var inspected, matches, record := Inspect(t);
      if !inspected { return Refused; }
      if matches { return NoOp; }
      var created, tid := CreateTransaction(t, record);
      OneCountMoves(before, passes, passes, tid, 0);
      OneCountMoves(before, misses, misses, tid, 0);
      if !created {
        NothingMoved(before, passed, unrecorded);
        return Refused;
      }
      ghost var was, recorded := files, manifests[tid];
      OneCountMoves(before, passes, passed, tid, 1);
      OneCountMoves(before, misses, unrecorded, tid, 1);
      result := ApplyCreated(t, names, tid);
      SameRecords(was, recorded, manifests[tid], owned);
      if calm || !result.Stranded? { OneNew(before, manifests, unrecorded, tid); }
    }
  }

  /**
   * A second rollback of a transaction can pass: when the first could neither restore anything nor
   * write its failure down, everything the checks look at is as it was.
   */
  method RollbackTwice(host: Host, tid: Tid, source: string, auto: bool)
    requires host.Valid() && !host.calm && host.owned != [] && tid in host.manifests && tid in host.passed
    requires host.faults == [false, true, true, false, true, true]
    requires Rollbackable(host.manifests[tid], host.backups, tid, source, auto,
      host.owned, host.files, host.cache, host.registry)
    modifies host
    ensures host.Valid() && tid in host.passed && host.passed[tid] == old(host.passed[tid]) + 2
    ensures host.manifests == old(host.manifests)
    ensures host.files == old(host.files) && host.registry == old(host.registry) && host.cache == old(host.cache)
  {
    hide Rollbackable, FilesRestored, RegistryRestored, Closed;
    var ok;
    ghost var passes, recorded;
    ok, passes, recorded := host.RollbackInstallation(tid, source, auto);
    assert passes && !recorded;
    ok, passes, recorded := host.RollbackInstallation(tid, source, auto);
  }

  /** What can happen to a device between two looks at it. */
  datatype Action = Meddle | RollBack(tid: Tid, source: string, auto: bool) | Apply(target: Target, names: seq<string>)

  /** The agents of every target are among the files owned. */
  predicate Applicable(actions: seq<Action>, owned: seq<Label>) {
    forall i :: 0 <= i < |actions| && actions[i].Apply? ==>
      forall j :: 0 <= j < |actions[i].names| ==>
        actions[i].names[j] in actions[i].target.agents && Agent(actions[i].names[j]) in owned
  }

  /** What was closed is closed, and no further rollback of it has passed. */
  ghost predicate StaysClosed(before: map<Tid, Manifest>, passes: map<Tid, nat>,
                              after: map<Tid, Manifest>, passes': map<Tid, nat>) {
    forall t :: t in before && Closed(before[t].phase) ==>
      t in after && Closed(after[t].phase) && t in passes && t in passes' && passes'[t] == passes[t]
  }

  ghost predicate AllRecorded(manifests: map<Tid, Manifest>, unrecorded: map<Tid, nat>) {
    forall t :: t in manifests ==> t in unrecorded && unrecorded[t] == 0
  }

  lemma CountsExist(manifests: map<Tid, Manifest>, passed: map<Tid, nat>, unrecorded: map<Tid, nat>)
    requires AtMostOnce(manifests, passed, unrecorded)
    ensures forall t :: t in manifests ==> t in passed && t in unrecorded
  {
  }

  /** Whatever the source and the kind, a closed transaction passes no check. */
  lemma NoPass(host: Host, tid: Tid, source: string, auto: bool)
    requires tid in host.manifests && Closed(host.manifests[tid].phase)
    ensures !Rollbackable(host.manifests[tid], host.backups, tid, source, auto,
      host.owned, host.files, host.cache, host.registry)
  {
  }

  /** One action, whatever it is. */
  method Act(host: Host, a: Action)
    requires host.Valid() && DeviceConfig in host.owned && SourceControl in host.owned && Applicable([a], host.owned)
    modifies host
    ensures host.Valid()
    ensures StaysClosed(old(host.manifests), old(host.passed), host.manifests, host.passed)
    ensures host.calm && AllRecorded(old(host.manifests), old(host.unrecorded)) ==>
      AllRecorded(host.manifests, host.unrecorded)
  {
    hide Rollbackable, FilesRestored, RegistryRestored, Installed, PostStateUnchanged, FilesOwned, AtMostOnce, IdsBelow;
    hide RecordsComplete, SameInstallation, NextFault, Later;
    CountsExist(host.manifests, host.passed, host.unrecorded);
    match a
    case Meddle => host.Outside();
    case RollBack(tid, source, auto) =>
      if tid in host.manifests && Closed(host.manifests[tid].phase) {
        NoPass(host, tid, source, auto);
      }
      var ok;
      ghost var passes, recorded;
      ok, passes, recorded := host.RollbackInstallation(tid, source, auto);
    case Apply(target, names) =>
      assert [a][0] == a;
      var result := host.ApplyPluginTransaction(target, names);
  }

  /**
   * Over any history: a closed transaction stays closed and no rollback of it passes again.  When
   * no write of a manifest is lost, at most one rollback of each transaction passes at all.
   */
  method Replay(host: Host, actions: seq<Action>)
    requires host.Valid() && DeviceConfig in host.owned && SourceControl in host.owned
    requires Applicable(actions, host.owned)
    modifies host
    ensures host.Valid()
    ensures StaysClosed(old(host.manifests), old(host.passed), host.manifests, host.passed)
    ensures host.calm && AllRecorded(old(host.manifests), old(host.unrecorded)) ==>
      AllRecorded(host.manifests, host.unrecorded)
      && forall t :: t in host.manifests ==> t in host.passed && host.passed[t] <= 1
  {
    hide FilesOwned, IdsBelow, RecordsComplete, Closed;
    for i := 0 to |actions|
      invariant host.Valid()
      invariant StaysClosed(old(host.manifests), old(host.passed), host.manifests, host.passed)
      invariant host.calm && AllRecorded(old(host.manifests), old(host.unrecorded)) ==>
        AllRecorded(host.manifests, host.unrecorded)
    {
      Act(host, actions[i]);
    }
  }

  /** A rollback that was refused, and whose refusal was written down, is refused for good. */
  method RefusedForGood(host: Host, tid: Tid, source: string, auto: bool, actions: seq<Action>)
    requires host.Valid() && DeviceConfig in host.owned && SourceControl in host.owned
    requires Applicable(actions, host.owned) && tid in host.manifests && tid in host.passed
    requires !Rollbackable(host.manifests[tid], host.backups, tid, source, auto,
      host.owned, host.files, host.cache, host.registry)
    requires host.calm || !NextFault(Later(host.faults))
    modifies host
    ensures host.Valid() && tid in host.manifests && Closed(host.manifests[tid].phase)
    ensures tid in host.passed && host.passed[tid] == old(host.passed)[tid]
  {
    hide Rollbackable, FilesRestored, RegistryRestored, FilesOwned, AtMostOnce, IdsBelow, RecordsComplete;
    var ok;
    ghost var passes, recorded;
    ok, passes, recorded := host.RollbackInstallation(tid, source, auto);
    Replay(host, actions);
  }

  /** In calm weather an installation and its rollback leave the device as it was. */
  method InstallAndBack(host: Host, t: Target, names: seq<string>)
    requires host.Valid() && host.calm && DeviceConfig in host.owned && SourceControl in host.owned
    requires forall i :: 0 <= i < |names| ==> names[i] in t.agents && Agent(names[i]) in host.owned
    requires Lists(names, t) && Recordable(host.registry, host.cache)
    requires !Installed(host.files, host.cache, host.registry, t)
    modifies host
    ensures host.files == old(host.files) && host.cache == old(host.cache)
    ensures SameInstallation(host.registry, old(host.registry))
  {
    hide Installed, Lists, Recordable, Rollbackable, PostStateUnchanged, FilesRestored, FilesOwned, AtMostOnce;
    hide IdsBelow, RecordsComplete, SameCounts, NewRecorded;
    ghost var was := host.files;
    var result := host.ApplyPluginTransaction(t, names);
    ghost var m := host.manifests[result.tid];
    var ok;
    ghost var passes, recorded;
    ok, passes, recorded := host.RollbackInstallation(result.tid, t.source, false);
    RestoredIsOld(was, host.files, m, host.owned);
  }

  /** What it takes to be installed, part by part. */
  lemma InstalledMeans(files: map<Label, Content>, cache: Option<Cache>, r: Registry, t: Target)
    ensures Installed(files, cache, r, t) <==>
      && r == Registry(Some(t.source), Some(Plugin(t.version, t.source)))
      && cache.Some? && t.version in cache.value && cache.value[t.version].files == t.plugin.files
      && (forall a :: a in t.agents ==> Agent(a) in files && files[Agent(a)] == t.agents[a])
      && DeviceConfig in files && files[DeviceConfig] == t.config
      && (t.sourceControl.Some? ==> SourceControl in files && files[SourceControl] == t.sourceControl.value)
  {
  }

  /** The same versions with the same files, whatever was generated beside them. */
  predicate SameSignificant(a: Cache, b: Cache) {
    a.Keys == b.Keys && forall v :: v in a ==> a[v].files == b[v].files
  }

  /**
   * Where a manual rollback passes, it passes in another state of the device exactly if no owned
   * file, no cached file but generated ones and nothing of the registration differs.
   */
  lemma ManualNeedsSameState(m: Manifest, backups: map<Tid, Backup>, tid: Tid, source: string, owned: seq<Label>,
                             files: map<Label, Content>, cache: Option<Cache>, r: Registry,
                             files': map<Label, Content>, cache': Option<Cache>, r': Registry)
    requires Rollbackable(m, backups, tid, source, false, owned, files, cache, r) && cache.Some?
    ensures Rollbackable(m, backups, tid, source, false, owned, files', cache', r') <==>
            files' == files && cache'.Some? && SameSignificant(cache.value, cache'.value) && r' == r
  {
    if cache'.Some? {
      var a, b := Significant(cache.value), Significant(cache'.value);
      assert a.Keys == cache.value.Keys && b.Keys == cache'.value.Keys;
      assert a == b <==> SameSignificant(cache.value, cache'.value);
    }
  }

  /** An automatic rollback does not look at the state of the device. */
  lemma AutomaticNeedsNoState(m: Manifest, backups: map<Tid, Backup>, tid: Tid, source: string, owned: seq<Label>,
                              files: map<Label, Content>, cache: Option<Cache>, r: Registry,
                              files': map<Label, Content>, cache': Option<Cache>, r': Registry)
    requires Rollbackable(m, backups, tid, source, true, owned, files, cache, r)
    ensures Rollbackable(m, backups, tid, source, true, owned, files', cache', r')
  {
  }

  /**
   * Where a rollback passes, it passes with other backups exactly if what was recorded of the
   * device is unaltered in them, and for no other source.
   */
  lemma BackupsUnaltered(m: Manifest, backups: map<Tid, Backup>, tid: Tid, source: string, auto: bool,
                         owned: seq<Label>, files: map<Label, Content>, cache: Option<Cache>, r: Registry,
                         backups': map<Tid, Backup>, source': string)
    requires Rollbackable(m, backups, tid, source, auto, owned, files, cache, r)
    ensures Rollbackable(m, backups', tid, source', auto, owned, files, cache, r) <==>
      && source' == source && tid in backups' && backups'[tid].record == backups[tid].record
      && (m.record.snapshot.Some? ==> backups'[tid].snapshot == backups[tid].snapshot)
      && (m.cache.Some? ==> backups'[tid].cache == backups[tid].cache)
      && (forall l :: l in owned && l in m.files && m.files[l].Some? ==>
            At(backups'[tid].files, l) == At(backups[tid].files, l))
  {
    hide PostStateUnchanged, At;
    if Rollbackable(m, backups', tid, source', auto, owned, files, cache, r) {
      forall l | l in owned && l in m.files && m.files[l].Some?
        ensures At(backups'[tid].files, l) == At(backups[tid].files, l)
      {
        var i :| 0 <= i < |owned| && owned[i] == l;
      }
    }
  }

  /** Two file sets restored to one manifest are the same. */
  lemma RestoredIsOld(a: map<Label, Content>, b: map<Label, Content>, m: Manifest, owned: seq<Label>)
    requires FilesRestored(a, m, owned) && FilesRestored(b, m, owned)
    requires FilesOwned(a, owned) && FilesOwned(b, owned)
    ensures a == b
  {
    forall l ensures At(a, l) == At(b, l) {
      if l in owned { var i :| 0 <= i < |owned| && owned[i] == l; }
    }
    forall l ensures l in a <==> l in b { assert At(a, l) == At(b, l); }
    forall l | l in a ensures a[l] == b[l] { assert At(a, l) == At(b, l); }
  }
}
