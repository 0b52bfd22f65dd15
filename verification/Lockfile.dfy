/** `contract audit`: comparing a lockfile with the registry, and bringing it
    up to date. */
module Lockfile {
  import opened Wrappers
  import opened Sequences
  import Text

  datatype LockEntry = LockEntry(
    contractId: string, name: string, version: string, network: string,
    hash: Option<string>, updatedAt: Option<string>, status: Option<string>)

  /** Contract ids order the entries of a lockfile. */
  datatype Id = Id(text: string)

  datatype LockFile = LockFile(version: nat, generatedAt: string, registryUrl: string, contracts: map<Id, LockEntry>)

  datatype Field = Name | Version | NetworkField | Hash | Status | UpdatedAt

  datatype FieldChange = FieldChange(field: Field, local: string, remote: string)

  datatype DriftEntry = DriftEntry(contractId: Id, name: string)
  datatype ChangedEntry = ChangedEntry(contractId: Id, name: string, changes: seq<FieldChange>)
  datatype DriftReport = DriftReport(
    removed: seq<DriftEntry>, changed: seq<ChangedEntry>, audited: nat, hasDrift: bool)

  /** What fetching a contract gives; a contract that cannot be fetched gives nothing. */
  type Registry = Id -> Option<LockEntry>

  // ---- comparing two entries -----------------------------------------------------

  function ChangeIf(field: Field, local: Option<string>, remote: Option<string>): seq<FieldChange> {
    if local != remote then [FieldChange(field, local.GetOr(""), remote.GetOr(""))] else []
  }

  function Diff(local: LockEntry, remote: LockEntry): seq<FieldChange> {
    ChangeIf(Name, Some(local.name), Some(remote.name))
    + ChangeIf(Version, Some(local.version), Some(remote.version))
    + ChangeIf(NetworkField, Some(local.network), Some(remote.network))
    + ChangeIf(Hash, local.hash, remote.hash)
    + ChangeIf(Status, local.status, remote.status)
    + ChangeIf(UpdatedAt, local.updatedAt, remote.updatedAt)
  }

  method DiffEntries(local: LockEntry, remote: LockEntry) returns (changes: seq<FieldChange>)
    ensures changes == Diff(local, remote)
    ensures ShowsChanges(changes, local, remote)
  {
    DiffShows(local, remote);
    changes := [];
    if local.name != remote.name {
      changes := changes + [FieldChange(Name, local.name, remote.name)];
    }
    ghost var soFar := ChangeIf(Name, Some(local.name), Some(remote.name));
    assert changes == soFar;
    if local.version != remote.version {
      changes := changes + [FieldChange(Version, local.version, remote.version)];
    }
    soFar := soFar + ChangeIf(Version, Some(local.version), Some(remote.version));
    assert changes == soFar;
    if local.network != remote.network {
      changes := changes + [FieldChange(NetworkField, local.network, remote.network)];
    }
    soFar := soFar + ChangeIf(NetworkField, Some(local.network), Some(remote.network));
    assert changes == soFar;
    if local.hash != remote.hash {
      changes := changes + [FieldChange(Hash, local.hash.GetOr(""), remote.hash.GetOr(""))];
    }
    soFar := soFar + ChangeIf(Hash, local.hash, remote.hash);
    assert changes == soFar;
    if local.status != remote.status {
      changes := changes + [FieldChange(Status, local.status.GetOr(""), remote.status.GetOr(""))];
    }
    soFar := soFar + ChangeIf(Status, local.status, remote.status);
    assert changes == soFar;
    if local.updatedAt != remote.updatedAt {
      changes := changes + [FieldChange(UpdatedAt, local.updatedAt.GetOr(""), remote.updatedAt.GetOr(""))];
    }
    soFar := soFar + ChangeIf(UpdatedAt, local.updatedAt, remote.updatedAt);
    assert changes == soFar;
  }

  /** The six fields a comparison looks at; the contract id is not one of them. */
  ghost predicate SameFields(a: LockEntry, b: LockEntry) {
    && a.name == b.name && a.version == b.version && a.network == b.network
    && a.hash == b.hash && a.status == b.status && a.updatedAt == b.updatedAt
  }

  /** No changes are reported exactly when the six fields agree. */
  lemma {:induction false} DiffEmpty(a: LockEntry, b: LockEntry)
    ensures Diff(a, b) == [] <==> SameFields(a, b)
  {
    assert |Diff(a, b)| == |ChangeIf(Name, Some(a.name), Some(b.name))|
      + |ChangeIf(Version, Some(a.version), Some(b.version))|
      + |ChangeIf(NetworkField, Some(a.network), Some(b.network))|
      + |ChangeIf(Hash, a.hash, b.hash)| + |ChangeIf(Status, a.status, b.status)|
      + |ChangeIf(UpdatedAt, a.updatedAt, b.updatedAt)|;
  }

  function FieldOf(e: LockEntry, field: Field): Option<string> {
    match field
    case Name => Some(e.name)
    case Version => Some(e.version)
    case NetworkField => Some(e.network)
    case Hash => e.hash
    case Status => e.status
    case UpdatedAt => e.updatedAt
  }

  ghost predicate Lists(changes: seq<FieldChange>, field: Field) {
    exists c :: c in changes && c.field == field
  }

  /** Every field that differs, and no other, with its two values. */
  ghost predicate ShowsChanges(changes: seq<FieldChange>, local: LockEntry, remote: LockEntry) {
    && (forall field :: Lists(changes, field) <==> FieldOf(local, field) != FieldOf(remote, field))
    && (forall c :: c in changes ==> c.local == FieldOf(local, c.field).GetOr("") && c.remote == FieldOf(remote, c.field).GetOr(""))
  }

  lemma {:induction false} OneField(field: Field, local: Option<string>, remote: Option<string>, c: FieldChange)
    ensures c in ChangeIf(field, local, remote) <==> local != remote && c == FieldChange(field, local.GetOr(""), remote.GetOr(""))
  {
  }

  function ChangeOf(field: Field, local: LockEntry, remote: LockEntry): seq<FieldChange> {
    ChangeIf(field, FieldOf(local, field), FieldOf(remote, field))
  }

  lemma {:induction false} DiffParts(local: LockEntry, remote: LockEntry, c: FieldChange)
    ensures c in Diff(local, remote) <==>
      || c in ChangeOf(Name, local, remote) || c in ChangeOf(Version, local, remote)
      || c in ChangeOf(NetworkField, local, remote) || c in ChangeOf(Hash, local, remote)
      || c in ChangeOf(Status, local, remote) || c in ChangeOf(UpdatedAt, local, remote)
  {
  }

  lemma {:induction false} PartOf(field: Field, local: LockEntry, remote: LockEntry, c: FieldChange)
    ensures c in ChangeOf(field, local, remote) <==> c.field == field && c in ChangeOf(c.field, local, remote)
  {
  }

  lemma {:induction false} DiffMember(local: LockEntry, remote: LockEntry, c: FieldChange)
    ensures c in Diff(local, remote) <==>
      && FieldOf(local, c.field) != FieldOf(remote, c.field)
      && c.local == FieldOf(local, c.field).GetOr("") && c.remote == FieldOf(remote, c.field).GetOr("")
  {
    DiffParts(local, remote, c);
    PartOf(Name, local, remote, c);
    PartOf(Version, local, remote, c);
    PartOf(NetworkField, local, remote, c);
    PartOf(Hash, local, remote, c);
    PartOf(Status, local, remote, c);
    PartOf(UpdatedAt, local, remote, c);
    OneField(c.field, FieldOf(local, c.field), FieldOf(remote, c.field), c);
    AnyField(c.field);
  }

  lemma {:induction false} AnyField(field: Field)
    ensures field in {Name, Version, NetworkField, Hash, Status, UpdatedAt}
  {
  }

  /** A comparison reports exactly the differing fields and their values. */
  lemma {:induction false} DiffShows(local: LockEntry, remote: LockEntry)
    ensures ShowsChanges(Diff(local, remote), local, remote)
  {
    forall field ensures Lists(Diff(local, remote), field) <==> FieldOf(local, field) != FieldOf(remote, field) {
      DiffMember(local, remote, FieldChange(field, FieldOf(local, field).GetOr(""), FieldOf(remote, field).GetOr("")));
      if c :| c in Diff(local, remote) && c.field == field { DiffMember(local, remote, c); }
    }
    forall c | c in Diff(local, remote)
      ensures c.local == FieldOf(local, c.field).GetOr("") && c.remote == FieldOf(remote, c.field).GetOr("")
    {
      DiffMember(local, remote, c);
    }
  }

  function ApplyChange(e: LockEntry, c: FieldChange): LockEntry {
    match c.field
    case Name => e.(name := c.remote)
    case Version => e.(version := c.remote)
    case NetworkField => e.(network := c.remote)
    case Hash => e.(hash := Some(c.remote))
    case Status => e.(status := Some(c.remote))
    case UpdatedAt => e.(updatedAt := Some(c.remote))
  }

  function ApplyChanges(e: LockEntry, changes: seq<FieldChange>): LockEntry
    decreases |changes|
  {
    if changes == [] then e else ApplyChanges(ApplyChange(e, changes[0]), changes[1..])
  }

  lemma {:induction false} ApplySplit(e: LockEntry, a: seq<FieldChange>, b: seq<FieldChange>)
    ensures ApplyChanges(e, a + b) == ApplyChanges(ApplyChanges(e, a), b)
    decreases |a|
  {
    if a == [] {
      assert a + b == b;
    } else {
      assert (a + b)[1..] == a[1..] + b;
      ApplySplit(ApplyChange(e, a[0]), a[1..], b);
    }
  }

  /** Equal fields, where an absent one counts as the empty string. */
  ghost predicate SameUpToAbsent(a: LockEntry, b: LockEntry) {
    && a.name == b.name && a.version == b.version && a.network == b.network
    && a.hash.GetOr("") == b.hash.GetOr("") && a.status.GetOr("") == b.status.GetOr("")
    && a.updatedAt.GetOr("") == b.updatedAt.GetOr("")
  }

  lemma {:induction false} ApplyOne(e: LockEntry, field: Field, local: Option<string>, remote: Option<string>)
    ensures ApplyChanges(e, ChangeIf(field, local, remote))
         == if local == remote then e else ApplyChange(e, FieldChange(field, local.GetOr(""), remote.GetOr("")))
  {
    if local != remote {
      var c := FieldChange(field, local.GetOr(""), remote.GetOr(""));
      assert [c][1..] == [];
    }
  }

  /** The reported changes are complete: applied to the local entry they give
      the remote one, except that an absent field may have become empty. */
  lemma {:induction false} DiffComplete(local: LockEntry, remote: LockEntry)
    ensures SameUpToAbsent(ApplyChanges(local, Diff(local, remote)), remote)
  {
    var c1 := ChangeIf(Name, Some(local.name), Some(remote.name));
    var c2 := ChangeIf(Version, Some(local.version), Some(remote.version));
    var c3 := ChangeIf(NetworkField, Some(local.network), Some(remote.network));
    var c4 := ChangeIf(Hash, local.hash, remote.hash);
    var c5 := ChangeIf(Status, local.status, remote.status);
    var c6 := ChangeIf(UpdatedAt, local.updatedAt, remote.updatedAt);
    ApplySplit(local, c1 + c2 + c3 + c4 + c5, c6);
    ApplySplit(local, c1 + c2 + c3 + c4, c5);
    ApplySplit(local, c1 + c2 + c3, c4);
    ApplySplit(local, c1 + c2, c3);
    ApplySplit(local, c1, c2);
    ApplyOne(local, Name, Some(local.name), Some(remote.name));
    var e1 := ApplyChanges(local, c1);
    ApplyOne(e1, Version, Some(local.version), Some(remote.version));
    var e2 := ApplyChanges(e1, c2);
    ApplyOne(e2, NetworkField, Some(local.network), Some(remote.network));
    var e3 := ApplyChanges(e2, c3);
    ApplyOne(e3, Hash, local.hash, remote.hash);
    var e4 := ApplyChanges(e3, c4);
    ApplyOne(e4, Status, local.status, remote.status);
    var e5 := ApplyChanges(e4, c5);
    ApplyOne(e5, UpdatedAt, local.updatedAt, remote.updatedAt);
  }

  // ---- whole lockfiles -------------------------------------------------------------

  predicate IdLe(a: Id, b: Id) {
    Text.LexLe(a.text, b.text)
  }

  /** The ids of a lockfile in ascending order. */
  ghost predicate InOrder(ids: seq<Id>, contracts: map<Id, LockEntry>) {
    && (forall id :: id in ids <==> id in contracts)
    && (forall i, j :: 0 <= i < j < |ids| ==> ids[i] != ids[j] && IdLe(ids[i], ids[j]))
  }

  function Removed(ids: seq<Id>, contracts: map<Id, LockEntry>, registry: Registry): seq<DriftEntry>
    requires forall id :: id in ids ==> id in contracts
  {
    if ids == [] then []
    else
      var last := ids[|ids| - 1];
      Removed(ids[..|ids| - 1], contracts, registry)
      + if registry(last).None? then [DriftEntry(last, contracts[last].name)] else []
  }

  function Changed(ids: seq<Id>, contracts: map<Id, LockEntry>, registry: Registry): seq<ChangedEntry>
    requires forall id :: id in ids ==> id in contracts
  {
    if ids == [] then []
    else
      var last := ids[|ids| - 1];
      Changed(ids[..|ids| - 1], contracts, registry)
      + if registry(last).Some? && Diff(contracts[last], registry(last).value) != []
        then [ChangedEntry(last, registry(last).value.name, Diff(contracts[last], registry(last).value))] else []
  }

  function Fixed(contracts: map<Id, LockEntry>, registry: Registry): map<Id, LockEntry> {
    map id | id in contracts :: registry(id).GetOr(contracts[id])
  }

  method SmallestId(ids: set<Id>) returns (least: Id)
    requires ids != {}
    ensures least in ids && forall id :: id in ids ==> IdLe(least, id)
  {
    least :| least in ids;
    var rest := ids - {least};
    Text.LexTotal(least.text, least.text);
    while rest != {}
      invariant rest <= ids && least in ids
      invariant forall id :: id in ids - rest ==> IdLe(least, id)
    {
      var id :| id in rest;
      Text.LexTotal(least.text, id.text);
      Text.LexTotal(id.text, id.text);
      if !IdLe(least, id) {
        forall other | other in ids - rest ensures IdLe(id, other) {
          Text.LexTransitive(id.text, least.text, other.text);
        }
        least := id;
      }
      rest := rest - {id};
    }
  }

  /** The ids in the order the lockfile's sorted map is walked. */
  method SortedIds(contracts: map<Id, LockEntry>) returns (ids: seq<Id>)
    ensures InOrder(ids, contracts)
  {
    ids := [];
    var rest := contracts.Keys;
    while rest != {}
      invariant rest <= contracts.Keys
      invariant forall id :: id in ids <==> id in contracts && id !in rest
      invariant forall i, j :: 0 <= i < j < |ids| ==> ids[i] != ids[j] && IdLe(ids[i], ids[j])
      invariant forall i, id :: 0 <= i < |ids| && id in rest ==> IdLe(ids[i], id)
    {
      var least := SmallestId(rest);
      forall i | 0 <= i < |ids| ensures ids[i] != least {
        assert ids[i] in ids;
      }
      ids := ids + [least];
      rest := rest - {least};
    }
  }

  ghost predicate RemovedListed(removed: seq<DriftEntry>, id: Id) {
    exists d :: d in removed && d.contractId == id
  }

  ghost predicate ChangedListed(changed: seq<ChangedEntry>, id: Id) {
    exists c :: c in changed && c.contractId == id
  }

  ghost predicate ChangeShown(c: ChangedEntry, contracts: map<Id, LockEntry>, registry: Registry) {
    && c.contractId in contracts && registry(c.contractId).Some? && c.name == registry(c.contractId).value.name
    && ShowsChanges(c.changes, contracts[c.contractId], registry(c.contractId).value)
  }

  lemma {:induction false} RemovedAre(ids: seq<Id>, contracts: map<Id, LockEntry>, registry: Registry)
    requires forall id :: id in ids ==> id in contracts
    ensures forall d :: d in Removed(ids, contracts, registry) <==>
      d.contractId in ids && registry(d.contractId).None? && d.name == contracts[d.contractId].name
  {
    if ids != [] {
      var front, last := ids[..|ids| - 1], ids[|ids| - 1];
      assert ids == front + [last];
      RemovedAre(front, contracts, registry);
    }
  }

  lemma {:induction false} ChangedAre(ids: seq<Id>, contracts: map<Id, LockEntry>, registry: Registry)
    requires forall id :: id in ids ==> id in contracts
    ensures forall c :: c in Changed(ids, contracts, registry) <==>
      && c.contractId in ids && registry(c.contractId).Some?
      && var local, remote := contracts[c.contractId], registry(c.contractId).value;
        Diff(local, remote) != [] && c.name == remote.name && c.changes == Diff(local, remote)
  {
    if ids != [] {
      var front, last := ids[..|ids| - 1], ids[|ids| - 1];
      assert ids == front + [last];
      ChangedAre(front, contracts, registry);
    }
  }

  /** A contract is listed as removed exactly if it is in the lockfile and cannot be
      fetched, with the name it has there, and as changed exactly if it was fetched
      and differs in one of the six fields, with exactly those fields. */
  ghost predicate DriftListed(removed: seq<DriftEntry>, changed: seq<ChangedEntry>, contracts: map<Id, LockEntry>,
                              registry: Registry) {
    && (forall id :: RemovedListed(removed, id) <==> id in contracts && registry(id).None?)
    && (forall d :: d in removed ==> d.contractId in contracts && d.name == contracts[d.contractId].name)
    && (forall id :: ChangedListed(changed, id) <==>
          id in contracts && registry(id).Some? && !SameFields(contracts[id], registry(id).value))
    && (forall c :: c in changed ==> ChangeShown(c, contracts, registry))
  }

  lemma {:induction false} RemovedWhen(ids: seq<Id>, contracts: map<Id, LockEntry>, registry: Registry)
    requires forall id :: id in ids <==> id in contracts
    ensures var removed := Removed(ids, contracts, registry);
      && (forall id :: RemovedListed(removed, id) <==> id in contracts && registry(id).None?)
      && (forall d :: d in removed ==> d.contractId in contracts && d.name == contracts[d.contractId].name)
  {
    var removed := Removed(ids, contracts, registry);
    RemovedAre(ids, contracts, registry);
    forall id ensures RemovedListed(removed, id) <==> id in contracts && registry(id).None? {
      if id in contracts && registry(id).None? {
        assert DriftEntry(id, contracts[id].name) in removed;
      }
    }
  }

  /** What an audit lists, of each contract. */
  lemma {:induction false} ReportedDrift(ids: seq<Id>, contracts: map<Id, LockEntry>, registry: Registry)
    requires forall id :: id in ids <==> id in contracts
    ensures DriftListed(Removed(ids, contracts, registry), Changed(ids, contracts, registry), contracts, registry)
  {
    RemovedWhen(ids, contracts, registry);
    var changed := Changed(ids, contracts, registry);
    forall id ensures ChangedListed(changed, id) <==>
      id in contracts && registry(id).Some? && !SameFields(contracts[id], registry(id).value)
    {
      ChangedWhen(ids, contracts, registry, id);
    }
    forall c | c in changed ensures ChangeShown(c, contracts, registry) {
      ChangedAre(ids, contracts, registry);
      DiffShows(contracts[c.contractId], registry(c.contractId).value);
    }
  }

  lemma {:induction false} ChangedWhen(ids: seq<Id>, contracts: map<Id, LockEntry>, registry: Registry, id: Id)
    requires forall id :: id in ids <==> id in contracts
    ensures ChangedListed(Changed(ids, contracts, registry), id) <==>
      id in contracts && registry(id).Some? && !SameFields(contracts[id], registry(id).value)
  {
    ChangedAre(ids, contracts, registry);
    if id in contracts && registry(id).Some? {
      var local, remote := contracts[id], registry(id).value;
      DiffEmpty(local, remote);
      if !SameFields(local, remote) {
        assert ChangedEntry(id, remote.name, Diff(local, remote)) in Changed(ids, contracts, registry);
      }
    }
  }

  /** The walk over the ids of a lockfile, each fetched and compared. */
  method CompareAll(ids: seq<Id>, contracts: map<Id, LockEntry>, registry: Registry)
      returns (removed: seq<DriftEntry>, changed: seq<ChangedEntry>)
    requires forall id :: id in ids ==> id in contracts
    ensures removed == Removed(ids, contracts, registry) && changed == Changed(ids, contracts, registry)
  {
    removed, changed := [], [];
    for i := 0 to |ids|
      invariant forall id :: id in ids[..i] ==> id in ids
      invariant changed == Changed(ids[..i], contracts, registry)
      invariant removed == Removed(ids[..i], contracts, registry)
    {
      var id := ids[i];
      assert id in ids && ids[..i + 1][..i] == ids[..i];
      var fetched := registry(id);
      match fetched {
        case Some(remote) =>
          var diffs := DiffEntries(contracts[id], remote);
          if diffs != [] {
            changed := changed + [ChangedEntry(id, remote.name, diffs)];
          }
        case None =>
          removed := removed + [DriftEntry(id, contracts[id].name)];
      }
    }
    assert ids[..|ids|] == ids;
  }

  method DetectDrift(lockfile: LockFile, registry: Registry) returns (report: DriftReport, ghost ids: seq<Id>)
    ensures InOrder(ids, lockfile.contracts)
    ensures report.removed == Removed(ids, lockfile.contracts, registry)
    ensures report.changed == Changed(ids, lockfile.contracts, registry)
    ensures report.audited == |lockfile.contracts|
    ensures report.hasDrift <==> report.changed != [] || report.removed != []
    ensures DriftListed(report.removed, report.changed, lockfile.contracts, registry)
  {
    var order := SortedIds(lockfile.contracts);
    ids := order;
    var removed, changed := CompareAll(order, lockfile.contracts, registry);
    ReportedDrift(order, lockfile.contracts, registry);
    report := DriftReport(removed, changed, |lockfile.contracts|, changed != [] || removed != []);
  }

  method ApplyFix(lockfile: LockFile, registry: Registry, apiUrl: string, now: string) returns (updated: LockFile)
    ensures updated == LockFile(lockfile.version, now, apiUrl, Fixed(lockfile.contracts, registry))
    ensures forall id :: id in updated.contracts <==> id in lockfile.contracts
    ensures forall id :: id in lockfile.contracts ==>
      updated.contracts[id] == if registry(id).Some? then registry(id).value else lockfile.contracts[id]
  {
    var order := SortedIds(lockfile.contracts);
    var contracts: map<Id, LockEntry> := map[];
    for i := 0 to |order|
      invariant forall id :: id in contracts <==> id in order[..i]
      invariant forall id :: id in contracts ==>
        id in lockfile.contracts && contracts[id] == registry(id).GetOr(lockfile.contracts[id])
    {
      var id := order[i];
      assert id in order && order[..i + 1] == order[..i] + [id];
      var fetched := registry(id);
      match fetched {
        case Some(entry) =>
          contracts := contracts[id := entry];
        case None =>
          contracts := contracts[id := lockfile.contracts[id]];
      }
    }
    assert order[..|order|] == order;
    assert contracts == Fixed(lockfile.contracts, registry);
    updated := LockFile(lockfile.version, now, apiUrl, contracts);
  }

  /** Fixing keeps the ids; afterwards an audit against the same registry finds
      no changes and the same removed contracts as before, and drift is left
      exactly when something was removed.  Fixing again changes no entry. */
  lemma {:induction false} FixSettles(contracts: map<Id, LockEntry>, registry: Registry, ids: seq<Id>)
    requires forall id :: id in ids ==> id in contracts
    ensures Fixed(contracts, registry).Keys == contracts.Keys
    ensures Fixed(Fixed(contracts, registry), registry) == Fixed(contracts, registry)
    ensures Changed(ids, Fixed(contracts, registry), registry) == []
    ensures Removed(ids, Fixed(contracts, registry), registry) == Removed(ids, contracts, registry)
  {
    if ids != [] {
      var last := ids[|ids| - 1];
      assert last in ids;
      FixSettles(contracts, registry, ids[..|ids| - 1]);
      if registry(last).Some? {
        DiffEmpty(registry(last).value, registry(last).value);
      }
    }
  }

  /** What an audit reports: drift exactly when some contract cannot be fetched
      or differs in one of the six fields. */
  lemma {:induction false} DriftMeans(contracts: map<Id, LockEntry>, registry: Registry, ids: seq<Id>)
    requires forall id :: id in ids ==> id in contracts
    ensures Removed(ids, contracts, registry) == [] <==> forall id :: id in ids ==> registry(id).Some?
    ensures Changed(ids, contracts, registry) == [] <==>
      forall id :: id in ids && registry(id).Some? ==> SameFields(contracts[id], registry(id).value)
  {
    if ids != [] {
      var last, front := ids[|ids| - 1], ids[..|ids| - 1];
      assert ids == front + [last];
      DriftMeans(contracts, registry, front);
      if registry(last).Some? {
        DiffEmpty(contracts[last], registry(last).value);
      }
    }
  }
}
