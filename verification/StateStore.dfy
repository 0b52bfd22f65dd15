/** The local contract state store: one file per network and contract holding
    the current values, a history log and snapshots of the values. */
module StateStore {
  import opened Wrappers
  import Text

  datatype Network = Mainnet | Testnet | Futurenet | Auto {
    function ToString(): string {
      match this
      case Mainnet => "mainnet"
      case Testnet => "testnet"
      case Futurenet => "futurenet"
      case Auto => "auto"
    }
  }

  /** A JSON value; all that matters about one is whether it is null. */
  datatype Json = Null | NonNull(text: string)

  type Values = map<string, Json>

  datatype HistoryEntry = HistoryEntry(
    id: string, timestamp: string, action: string, key: Option<string>,
    previous: Option<Json>, value: Option<Json>, note: Option<string>)

  datatype Snapshot = Snapshot(id: string, labelText: Option<string>, createdAt: string, entryCount: nat, state: Values)

  datatype Store = Store(
    contractId: string, network: string, values: Values, snapshots: seq<Snapshot>, history: seq<HistoryEntry>)

  datatype Slot = Slot(network: Network, fileName: string)

  datatype Error = MutationDisabled

  function NewStore(contractId: string, network: Network): Store {
    Store(contractId, network.ToString(), map[], [], [])
  }

  function SlotOf(contractId: string, network: Network): Slot {
    Slot(network, Text.Sanitize(contractId))
  }

  function Lookup(values: Values, key: string): Option<Json> {
    if key in values then Some(values[key]) else None
  }

  // ---- saving and loading --------------------------------------------------

  /** An optional JSON value written as null is read back as absent. */
  function ReadBack(value: Option<Json>): Option<Json> {
    if value == Some(Null) then None else value
  }

  function ReadBackEntry(e: HistoryEntry): HistoryEntry {
    e.(previous := ReadBack(e.previous), value := ReadBack(e.value))
  }

  /** What a saved store is when it is loaded again. */
  function Saved(store: Store): Store {
    store.(history := seq(|store.history|, i requires 0 <= i < |store.history| => ReadBackEntry(store.history[i])))
  }

  function RequireMutableNetwork(network: Network): Result<(), Error> {
    if network.Mainnet? then Err(MutationDisabled) else Ok(())
  }

  // ---- what the log says ---------------------------------------------------

  predicate IsSet(e: HistoryEntry) {
    e.action == "set" && e.key.Some?
  }

  /** The values that the set entries of a log produce from nothing. */
  function Replay(history: seq<HistoryEntry>): Values {
    if history == [] then map[]
    else
      var last, values := history[|history| - 1], Replay(history[..|history| - 1]);
      if IsSet(last) then values[last.key.value := last.value.GetOr(Null)] else values
  }

  /** The replayed values at each snapshot entry of the log. */
  function ReplayedSnapshots(history: seq<HistoryEntry>): seq<Values> {
    if history == [] then []
    else
      var front := history[..|history| - 1];
      ReplayedSnapshots(front) + if history[|history| - 1].action == "snapshot" then [Replay(front)] else []
  }

  function UndoEntry(values: Values, e: HistoryEntry): Values {
    if !IsSet(e) then values
    else if e.previous.Some? then values[e.key.value := e.previous.value]
    else values - {e.key.value}
  }

  /** Undoes the log from its end back to position `i`. */
  function UndoTo(history: seq<HistoryEntry>, values: Values, i: nat): Values
    decreases |history|
  {
    if |history| <= i then values
    else UndoTo(history[..|history| - 1], UndoEntry(values, history[|history| - 1]), i)
  }

  /** What `state history` lists: the newest `limit` entries, of one key if given. */
  function HistoryView(history: seq<HistoryEntry>, filter: Option<string>, limit: nat): seq<HistoryEntry> {
    if history == [] || limit == 0 then []
    else
      var last, front := history[|history| - 1], history[..|history| - 1];
      if filter.Some? && last.key != filter then HistoryView(front, filter, limit)
      else [last] + HistoryView(front, filter, limit - 1)
  }

  /** The log accounts for the values: replaying it gives them, and each set
      entry records the replayed value just before it, as far as a file can. */
  ghost predicate LogExplains(store: Store) {
    && Replay(store.history) == store.values
    && (forall i :: 0 <= i < |store.history| && store.history[i].key.Some? ==> IsSet(store.history[i]))
    && forall i :: 0 <= i < |store.history| && IsSet(store.history[i]) ==>
         store.history[i].previous == ReadBack(Lookup(Replay(store.history[..i]), store.history[i].key.value))
  }

  /** The i-th snapshot is the replayed log up to the i-th snapshot entry. */
  ghost predicate SnapshotsExplained(store: Store) {
    var replayed := ReplayedSnapshots(store.history);
    && |store.snapshots| == |replayed|
    && forall i :: 0 <= i < |replayed| ==>
         store.snapshots[i].state == replayed[i] && store.snapshots[i].entryCount == |replayed[i]|
  }

  /** Nothing was ever set. */
  ghost predicate Untouched(store: Store) {
    store.values == map[] && forall i :: 0 <= i < |store.snapshots| ==> store.snapshots[i].state == map[]
  }

  ghost predicate Consistent(slot: Slot, store: Store) {
    && SlotOf(store.contractId, slot.network) == slot
    && LogExplains(store)
    && SnapshotsExplained(store)
    && (slot.network.Mainnet? ==> Untouched(store))
  }

  // ---- the operations --------------------------------------------------------

  function SetEntry(store: Store, key: string, value: Json, id: string, timestamp: string, remote: bool): HistoryEntry {
    HistoryEntry(id, timestamp, "set", Some(key), Lookup(store.values, key), Some(value),
                 Some(if remote then "remote + local" else "local"))
  }

  function AfterSet(store: Store, key: string, entry: HistoryEntry): Store
    requires entry.value.Some?
  {
    store.(values := store.values[key := entry.value.value], history := store.history + [ReadBackEntry(entry)])
  }

  function AfterSnapshot(store: Store, snapshot: Snapshot, entry: HistoryEntry): Store {
    store.(snapshots := store.snapshots + [snapshot], history := store.history + [ReadBackEntry(entry)])
  }

  /** The store an operation on a contract starts from. */
  function Loaded(files: map<Slot, Store>, contractId: string, network: Network): Store {
    var slot := SlotOf(contractId, network);
    if slot !in files then NewStore(contractId, network)
    else
      var store := files[slot];
      store.(contractId := if store.contractId == "" then contractId else store.contractId,
             network := if store.network == "" then network.ToString() else store.network)
  }

  /** Nothing but this one file was written. */
  ghost predicate OnlyAt(before: map<Slot, Store>, after: map<Slot, Store>, slot: Slot) {
    && slot in after
    && (forall other :: other != slot ==> (other in after <==> other in before))
    && (forall other :: other != slot && other in after ==> after[other] == before[other])
  }

  /** After a set: one value changed, and one more entry in the log that says so,
      with the value before it unless that was null. */
  ghost predicate SetDone(before: Store, after: Store, key: string, newValue: Json, id: string, timestamp: string) {
    && key in after.values && after.values[key] == newValue
    && (forall k :: k != key ==> (k in after.values <==> k in before.values))
    && (forall k :: k != key && k in after.values ==> after.values[k] == before.values[k])
    && after.snapshots == before.snapshots
    && |after.history| == |before.history| + 1 && after.history[..|before.history|] == before.history
    && var e := after.history[|before.history|];
    && e.id == id && e.timestamp == timestamp && e.action == "set" && e.key == Some(key)
    && (newValue != Null ==> e.value == Some(newValue))
    && (key in before.values && before.values[key] != Null ==> e.previous == Some(before.values[key]))
    && (key !in before.values ==> e.previous == None)
  }

  /** After a snapshot: the same values, one more snapshot of them, and one more
      entry in the log. */
  ghost predicate SnapshotDone(before: Store, after: Store, snapshotId: string, labelText: Option<string>,
                               createdAt: string, entryId: string, timestamp: string) {
    && after.values == before.values
    && after.snapshots == before.snapshots + [Snapshot(snapshotId, labelText, createdAt, |before.values|, before.values)]
    && |after.history| == |before.history| + 1 && after.history[..|before.history|] == before.history
    && var e := after.history[|before.history|];
    && e.id == entryId && e.timestamp == timestamp && e.action == "snapshot" && e.key == None && e.note == labelText
  }

  class StateDir {
    var files: map<Slot, Store>

    /** Every file is consistent and holds what it will be read back as. */
    ghost predicate Valid()
      reads this
    {
      AllConsistent(files)
    }

    constructor ()
      ensures Valid() && files == map[]
    {
      files := map[];
    }

    method LoadLocalState(contractId: string, network: Network) returns (store: Store)
      ensures store == Loaded(files, contractId, network)
    {
      var slot := SlotOf(contractId, network);
      if slot !in files {
        return NewStore(contractId, network);
      }
      store := files[slot];
      if store.contractId == "" {
        store := store.(contractId := contractId);
      }
      if store.network == "" {
        store := store.(network := network.ToString());
      }
    }

    method SaveLocalState(store: Store, network: Network)
      modifies this
      ensures files == old(files)[SlotOf(store.contractId, network) := Saved(store)]
    {
      files := files[SlotOf(store.contractId, network) := Saved(store)];
    }

    method StateSet(contractId: string, key: string, newValue: Json, network: Network,
                    remoteApplied: bool, id: string, timestamp: string) returns (result: Result<(), Error>)
      requires Valid()
      modifies this
      ensures Valid()
      ensures result.Err? <==> network.Mainnet?
      ensures result.Err? ==> files == old(files)
      ensures result.Ok? ==>
        var store := Loaded(old(files), contractId, network);
        files == old(files)[SlotOf(contractId, network) :=
                              AfterSet(store, key, SetEntry(store, key, newValue, id, timestamp, remoteApplied))]
      ensures result.Ok? ==>
        var slot := SlotOf(contractId, network);
        && OnlyAt(old(files), files, slot)
        && SetDone(if slot in old(files) then old(files)[slot] else NewStore(contractId, network), files[slot],
                   key, newValue, id, timestamp)
    {
      result := RequireMutableNetwork(network);
      if result.Err? {
        return;
      }
      var store := LoadLocalState(contractId, network);
      ghost var before := store;
      LoadedConsistent(files, contractId, network);
      var previous := Lookup(store.values, key);
      store := store.(values := store.values[key := newValue]);
      store := store.(history := store.history + [HistoryEntry(id, timestamp, "set", Some(key), previous, Some(newValue),
        Some(if remoteApplied then "remote + local" else "local"))]);
      ghost var entry := SetEntry(before, key, newValue, id, timestamp, remoteApplied);
      SavedSnoc(before, store, entry);
      assert Saved(store) == AfterSet(before, key, entry);
      SetConsistent(SlotOf(contractId, network), before, key, entry);
      Replaced(files, SlotOf(contractId, network), Saved(store));
      SetIsDone(files, contractId, network, key, newValue, id, timestamp, remoteApplied);
      SaveLocalState(store, network);
    }

    method StateSnapshotCreate(contractId: string, network: Network, labelText: Option<string>,
                               snapshotId: string, entryId: string, createdAt: string, timestamp: string)
      requires Valid()
      modifies this
      ensures Valid()
      ensures var store := Loaded(old(files), contractId, network);
        files == old(files)[SlotOf(contractId, network) :=
          AfterSnapshot(store, Snapshot(snapshotId, labelText, createdAt, |store.values|, store.values),
                        HistoryEntry(entryId, timestamp, "snapshot", None, None, None, labelText))]
      ensures var slot := SlotOf(contractId, network);
        && OnlyAt(old(files), files, slot)
        && SnapshotDone(if slot in old(files) then old(files)[slot] else NewStore(contractId, network), files[slot],
                        snapshotId, labelText, createdAt, entryId, timestamp)
    {
      var store := LoadLocalState(contractId, network);
      ghost var before := store;
      LoadedConsistent(files, contractId, network);
      var snapshot := Snapshot(snapshotId, labelText, createdAt, |store.values|, store.values);
      var entry := HistoryEntry(entryId, timestamp, "snapshot", None, None, None, snapshot.labelText);
      store := store.(history := store.history + [entry]);
      store := store.(snapshots := store.snapshots + [snapshot]);
      SavedSnoc(before, store, entry);
      assert Saved(store) == AfterSnapshot(before, snapshot, entry);
      SnapshotConsistent(SlotOf(contractId, network), before, snapshot, entry);
      Replaced(files, SlotOf(contractId, network), Saved(store));
      SnapshotIsDone(files, contractId, network, snapshotId, labelText, createdAt, entryId, timestamp);
      SaveLocalState(store, network);
    }
  }

  lemma {:induction false} SetIsDone(files: map<Slot, Store>, contractId: string, network: Network, key: string,
                                     newValue: Json, id: string, timestamp: string, remote: bool)
    ensures var slot, store := SlotOf(contractId, network), Loaded(files, contractId, network);
      var after := AfterSet(store, key, SetEntry(store, key, newValue, id, timestamp, remote));
      && SetDone(if slot in files then files[slot] else NewStore(contractId, network), after, key, newValue, id, timestamp)
      && OnlyAt(files, files[slot := after], slot)
  {
  }

  lemma {:induction false} SnapshotIsDone(files: map<Slot, Store>, contractId: string, network: Network, snapshotId: string,
                                          labelText: Option<string>, createdAt: string, entryId: string, timestamp: string)
    ensures var slot, store := SlotOf(contractId, network), Loaded(files, contractId, network);
      var after := AfterSnapshot(store, Snapshot(snapshotId, labelText, createdAt, |store.values|, store.values),
                                 HistoryEntry(entryId, timestamp, "snapshot", None, None, None, labelText));
      && SnapshotDone(if slot in files then files[slot] else NewStore(contractId, network), after,
                      snapshotId, labelText, createdAt, entryId, timestamp)
      && OnlyAt(files, files[slot := after], slot)
  {
  }

  ghost predicate AllConsistent(files: map<Slot, Store>) {
    forall slot :: slot in files ==> Consistent(slot, files[slot]) && Saved(files[slot]) == files[slot]
  }

  lemma {:induction false} Replaced(files: map<Slot, Store>, slot: Slot, store: Store)
    requires AllConsistent(files) && Consistent(slot, store) && Saved(store) == store
    ensures AllConsistent(files[slot := store])
  {
  }

  /** What is loaded is consistent, and will be saved where it came from. */
  lemma {:induction false} LoadedConsistent(files: map<Slot, Store>, contractId: string, network: Network)
    requires AllConsistent(files)
    ensures var store := Loaded(files, contractId, network);
      Consistent(SlotOf(contractId, network), store) && Saved(store) == store
  {
    var slot := SlotOf(contractId, network);
    if slot in files && files[slot].contractId == "" {
      assert Text.Sanitize("") == "";
      assert |Text.Sanitize(contractId)| == |contractId| == 0;
    }
  }

  /** Two contracts share a state file exactly on one network and with ids that
      differ only in characters a file name does not keep. */
  lemma {:induction false} SameSlot(a: string, n: Network, b: string, m: Network)
    ensures SlotOf(a, n) == SlotOf(b, m)
       <==> n == m && |a| == |b| && forall i :: 0 <= i < |a| ==>
              a[i] == b[i] || ((a[i] == '_' || !Text.IsFileNameChar(a[i])) && (b[i] == '_' || !Text.IsFileNameChar(b[i])))
  {
    var s, t := Text.Sanitize(a), Text.Sanitize(b);
    assert s == t <==> |s| == |t| && forall i :: 0 <= i < |s| ==> s[i] == t[i];
  }

  /** Loading after saving: every id of the same file gets what was saved, read
      back, if and only if the saved store names a network. */
  lemma {:induction false} LoadedBack(files: map<Slot, Store>, store: Store, network: Network, contractId: string)
    requires SlotOf(contractId, network) == SlotOf(store.contractId, network)
    ensures Loaded(files[SlotOf(store.contractId, network) := Saved(store)], contractId, network) == Saved(store)
       <==> store.network != ""
  {
    if store.contractId == "" {
      assert |Text.Sanitize(contractId)| == |contractId| == 0;
    }
    assert network.ToString() != "";
  }

  lemma {:induction false} SavedSnoc(before: Store, after: Store, entry: HistoryEntry)
    requires Saved(before) == before && after.history == before.history + [entry]
    ensures Saved(after) == after.(history := before.history + [ReadBackEntry(entry)])
    ensures Saved(after.(history := before.history + [ReadBackEntry(entry)]))
         == after.(history := before.history + [ReadBackEntry(entry)])
  {
    var h := before.history;
    assert forall i :: 0 <= i < |h| ==> ReadBackEntry(h[i]) == Saved(before).history[i] == h[i];
    assert Saved(after).history == h + [ReadBackEntry(entry)];
    assert Saved(after.(history := h + [ReadBackEntry(entry)])).history == h + [ReadBackEntry(entry)];
  }

  lemma {:induction false} ReplaySnoc(history: seq<HistoryEntry>, e: HistoryEntry)
    ensures Replay(history + [e])
         == if IsSet(e) then Replay(history)[e.key.value := e.value.GetOr(Null)] else Replay(history)
    ensures ReplayedSnapshots(history + [e])
         == ReplayedSnapshots(history) + if e.action == "snapshot" then [Replay(history)] else []
  {
    assert (history + [e])[..|history|] == history;
  }

  lemma {:induction false} LogExplainsSnoc(store: Store, values: Values, e: HistoryEntry, after: Store)
    requires LogExplains(store)
    requires after.history == store.history + [e] && after.values == values
    requires Replay(after.history) == values
    requires e.key.Some? ==> IsSet(e)
    requires IsSet(e) ==> e.previous == ReadBack(Lookup(store.values, e.key.value))
    ensures LogExplains(after)
  {
    forall i | 0 <= i < |after.history| && IsSet(after.history[i])
      ensures after.history[i].previous == ReadBack(Lookup(Replay(after.history[..i]), after.history[i].key.value))
    {
      if i < |store.history| {
        assert after.history[..i] == store.history[..i];
      } else {
        assert after.history[..i] == store.history;
      }
    }
  }

  lemma {:induction false} SetConsistent(slot: Slot, store: Store, key: string, entry: HistoryEntry)
    requires Consistent(slot, store) && !slot.network.Mainnet?
    requires IsSet(entry) && entry.key == Some(key) && entry.value.Some?
    requires entry.previous == Lookup(store.values, key)
    ensures Consistent(slot, AfterSet(store, key, entry))
  {
    var e, after := ReadBackEntry(entry), AfterSet(store, key, entry);
    ReplaySnoc(store.history, e);
    LogExplainsSnoc(store, after.values, e, after);
    assert e.action != "snapshot";
  }

  lemma {:induction false} SnapshotConsistent(slot: Slot, store: Store, snapshot: Snapshot, entry: HistoryEntry)
    requires Consistent(slot, store) && entry.action == "snapshot" && entry.key.None?
    requires snapshot.state == store.values && snapshot.entryCount == |store.values|
    ensures Consistent(slot, AfterSnapshot(store, snapshot, entry))
  {
    var e, after := ReadBackEntry(entry), AfterSnapshot(store, snapshot, entry);
    ReplaySnoc(store.history, e);
    LogExplainsSnoc(store, after.values, e, after);
  }

  // ---- undoing the log -------------------------------------------------------

  /** `some` is `all` without some of the keys that `all` maps to null. */
  ghost predicate UpToNulls(some: Values, all: Values) {
    && (forall k :: k in some ==> k in all && some[k] == all[k])
    && (forall k :: k in all && all[k] != Null ==> k in some)
  }

  lemma {:induction false} UndoOne(store: Store, values: Values, i: nat)
    requires LogExplains(store) && i < |store.history|
    requires UpToNulls(values, Replay(store.history[..i + 1]))
    ensures UpToNulls(UndoEntry(values, store.history[i]), Replay(store.history[..i]))
  {
    assert store.history[..i + 1] == store.history[..i] + [store.history[i]];
    ReplaySnoc(store.history[..i], store.history[i]);
  }

  lemma {:induction false} UndoFrom(store: Store, values: Values, n: nat, i: nat)
    requires LogExplains(store) && i <= n <= |store.history|
    requires UpToNulls(values, Replay(store.history[..n]))
    ensures UpToNulls(UndoTo(store.history[..n], values, i), Replay(store.history[..i]))
    decreases n
  {
    if i < n {
      assert store.history[..n][..n - 1] == store.history[..n - 1];
      UndoOne(store, values, n - 1);
      UndoFrom(store, UndoEntry(values, store.history[n - 1]), n - 1, i);
    }
  }

  /** Undoing the log passes through every earlier state, up to keys that held
      null, and always ends at the empty store. */
  lemma {:induction false} UndoPassesThrough(store: Store, i: nat)
    requires LogExplains(store) && i <= |store.history|
    ensures UpToNulls(UndoTo(store.history, store.values, i), Replay(store.history[..i]))
    ensures UndoTo(store.history, store.values, 0) == map[]
  {
    assert store.history[..|store.history|] == store.history;
    UndoFrom(store, store.values, |store.history|, i);
    UndoFrom(store, store.values, |store.history|, 0);
    assert Replay(store.history[..0]) == map[];
  }

  /** No set entry overwrites a null. */
  ghost predicate NoNullOverwritten(history: seq<HistoryEntry>) {
    forall i :: 0 <= i < |history| && IsSet(history[i]) ==>
      Lookup(Replay(history[..i]), history[i].key.value) != Some(Null)
  }

  lemma {:induction false} UndoLastExact(store: Store, n: nat)
    requires LogExplains(store) && n < |store.history| && NoNullOverwritten(store.history)
    ensures UndoEntry(Replay(store.history[..n + 1]), store.history[n]) == Replay(store.history[..n])
  {
    var front, e := store.history[..n], store.history[n];
    assert store.history[..n + 1] == front + [e];
    ReplaySnoc(front, e);
  }

  lemma {:induction false} UndoExactFrom(store: Store, n: nat, i: nat)
    requires LogExplains(store) && i <= n <= |store.history| && NoNullOverwritten(store.history)
    ensures UndoTo(store.history[..n], Replay(store.history[..n]), i) == Replay(store.history[..i])
    decreases n
  {
    if i < n {
      UndoLastExact(store, n - 1);
      UndoExactFrom(store, n - 1, i);
      assert store.history[..n][..n - 1] == store.history[..n - 1];
    }
  }

  lemma {:induction false} UndoSplit(history: seq<HistoryEntry>, values: Values, i: nat)
    requires i < |history|
    ensures UndoTo(history, values, i) == UndoEntry(UndoTo(history, values, i + 1), history[i])
  {
    if i + 1 < |history| {
      UndoSplit(history[..|history| - 1], UndoEntry(values, history[|history| - 1]), i);
    }
  }

  /** Undoing restores every earlier state exactly if and only if no null was
      ever overwritten: a saved log cannot tell a previous null from none. */
  lemma {:induction false} UndoExactly(store: Store)
    requires LogExplains(store)
    ensures (forall i :: 0 <= i <= |store.history| ==>
               UndoTo(store.history, store.values, i) == Replay(store.history[..i]))
       <==> NoNullOverwritten(store.history)
  {
    var h := store.history;
    assert h[..|h|] == h;
    if NoNullOverwritten(h) {
      forall i | 0 <= i <= |h| ensures UndoTo(h, store.values, i) == Replay(h[..i]) {
        UndoExactFrom(store, |h|, i);
      }
    } else {
      var i :| 0 <= i < |h| && IsSet(h[i]) && Lookup(Replay(h[..i]), h[i].key.value) == Some(Null);
      UndoSplit(h, store.values, i);
      assert h[i].previous == None;
      assert h[i].key.value !in UndoTo(h, store.values, i);
    }
  }

  /** Whenever a set overwrites a null, undoing it takes the key away. */
  lemma {:induction false} NullLost(store: Store, key: string, value: Json, id: string, timestamp: string, remote: bool)
    requires Lookup(store.values, key) == Some(Null)
    ensures var after := AfterSet(store, key, SetEntry(store, key, value, id, timestamp, remote));
      && UndoTo(after.history, after.values, |store.history|) == store.values - {key}
      && store.values - {key} != store.values
  {
    var e := ReadBackEntry(SetEntry(store, key, value, id, timestamp, remote));
    var after := AfterSet(store, key, SetEntry(store, key, value, id, timestamp, remote));
    assert after.history[..|after.history| - 1] == store.history && after.history[|after.history| - 1] == e;
    assert UndoEntry(after.values, e) == store.values - {key};
    assert UndoTo(store.history, store.values - {key}, |store.history|) == store.values - {key};
  }

  /** The newest entry that the history shows for a key holds its current value. */
  lemma {:induction false} NewestIsCurrent(store: Store, key: string, limit: nat)
    requires LogExplains(store) && limit >= 1
    ensures var view := HistoryView(store.history, Some(key), limit);
      if key in store.values then view != [] && view[0].value.GetOr(Null) == store.values[key]
      else view == []
  {
    NewestOf(store.history, key, limit);
  }

  lemma {:induction false} NewestOf(history: seq<HistoryEntry>, key: string, limit: nat)
    requires limit >= 1
    requires forall i :: 0 <= i < |history| && history[i].key.Some? ==> IsSet(history[i])
    ensures var view := HistoryView(history, Some(key), limit);
      if key in Replay(history) then view != [] && view[0].value.GetOr(Null) == Replay(history)[key]
      else view == []
  {
    if history != [] {
      NewestOf(history[..|history| - 1], key, limit);
    }
  }

  ghost predicate Shown(e: HistoryEntry, filter: Option<string>) {
    filter.None? || e.key == filter
  }

  /** `at` are the places of the entries of a view, from the newest to the oldest. */
  ghost predicate PlacedAt(view: seq<HistoryEntry>, history: seq<HistoryEntry>, filter: Option<string>, at: seq<nat>) {
    && |view| == |at|
    && (forall a :: 0 <= a < |at| ==> at[a] < |history| && view[a] == history[at[a]] && Shown(view[a], filter))
    && (forall a, b :: 0 <= a < b < |at| ==> at[a] > at[b])
  }

  /** No entry for the key is left out before the limit is reached. */
  ghost predicate NoneMissed(history: seq<HistoryEntry>, filter: Option<string>, limit: nat, at: seq<nat>) {
    && |at| <= limit
    && (|at| < limit ==> forall i: nat :: i < |history| && Shown(history[i], filter) ==> i in at)
    && (forall i: nat, a :: 0 <= a < |at| && at[a] < i < |history| && Shown(history[i], filter) ==> i in at)
  }

  lemma {:induction false} PlacedNext(view: seq<HistoryEntry>, front: seq<HistoryEntry>, e: HistoryEntry,
                                      filter: Option<string>, at: seq<nat>)
    requires PlacedAt(view, front, filter, at)
    ensures PlacedAt(view, front + [e], filter, at)
    ensures Shown(e, filter) ==> PlacedAt([e] + view, front + [e], filter, [|front|] + at)
  {
  }

  lemma {:induction false} NoneMissedNext(front: seq<HistoryEntry>, e: HistoryEntry, filter: Option<string>, limit: nat,
                                          at: seq<nat>)
    requires NoneMissed(front, filter, limit, at)
    requires forall a :: 0 <= a < |at| ==> at[a] < |front|
    ensures !Shown(e, filter) ==> NoneMissed(front + [e], filter, limit, at)
    ensures NoneMissed(front + [e], filter, limit + 1, [|front|] + at)
  {
    var at' := [|front|] + at;
    assert forall i: nat :: i in at' <==> i == |front| || i in at;
    forall i: nat, a | 0 <= a < |at'| && at'[a] < i < |front + [e]| && Shown((front + [e])[i], filter)
      ensures i in at'
    {
      if i < |front| { assert at'[a] == at[a - 1]; }
    }
  }

  /** What `state history` shows: from the newest to the oldest, exactly the entries
      for the key, or all of them, and no more than the limit. */
  lemma {:induction false} HistoryViewIs(history: seq<HistoryEntry>, filter: Option<string>, limit: nat)
      returns (at: seq<nat>)
    ensures PlacedAt(HistoryView(history, filter, limit), history, filter, at) && NoneMissed(history, filter, limit, at)
  {
    if history == [] || limit == 0 {
      at := [];
    } else {
      var front, e := history[..|history| - 1], history[|history| - 1];
      assert history == front + [e];
      var limit' := if Shown(e, filter) then limit - 1 else limit;
      at := HistoryViewIs(front, filter, limit');
      PlacedNext(HistoryView(front, filter, limit'), front, e, filter, at);
      NoneMissedNext(front, e, filter, limit', at);
      if Shown(e, filter) {
        at := [|front|] + at;
      }
    }
  }
}
