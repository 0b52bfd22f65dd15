/** The `batch-update` command: which contracts are updated and with what, and
    what the report says of them. */
module BatchUpdate {
  import opened Wrappers
  import opened Sequences
  import opened ChunkDispatch
  import Text

  datatype ContractId = ContractId(text: string)

  datatype Metadata = Metadata(
    name: Option<string>, description: Option<string>, category: Option<string>, tags: Option<seq<string>>)

  datatype Entry = Entry(contractId: ContractId, fields: Metadata)

  datatype Manifest = Manifest(metadata: Metadata, contracts: seq<Entry>, changeSummary: Option<string>)

  datatype Item = Item(contractId: ContractId, fields: Metadata, changeSummary: Option<string>)

  /** The registry's verdict on one item. */
  datatype ItemResult = ItemResult(contractId: ContractId, ok: bool, rollbackVersionId: Option<string>, error: Option<string>)

  /** Written "updated", "rolled_back", "failed", "skipped" and "preview". */
  datatype Status = Updated | RolledBack | Failed | Skipped | Preview

  datatype ReportLine = ReportLine(contractId: ContractId, status: Status, error: Option<string>)

  /** `--if field=value`; `actual` is the field's text in the registry, empty if
      the field is missing, and None if the contract cannot be fetched. */
  datatype Condition = Condition(value: string, actual: ContractId -> Option<string>)

  datatype Report = Report(
    preview: bool, total: nat, updated: nat, skipped: nat, failed: nat, rolledBack: nat, lines: seq<ReportLine>)

  datatype Error<E> =
    | NothingSelected
    | LoadFailed(error: E)
    | LookupFailed(error: E)
    | NothingResolved
    | BadCondition
    | DispatchFailed(error: E)

  function EntryId(e: Entry): ContractId { e.contractId }
  function ItemId(i: Item): ContractId { i.contractId }
  function ResultId(r: ItemResult): ContractId { r.contractId }
  function LineId(l: ReportLine): ContractId { l.contractId }

  // ---- which contracts ----------------------------------------------------------

  function Resolved(entries: seq<Entry>, filterIds: seq<ContractId>): seq<ContractId> {
    KeepFirst(Apply(EntryId, entries) + filterIds, Itself, {})
  }

  method DeduplicateIds(ids: seq<ContractId>) returns (deduped: seq<ContractId>)
    ensures deduped == KeepFirst(ids, Itself, {})
  {
    var seen: set<ContractId> := {};
    deduped := [];
    for n := 0 to |ids|
      invariant deduped == KeepFirst(ids[..n], Itself, {})
      invariant seen == Keys(ids[..n], Itself)
    {
      NextId(ids, n);
      if ids[n] !in seen {
        seen := seen + {ids[n]};
        deduped := deduped + [ids[n]];
      }
    }
    assert ids[..|ids|] == ids;
  }

  lemma {:induction false} NextId(ids: seq<ContractId>, n: nat)
    requires n < |ids|
    ensures var known := Keys(ids[..n], Itself);
      && KeepFirst(ids[..n + 1], Itself, {})
           == KeepFirst(ids[..n], Itself, {}) + (if ids[n] in known then [] else [ids[n]])
      && Keys(ids[..n + 1], Itself) == known + {ids[n]}
  {
    var front := ids[..n];
    assert ids[..n + 1] == front + [ids[n]];
    KeepFirstAppend(front, [ids[n]], Itself, {});
    assert {} + Keys(front, Itself) == Keys(front, Itself);
    KeepFirstOne(ids[n], Itself, Keys(front, Itself));
    KeysAppend(front, [ids[n]], Itself);
    assert Keys([ids[n]], Itself) == {ids[n]} by { assert Itself([ids[n]][0]) == Some(ids[n]); }
  }

  lemma {:induction false} ResolvedOnce(entries: seq<Entry>, filterIds: seq<ContractId>)
    ensures Distinct(Resolved(entries, filterIds))
  {
    var ids := Resolved(entries, filterIds);
    KeepFirstKeys(Apply(EntryId, entries) + filterIds, Itself, {});
    forall i, j | 0 <= i < j < |ids| ensures ids[i] != ids[j] {
      assert Itself(ids[i]) != Itself(ids[j]);
    }
  }

  // ---- with what ----------------------------------------------------------------

  /** `k` is the last entry of a manifest for an id, which is the one that counts. */
  ghost predicate LastFor(entries: seq<Entry>, id: ContractId, k: nat) {
    && k < |entries| && entries[k].contractId == id
    && forall j :: k < j < |entries| ==> entries[j].contractId != id
  }

  ghost predicate OverridesOf(entries: seq<Entry>, overrides: map<ContractId, Metadata>) {
    && (forall e :: e in entries ==> e.contractId in overrides)
    && forall id :: id in overrides ==> LastFields(entries, id, overrides[id])
  }

  method Overrides(entries: seq<Entry>) returns (overrides: map<ContractId, Metadata>)
    ensures OverridesOf(entries, overrides)
  {
    overrides := map[];
    for n := 0 to |entries|
      invariant OverridesOf(entries[..n], overrides)
    {
      NextOverride(entries, n, overrides);
      overrides := overrides[entries[n].contractId := entries[n].fields];
    }
    assert entries[..|entries|] == entries;
  }

  ghost predicate LastFields(entries: seq<Entry>, id: ContractId, fields: Metadata) {
    exists k: nat :: LastFor(entries, id, k) && fields == entries[k].fields
  }

  lemma {:induction false} LastFieldsKept(front: seq<Entry>, e: Entry, id: ContractId, fields: Metadata)
    requires LastFields(front, id, fields) && id != e.contractId
    ensures LastFields(front + [e], id, fields)
  {
    var k: nat :| LastFor(front, id, k) && fields == front[k].fields;
    assert LastFor(front + [e], id, k);
  }

  lemma {:induction false} NextOverride(entries: seq<Entry>, n: nat, overrides: map<ContractId, Metadata>)
    requires n < |entries| && OverridesOf(entries[..n], overrides)
    ensures OverridesOf(entries[..n + 1], overrides[entries[n].contractId := entries[n].fields])
  {
    var front, e := entries[..n], entries[n];
    var more, overrides' := front + [e], overrides[e.contractId := e.fields];
    assert entries[..n + 1] == more;
    assert LastFor(more, e.contractId, n) && more[n] == e;
    forall id | id in overrides' ensures LastFields(more, id, overrides'[id]) {
      if id != e.contractId { LastFieldsKept(front, e, id, overrides[id]); }
    }
  }

  /** What an entry gives wins over what the manifest shares. */
  predicate Wins<T(==)>(own: Option<T>, shared: Option<T>, field: Option<T>) {
    if own.Some? then field == own else field == shared
  }

  /** ... field by field. */
  predicate Overridden(own: Metadata, shared: Metadata, fields: Metadata) {
    && Wins(own.name, shared.name, fields.name) && Wins(own.description, shared.description, fields.description)
    && Wins(own.category, shared.category, fields.category) && Wins(own.tags, shared.tags, fields.tags)
  }

  /** The item built for a contract: shared metadata under that of its last entry. */
  ghost predicate ItemFor(manifest: Manifest, id: ContractId, item: Item) {
    && item.contractId == id && item.changeSummary == manifest.changeSummary
    && ((forall e :: e in manifest.contracts ==> e.contractId != id) ==> item.fields == manifest.metadata)
    && forall k: nat :: LastFor(manifest.contracts, id, k) ==>
         Overridden(manifest.contracts[k].fields, manifest.metadata, item.fields)
  }

  /** The condition is known not to hold; an unreachable contract is updated. */
  predicate Unmet(condition: Option<Condition>, id: ContractId) {
    && condition.Some? && condition.value.actual(id).Some?
    && condition.value.actual(id).value != condition.value.value
  }

  function Wanted(ids: seq<ContractId>, condition: Option<Condition>): seq<ContractId> {
    if ids == [] then []
    else
      var last := ids[|ids| - 1];
      Wanted(ids[..|ids| - 1], condition) + if Unmet(condition, last) then [] else [last]
  }

  method BuildItem(manifest: Manifest, overrides: map<ContractId, Metadata>, id: ContractId) returns (item: Item)
    requires OverridesOf(manifest.contracts, overrides)
    ensures ItemFor(manifest, id, item)
  {
    var shared := manifest.metadata;
    if id in overrides {
      var own := overrides[id];
      item := Item(id, Metadata(OrElse(own.name, shared.name), OrElse(own.description, shared.description),
                                OrElse(own.category, shared.category), OrElse(own.tags, shared.tags)),
                   manifest.changeSummary);
      ghost var k: nat :| LastFor(manifest.contracts, id, k) && own == manifest.contracts[k].fields;
      assert manifest.contracts[k] in manifest.contracts;
      forall m: nat | LastFor(manifest.contracts, id, m) ensures m == k {
      }
    } else {
      item := Item(id, shared, manifest.changeSummary);
      forall k | 0 <= k < |manifest.contracts| ensures manifest.contracts[k].contractId != id {
        assert manifest.contracts[k] in manifest.contracts;
      }
    }
  }

  ghost predicate ItemsFor(manifest: Manifest, items: seq<Item>) {
    forall i :: 0 <= i < |items| ==> ItemFor(manifest, items[i].contractId, items[i])
  }

  method BuildItems(manifest: Manifest, ids: seq<ContractId>) returns (items: seq<Item>)
    ensures Apply(ItemId, items) == ids && ItemsFor(manifest, items)
  {
    var overrides := Overrides(manifest.contracts);
    items := [];
    for n := 0 to |ids|
      invariant Apply(ItemId, items) == ids[..n] && ItemsFor(manifest, items)
    {
      var item := BuildItem(manifest, overrides, ids[n]);
      ItemsForSnoc(manifest, items, item);
      assert ids[..n + 1] == ids[..n] + [ids[n]];
      items := items + [item];
    }
    assert ids[..|ids|] == ids;
  }

  method SkippedIds(ids: seq<ContractId>, condition: Option<Condition>) returns (skipped: set<ContractId>)
    ensures skipped == Unwanted(ids, condition)
  {
    skipped := {};
    for n := 0 to |ids|
      invariant skipped == set i | 0 <= i < n && Unmet(condition, ids[i]) :: ids[i]
    {
      if condition.Some? {
        var actual := condition.value.actual(ids[n]);
        if actual.Some? && actual.value != condition.value.value {
          skipped := skipped + {ids[n]};
        }
      }
    }
  }

  /** The items to send and the contracts to skip. */
  method Prepare(manifest: Manifest, ids: seq<ContractId>, condition: Option<Condition>)
      returns (items: seq<Item>, skipped: set<ContractId>)
    ensures Apply(ItemId, items) == Wanted(ids, condition)
    ensures ItemsFor(manifest, items)
    ensures skipped == Unwanted(ids, condition)
  {
    var all := BuildItems(manifest, ids);
    skipped := SkippedIds(ids, condition);
    items := Retain(manifest, ids, all, skipped, condition);
  }

  lemma {:induction false} WantedStep(ids: seq<ContractId>, n: nat, condition: Option<Condition>)
    requires n < |ids|
    ensures Wanted(ids[..n + 1], condition)
         == Wanted(ids[..n], condition) + if Unmet(condition, ids[n]) then [] else [ids[n]]
  {
    assert ids[..n + 1][..n] == ids[..n];
  }

  lemma {:induction false} ItemsForSnoc(manifest: Manifest, items: seq<Item>, item: Item)
    requires ItemsFor(manifest, items) && ItemFor(manifest, item.contractId, item)
    ensures ItemsFor(manifest, items + [item])
    ensures Apply(ItemId, items + [item]) == Apply(ItemId, items) + [item.contractId]
  {
  }

  /** Keeps the items that are not skipped. */
  method Retain(ghost manifest: Manifest, ghost ids: seq<ContractId>, all: seq<Item>, skipped: set<ContractId>,
                ghost condition: Option<Condition>) returns (items: seq<Item>)
    requires Apply(ItemId, all) == ids && ItemsFor(manifest, all)
    requires forall i :: 0 <= i < |ids| ==> (ids[i] in skipped <==> Unmet(condition, ids[i]))
    ensures Apply(ItemId, items) == Wanted(ids, condition) && ItemsFor(manifest, items)
  {
    items := [];
    for n := 0 to |all|
      invariant Apply(ItemId, items) == Wanted(ids[..n], condition) && ItemsFor(manifest, items)
    {
      WantedStep(ids, n, condition);
      ItemsForSnoc(manifest, items, all[n]);
      if all[n].contractId !in skipped {
        items := items + [all[n]];
      }
    }
    assert ids[..|ids|] == ids;
  }

  ghost function Unwanted(ids: seq<ContractId>, condition: Option<Condition>): set<ContractId> {
    set id | id in ids && Unmet(condition, id)
  }

  lemma {:induction false} WantedSnoc(front: seq<ContractId>, last: ContractId, condition: Option<Condition>)
    requires last !in front
    ensures var ids := front + [last];
      && multiset(Wanted(ids, condition)) + multiset(Unwanted(ids, condition))
           == multiset(Wanted(front, condition)) + multiset(Unwanted(front, condition)) + multiset{last}
  {
    var ids := front + [last];
    assert ids[..|ids| - 1] == front;
    if Unmet(condition, last) {
      assert Unwanted(ids, condition) == Unwanted(front, condition) + {last};
    } else {
      assert Unwanted(ids, condition) == Unwanted(front, condition);
    }
  }

  /** Every resolved contract is either sent or skipped, once. */
  lemma {:induction false} SentOrSkipped(ids: seq<ContractId>, condition: Option<Condition>)
    requires Distinct(ids)
    ensures multiset(Wanted(ids, condition)) + multiset(Unwanted(ids, condition)) == multiset(ids)
  {
    if ids == [] {
      assert Unwanted(ids, condition) == {};
    } else {
      var front, last := ids[..|ids| - 1], ids[|ids| - 1];
      assert ids == front + [last];
      SentOrSkipped(front, condition);
      WantedSnoc(front, last, condition);
    }
  }

  // ---- the report ------------------------------------------------------------------

  /** Lines for the skipped contracts, in whatever order the set is walked. */
  method SkippedLines(skipped: set<ContractId>) returns (lines: seq<ReportLine>)
    ensures |lines| == |skipped| && forall i :: 0 <= i < |lines| ==> lines[i].status == Skipped
    ensures multiset(Apply(LineId, lines)) == multiset(skipped)
  {
    lines := [];
    var rest := skipped;
    while rest != {}
      invariant rest <= skipped && |lines| == |skipped - rest|
      invariant forall i :: 0 <= i < |lines| ==> lines[i].status == Skipped
      invariant multiset(Apply(LineId, lines)) == multiset(skipped - rest)
    {
      var id :| id in rest;
      var line := ReportLine(id, Skipped, None);
      assert Apply(LineId, lines + [line]) == Apply(LineId, lines) + [id];
      assert skipped - (rest - {id}) == skipped - rest + {id};
      lines := lines + [line];
      rest := rest - {id};
    }
    assert skipped - {} == skipped;
  }

  /** What a report says of an answered contract. */
  ghost predicate Says(line: ReportLine, r: ItemResult, rolledBack: nat) {
    && line.contractId == r.contractId && line.error == r.error
    && (line.status == Failed <==> !r.ok)
    && (line.status == RolledBack <==> r.ok && rolledBack > 0)
    && line.status != Skipped
  }

  method ReportLines(results: seq<ItemResult>, rolledBack: nat, skipped: set<ContractId>) returns (report: seq<ReportLine>)
    ensures |report| == |results| + |skipped|
    ensures forall i :: 0 <= i < |results| ==> Says(report[i], results[i], rolledBack)
    ensures forall i :: |results| <= i < |report| ==> report[i].status == Skipped
    ensures multiset(Apply(LineId, report)) == multiset(Apply(ResultId, results)) + multiset(skipped)
  {
    report := [];
    for n := 0 to |results|
      invariant |report| == n
      invariant forall i :: 0 <= i < n ==> Says(report[i], results[i], rolledBack)
    {
      var r := results[n];
      report := report + [ReportLine(r.contractId,
                                     if rolledBack > 0 && r.ok then RolledBack else if r.ok then Updated else Failed,
                                     r.error)];
    }
    assert Apply(LineId, report) == Apply(ResultId, results);
    var lines := SkippedLines(skipped);
    ApplyAppend(LineId, report, lines);
    report := report + lines;
  }

  method PreviewReport(items: seq<Item>, skipped: set<ContractId>) returns (report: Report)
    ensures report.preview && report.updated == report.failed == report.rolledBack == 0
    ensures report.total == |report.lines| && report.skipped == |skipped|
    ensures forall i :: 0 <= i < |report.lines| ==> report.lines[i].status == if i < |items| then Preview else Skipped
    ensures multiset(Apply(LineId, report.lines)) == multiset(Apply(ItemId, items)) + multiset(skipped)
  {
    var lines: seq<ReportLine> := [];
    for n := 0 to |items|
      invariant |lines| == n
      invariant forall i :: 0 <= i < n ==> lines[i] == ReportLine(items[i].contractId, Preview, None)
    {
      lines := lines + [ReportLine(items[n].contractId, Preview, None)];
    }
    assert Apply(LineId, lines) == Apply(ItemId, items);
    var more := SkippedLines(skipped);
    ApplyAppend(LineId, lines, more);
    lines := lines + more;
    report := Report(true, |lines|, 0, |skipped|, 0, 0, lines);
  }

  /** An applied update with a version to go back to. */
  function CanUndo(r: ItemResult): nat {
    if r.ok && r.rollbackVersionId.Some? then 1 else 0
  }

  function Rollbacks(results: seq<ItemResult>): nat {
    Sum(Apply(CanUndo, results))
  }

  /** Sends one rollback for each applied update that can be undone; the replies
      to them are ignored. */
  method RollBack(results: seq<ItemResult>) returns (rolledBack: nat)
    ensures rolledBack == Rollbacks(results)
    ensures rolledBack == |set i | 0 <= i < |results| && results[i].ok && results[i].rollbackVersionId.Some?|
  {
    CountedUndoable(results);
    rolledBack := 0;
    for n := 0 to |results|
      invariant rolledBack == Rollbacks(results[..n])
    {
      assert Apply(CanUndo, results[..n + 1]) == Apply(CanUndo, results[..n]) + [CanUndo(results[n])];
      SumAppend(Apply(CanUndo, results[..n]), [CanUndo(results[n])]);
      assert [CanUndo(results[n])][1..] == [];
      if results[n].ok && results[n].rollbackVersionId.Some? {
        rolledBack := rolledBack + 1;
      }
    }
    assert results[..|results|] == results;
  }

  lemma {:induction false} CountedUndoable(results: seq<ItemResult>)
    ensures Rollbacks(results) == |set i | 0 <= i < |results| && results[i].ok && results[i].rollbackVersionId.Some?|
  {
    var undoable := set i | 0 <= i < |results| && results[i].ok && results[i].rollbackVersionId.Some?;
    if results == [] {
      assert undoable == {};
    } else {
      var n := |results| - 1;
      var front := results[..n];
      var before := set i | 0 <= i < |front| && front[i].ok && front[i].rollbackVersionId.Some?;
      CountedUndoable(front);
      assert Apply(CanUndo, results) == Apply(CanUndo, front) + [CanUndo(results[n])];
      SumAppend(Apply(CanUndo, front), [CanUndo(results[n])]);
      assert [CanUndo(results[n])][1..] == [];
      assert n !in before && undoable == before + if CanUndo(results[n]) == 1 then {n} else {};
    }
  }

  /** The number of rollbacks does not depend on the order of the answers. */
  lemma {:induction false} RollbacksUnordered(a: seq<ItemResult>, b: seq<ItemResult>)
    requires IsPermutation(a, b)
    ensures Rollbacks(a) == Rollbacks(b)
  {
    ApplyPermutation(CanUndo, a, b);
    SumPermutation(Apply(CanUndo, a), Apply(CanUndo, b));
  }

  /** The registry answers each item of a chunk, once. */
  ghost predicate AnswersItems<E>(items: seq<Item>, answer: nat -> Result<Response<ItemResult>, E>) {
    forall i: nat :: i < |Chunks(items)| && answer(i).Ok? ==>
      IsPermutation(Apply(ResultId, answer(i).value.results), Apply(ItemId, Chunks(items)[i]))
  }

  lemma {:induction false} ApplyAppend<A, B>(f: A -> B, a: seq<A>, b: seq<A>)
    ensures Apply(f, a + b) == Apply(f, a) + Apply(f, b)
  {
  }

  lemma {:induction false} FlattenIds(results: seq<seq<ItemResult>>, chunks: seq<seq<Item>>)
    requires |results| == |chunks|
    requires forall i :: 0 <= i < |chunks| ==> IsPermutation(Apply(ResultId, results[i]), Apply(ItemId, chunks[i]))
    ensures IsPermutation(Apply(ResultId, Flatten(results)), Apply(ItemId, Flatten(chunks)))
  {
    if chunks != [] {
      FlattenIds(results[1..], chunks[1..]);
      ApplyAppend(ResultId, results[0], Flatten(results[1..]));
      ApplyAppend(ItemId, chunks[0], Flatten(chunks[1..]));
    }
  }

  /** A successful dispatch brings back one result for each item. */
  lemma {:induction false} OneResultEach<E>(items: seq<Item>, answer: nat -> Result<Response<ItemResult>, E>,
                                            merged: Response<ItemResult>, order: seq<nat>, sent: nat)
    requires Ended(|Chunks(items)|, answer, Ok(merged), order, sent) && AnswersItems(items, answer)
    ensures IsPermutation(Apply(ResultId, merged.results), Apply(ItemId, items))
  {
    var n := |Chunks(items)|;
    MergedInChunkOrder(n, answer, merged, order, sent);
    var answers := Answers(answer, Range(n));
    ApplyPermutation(ResultId, merged.results, Total(answers).results);
    var results := Apply(ResultsOf<ItemResult>, answers);
    FlattenIds(results, Chunks(items));
    ChunksOf(items);
  }

  // ---- the condition text ------------------------------------------------------------

  /** `field=value`, split at the first '='. */
  function ParseCondition(condition: string): Option<(string, string)> {
    match Text.SplitFirst(condition, '=')
    case None => None
    case Some((field, value)) => if field == "" then None else Some((field, value))
  }

  /** A condition is read as a field and a value exactly when it is written that
      way with a non-empty field without '='; the value may contain any. */
  lemma {:induction false} ConditionBack(field: string, value: string, condition: string)
    ensures ParseCondition(condition) == Some((field, value))
       <==> condition == field + "=" + value && field != "" && '=' !in field
  {
    Text.SplitFirstParts(condition, '=');
    if '=' !in field { Text.SplitFirstBack(field, value, '='); }
  }

  /** The condition of a run; its field is looked up by `fetch`. */
  function ConditionOf(condition: Option<string>, fetch: (ContractId, string) -> Option<string>): Option<Condition> {
    if condition.None? then None
    else match ParseCondition(condition.value)
      case None => None
      case Some((field, value)) => Some(Condition(value, (id: ContractId) => fetch(id, field)))
  }

  // ---- the command -------------------------------------------------------------------

  /** `file` is what loading the manifest gives, if one is named, and `filterIds`
      what looking up the filtered contracts gives, if there is a filter. */
  datatype Options<E> = Options(
    file: Option<Result<Manifest, E>>, filterIds: Option<Result<seq<ContractId>, E>>, condition: Option<string>,
    preview: bool, rollbackOnError: bool)

  function ManifestOf<E>(options: Options<E>): Manifest {
    if options.file.Some? && options.file.value.Ok? then options.file.value.value
    else Manifest(Metadata(None, None, None, None), [], None)
  }

  function FilterIds<E>(options: Options<E>): seq<ContractId> {
    if options.filterIds.Some? && options.filterIds.value.Ok? then options.filterIds.value.value else []
  }

  function ResolvedIds<E>(options: Options<E>): seq<ContractId> {
    Resolved(ManifestOf(options).contracts, FilterIds(options))
  }

  // ---- the options themselves ----------------------------------------------------------

  /** The manifest or the filter names the contract. */
  ghost predicate Named<E>(options: Options<E>, id: ContractId) {
    || (options.file.Some? && options.file.value.Ok? && exists e :: e in options.file.value.value.contracts && e.contractId == id)
    || (options.filterIds.Some? && options.filterIds.value.Ok? && id in options.filterIds.value.value)
  }

  /** The text has its first '=' at `at`, after a field name. */
  predicate SplitsAt(text: string, at: int) {
    0 < at < |text| && text[at] == '=' && '=' !in text[..at]
  }

  /** Without a condition, every contract; with one, those whose field has the
      value, and those that cannot be fetched. */
  ghost predicate Chosen(condition: Option<string>, fetch: (ContractId, string) -> Option<string>, id: ContractId) {
    condition.Some? ==>
      exists at :: SplitsAt(condition.value, at)
        && (fetch(id, condition.value[..at]).None? || fetch(id, condition.value[..at]) == Some(condition.value[at + 1..]))
  }

  /** Something is named, everything could be loaded, and the condition, if any,
      can be read. */
  ghost predicate Usable<E>(options: Options<E>) {
    && !(options.file.Some? && options.file.value.Err?) && !(options.filterIds.Some? && options.filterIds.value.Err?)
    && (exists id :: Named(options, id))
    && (options.condition.Some? ==> exists at :: SplitsAt(options.condition.value, at))
  }

  ghost predicate Sends(items: seq<Item>, id: ContractId) {
    exists i :: 0 <= i < |items| && items[i].contractId == id
  }

  lemma {:induction false} ResolvedAre<E>(options: Options<E>, id: ContractId)
    ensures id in ResolvedIds(options) <==> Named(options, id)
  {
    var entries, more := ManifestOf(options).contracts, FilterIds(options);
    var all := Apply(EntryId, entries) + more;
    KeepFirstKeys(all, Itself<ContractId>, {});
    KeyedAre(ResolvedIds(options), id);
    KeyedAre(all, id);
    if e :| e in entries && e.contractId == id {
      var i :| 0 <= i < |entries| && entries[i] == e;
      assert Apply(EntryId, entries)[i] == id;
    }
    if id in Apply(EntryId, entries) {
      var i :| 0 <= i < |entries| && Apply(EntryId, entries)[i] == id;
      assert entries[i] in entries;
    }
  }

  lemma {:induction false} KeyedAre(ids: seq<ContractId>, id: ContractId)
    ensures id in Keys(ids, Itself) <==> id in ids
  {
    if id in ids {
      var i :| 0 <= i < |ids| && ids[i] == id;
      assert Itself(ids[i]) == Some(id);
    }
  }

  lemma {:induction false} WantedAre(ids: seq<ContractId>, condition: Option<Condition>, id: ContractId)
    ensures id in Wanted(ids, condition) <==> id in ids && !Unmet(condition, id)
  {
    if ids != [] {
      var n := |ids| - 1;
      WantedAre(ids[..n], condition, id);
      assert ids == ids[..n] + [ids[n]];
    }
  }

  lemma {:induction false} ParsedAt(text: string, at: int)
    requires SplitsAt(text, at)
    ensures ParseCondition(text) == Some((text[..at], text[at + 1..]))
  {
    assert text == text[..at] + ['='] + text[at + 1..];
    Text.SplitFirstBack(text[..at], text[at + 1..], '=');
  }

  lemma {:induction false} Unparsed(text: string)
    ensures ParseCondition(text).Some? <==> exists at :: SplitsAt(text, at)
  {
    if at :| SplitsAt(text, at) { ParsedAt(text, at); }
    if ParseCondition(text).Some? {
      Text.SplitFirstParts(text, '=');
      var (field, value) := ParseCondition(text).value;
      assert text[..|field|] == field;
      assert SplitsAt(text, |field|);
    }
  }

  lemma {:induction false} ChosenAre(condition: Option<string>, fetch: (ContractId, string) -> Option<string>, id: ContractId)
    requires condition.Some? ==> exists at :: SplitsAt(condition.value, at)
    ensures Chosen(condition, fetch, id) <==> !Unmet(ConditionOf(condition, fetch), id)
  {
    if condition.Some? {
      var at :| SplitsAt(condition.value, at);
      ParsedAt(condition.value, at);
      forall other | SplitsAt(condition.value, other) ensures other == at {
        ParsedAt(condition.value, other);
        assert |condition.value[..at]| == |condition.value[..other]|;
      }
    }
  }

  /** Which contracts a run sends, in terms of its options. */
  lemma {:induction false} SentAre<E>(options: Options<E>, fetch: (ContractId, string) -> Option<string>, items: seq<Item>)
    requires Usable(options) && Apply(ItemId, items) == Wanted(ResolvedIds(options), ConditionOf(options.condition, fetch))
    ensures forall id :: Sends(items, id) <==> Named(options, id) && Chosen(options.condition, fetch, id)
  {
    forall id ensures Sends(items, id) <==> Named(options, id) && Chosen(options.condition, fetch, id) {
      ResolvedAre(options, id);
      ChosenAre(options.condition, fetch, id);
      WantedAre(ResolvedIds(options), ConditionOf(options.condition, fetch), id);
      if id in Wanted(ResolvedIds(options), ConditionOf(options.condition, fetch)) {
        var i :| 0 <= i < |items| && Apply(ItemId, items)[i] == id;
      }
      if i :| 0 <= i < |items| && items[i].contractId == id {
        assert Apply(ItemId, items)[i] == id;
      }
    }
  }

  lemma {:induction false} UsableIs<E>(options: Options<E>)
    ensures Usable(options) <==> Refusal<E>(options).None?
  {
    if id :| Named(options, id) { ResolvedAre(options, id); }
    if ResolvedIds(options) != [] { ResolvedAre(options, ResolvedIds(options)[0]); }
    if options.condition.Some? { Unparsed(options.condition.value); }
  }

  /** Why nothing is sent, if so. */
  function Refusal<E>(options: Options<E>): Option<Error<E>> {
    if options.file.None? && options.filterIds.None? then Some(NothingSelected)
    else if options.file.Some? && options.file.value.Err? then Some(LoadFailed(options.file.value.error))
    else if options.filterIds.Some? && options.filterIds.value.Err? then Some(LookupFailed(options.filterIds.value.error))
    else if ResolvedIds(options) == [] then Some(NothingResolved)
    else if options.condition.Some? && ParseCondition(options.condition.value).None? then Some(BadCondition)
    else None
  }

  /** The report accounts for the resolved contracts, each once. */
  ghost predicate Covers(report: Report, ids: seq<ContractId>) {
    report.total == |report.lines| && IsPermutation(Apply(LineId, report.lines), ids)
  }

  /** The dispatched part of the command. */
  method UpdateItems<E>(items: seq<Item>, skipped: set<ContractId>, rollbackOnError: bool,
                        answer: nat -> Result<Response<ItemResult>, E>)
      returns (report: Result<Report, Error<E>>)
    ensures report.Ok? <==> forall i: nat :: i < |Chunks(items)| ==> answer(i).Ok?
    ensures report.Err? ==> report.error.DispatchFailed?
    ensures report.Ok? ==>
      var all := Total(Answers(answer, Range(|Chunks(items)|)));
      && AllOk(answer, Range(|Chunks(items)|))
      && !report.value.preview && report.value.skipped == |skipped|
      && report.value.updated == all.succeeded && report.value.failed == all.failed
      && report.value.total == |report.value.lines|
      && report.value.rolledBack == (if rollbackOnError && all.failed > 0 then Rollbacks(all.results) else 0)
    ensures report.Ok? && AnswersItems(items, answer) ==>
      multiset(Apply(LineId, report.value.lines)) == multiset(Apply(ItemId, items)) + multiset(skipped)
  {
    var outcome, order, sent := DispatchChunks(items, answer);
    if outcome.Err? {
      return Err(DispatchFailed(outcome.error));
    }
    var response := outcome.value;
    var rolledBack := 0;
    if rollbackOnError && response.failed > 0 {
      rolledBack := RollBack(response.results);
    }
    RollbacksUnordered(response.results, Total(Answers(answer, Range(|Chunks(items)|))).results);
    var lines := ReportLines(response.results, rolledBack, skipped);
    report := Ok(Report(false, |lines|, response.succeeded, |skipped|, response.failed, rolledBack, lines));
    if AnswersItems(items, answer) {
      OneResultEach(items, answer, response, order, sent);
    }
  }

  /** The whole command: what it reports, and the exit code of the process. */
  method RunBatchUpdate<E>(options: Options<E>, fetch: (ContractId, string) -> Option<string>,
                           answer: nat -> Result<Response<ItemResult>, E>)
      returns (report: Result<Report, Error<E>>, exitCode: nat, items: seq<Item>)
    ensures Refusal<E>(options).Some? ==> report == Err(Refusal<E>(options).value)
    ensures Refusal<E>(options).None? ==>
      var condition := ConditionOf(options.condition, fetch);
      && Apply(ItemId, items) == Wanted(ResolvedIds(options), condition)
      && ItemsFor(ManifestOf(options), items)
      && (report.Ok? <==> options.preview || forall i: nat :: i < |Chunks(items)| ==> answer(i).Ok?)
    ensures if Usable(options) then forall id :: Sends(items, id) <==> Named(options, id) && Chosen(options.condition, fetch, id)
            else items == [] && report.Err? && !report.error.DispatchFailed?
    ensures report == Err(NothingSelected) <==> options.file.None? && options.filterIds.None?
    ensures report == Err(NothingResolved) ==> forall id :: !Named(options, id)
    ensures report == Err(BadCondition) ==> options.condition.Some? && forall at :: !SplitsAt(options.condition.value, at)
    ensures report.Ok? && (options.preview || AnswersItems(items, answer)) ==> Covers(report.value, ResolvedIds(options))
    ensures report.Ok? ==> report.value.preview == options.preview
    ensures report.Ok? && !options.preview ==>
      && AllOk(answer, Range(|Chunks(items)|))
      && report.value.failed == Total(Answers(answer, Range(|Chunks(items)|))).failed
    ensures exitCode == 0 <==> report.Ok? && (report.value.failed == 0 || options.rollbackOnError)
  {
    items := [];
    UsableIs(options);
    if options.file.None? && options.filterIds.None? {
      return Err(NothingSelected), 1, items;
    }
    if options.file.Some? && options.file.value.Err? {
      return Err(LoadFailed(options.file.value.error)), 1, items;
    }
    if options.filterIds.Some? && options.filterIds.value.Err? {
      return Err(LookupFailed(options.filterIds.value.error)), 1, items;
    }
    var manifest := ManifestOf(options);
    var ids := DeduplicateIds(Apply(EntryId, manifest.contracts) + FilterIds(options));
    if ids == [] {
      forall id ensures !Named(options, id) {
        ResolvedAre(options, id);
      }
      return Err(NothingResolved), 1, items;
    }
    if options.condition.Some? {
      Unparsed(options.condition.value);
    }
    if options.condition.Some? && ParseCondition(options.condition.value).None? {
      return Err(BadCondition), 1, items;
    }
    var condition := ConditionOf(options.condition, fetch);
    var skipped;
    items, skipped := Prepare(manifest, ids, condition);
    ResolvedOnce(manifest.contracts, FilterIds(options));
    SentOrSkipped(ids, condition);
    SentAre(options, fetch, items);
    if options.preview {
      var preview := PreviewReport(items, skipped);
      return Ok(preview), 0, items;
    }
    report := UpdateItems(items, skipped, options.rollbackOnError, answer);
    exitCode := if report.Err? || (report.value.failed > 0 && !options.rollbackOnError) then 1 else 0;
  }
}
