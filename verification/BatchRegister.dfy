/** The `batch-register` command: de-duplicate the manifest, register every
    entry one by one or through a window of concurrent tasks, and optionally
    retry the failures once and merge the two passes. */
module BatchRegister {
  import opened Wrappers
  import opened Sequences
  import SlidingWindow
  import Text

  const MAX_BATCH_SIZE: nat := 50

  datatype ContractId = ContractId(text: string)

  /** Written "registered", "skipped" and "failed" in the printed summary. */
  datatype Status = Registered | Skipped | Failed

  /** An entry with its network and publisher filled in. */
  datatype Entry = Entry(contractId: ContractId, name: string, network: string, publisher: string, details: string)

  /** What the registry made of one registration request. */
  datatype Reply =
    | Unreachable(reason: string)
    | Conflict
    | Refused(reason: string)
    | Unreadable(reason: string)
    | Accepted(id: Option<string>, contractId: Option<string>)

  datatype RegistrationResult = RegistrationResult(
    contractId: ContractId, name: string, status: Status, registryId: Option<string>, error: Option<string>)

  datatype Summary = Summary(
    total: nat, registered: nat, failed: nat, skipped: nat, results: seq<RegistrationResult>)

  datatype Problem =
    | BlankContractId(name: string)
    | BlankName(contractId: ContractId)
    | UnknownNetwork(contractId: ContractId, network: string)
    | BlankPublisher(contractId: ContractId)

  datatype Failure =
    | NothingToRegister
    | TooMany(count: nat)
    | Invalid(problems: seq<Problem>)
    | SomeFailed(summary: Summary)

  function RegisterOne(entry: Entry, reply: Reply): Result<RegistrationResult, string> {
    match reply
    case Unreachable(reason) => Err(reason)
    case Conflict => Ok(RegistrationResult(entry.contractId, entry.name, Skipped, None, None))
    case Refused(reason) => Err(reason)
    case Unreadable(reason) => Err(reason)
    case Accepted(id, contractId) =>
      Ok(RegistrationResult(entry.contractId, entry.name, Registered, if id.Some? then id else contractId, None))
  }

  /** The result recorded for an entry, whether or not registering it worked. */
  function Attempt(entry: Entry, reply: Reply): (r: RegistrationResult)
    ensures r.contractId == entry.contractId && r.name == entry.name
    ensures r.status == Skipped <==> reply.Conflict?
    ensures r.status == Registered <==> reply.Accepted?
    ensures r.status == Failed <==> r.error.Some?
    ensures reply.Accepted? ==> r.registryId == if reply.id.Some? then reply.id else reply.contractId
    ensures !reply.Accepted? ==> r.registryId == None
  {
    match RegisterOne(entry, reply)
    case Ok(result) => result
    case Err(reason) => RegistrationResult(entry.contractId, entry.name, Failed, None, Some(reason))
  }

  function Count(results: seq<RegistrationResult>, status: Status): nat {
    if results == [] then 0
    else (if results[0].status == status then 1 else 0) + Count(results[1..], status)
  }

  /** The results in manifest order; task `i` is answered with `reply(i)`. */
  function Outcomes(entries: seq<Entry>, reply: nat -> Reply): (r: seq<RegistrationResult>)
    ensures |r| == |entries|
    ensures forall i :: 0 <= i < |entries| ==> r[i] == Attempt(entries[i], reply(i))
  {
    seq(|entries|, i requires 0 <= i < |entries| => Attempt(entries[i], reply(i)))
  }

  ghost function Pick<T>(s: seq<T>, order: seq<nat>): (r: seq<T>)
    requires forall k :: 0 <= k < |order| ==> order[k] < |s|
  {
    seq(|order|, k requires 0 <= k < |order| => s[order[k]])
  }

  /** The summary of a pass that recorded `results`. */
  ghost function SummaryOf(results: seq<RegistrationResult>, skipped: nat): Summary {
    Summary(|results|, Count(results, Registered) + Count(results, Skipped), Count(results, Failed),
            skipped, results)
  }

  // ---- de-duplication ----------------------------------------------------

  function IdOf(entry: Entry): Option<ContractId> {
    Some(entry.contractId)
  }

  ghost predicate DistinctIds(entries: seq<Entry>) {
    forall i, j :: 0 <= i < j < |entries| ==> entries[i].contractId != entries[j].contractId
  }

  ghost function Duplicates(entries: seq<Entry>): nat {
    KeepFirstLength(entries, IdOf, {});
    |entries| - |KeepFirst(entries, IdOf, {})|
  }

  method Deduplicate(entries: seq<Entry>) returns (deduped: seq<Entry>, skipped: nat)
    ensures deduped == KeepFirst(entries, IdOf, {})
    ensures skipped == Duplicates(entries) == |entries| - |deduped|
  {
    var seen: set<ContractId> := {};
    deduped := [];
    for n := 0 to |entries|
      invariant |deduped| <= n
      invariant deduped == KeepFirst(entries[..n], IdOf, {})
      invariant seen == Keys(entries[..n], IdOf)
    {
      var id := entries[n].contractId;
      assert entries[..n + 1] == entries[..n] + [entries[n]];
      KeepFirstAppend(entries[..n], [entries[n]], IdOf, {});
      assert {} + Keys(entries[..n], IdOf) == Keys(entries[..n], IdOf);
      KeepFirstOne(entries[n], IdOf, seen);
      KeysAppend(entries[..n], [entries[n]], IdOf);
      assert Keys([entries[n]], IdOf) == {id} by { assert IdOf([entries[n]][0]) == Some(id); }
      if id in seen {
        continue;
      }
      seen := seen + {id};
      deduped := deduped + [entries[n]];
    }
    assert entries[..|entries|] == entries;
    skipped := |entries| - |deduped|;
  }

  /** Every id is kept, once. */
  lemma {:induction false} DedupedIds(entries: seq<Entry>)
    ensures var deduped := KeepFirst(entries, IdOf, {});
      && DistinctIds(deduped)
      && (forall e :: e in entries ==> exists d :: d in deduped && d.contractId == e.contractId)
  {
    var deduped := KeepFirst(entries, IdOf, {});
    KeepFirstKeys(entries, IdOf, {});
    forall i, j | 0 <= i < j < |deduped| ensures deduped[i].contractId != deduped[j].contractId {
      assert IdOf(deduped[i]) != IdOf(deduped[j]);
    }
    forall e | e in entries ensures exists d :: d in deduped && d.contractId == e.contractId {
      var i :| 0 <= i < |entries| && entries[i] == e;
      assert IdOf(entries[i]).value in Keys(entries, IdOf);
      assert e.contractId in Keys(deduped, IdOf);
      var k :| 0 <= k < |deduped| && IdOf(deduped[k]).Some? && IdOf(deduped[k]).value == e.contractId;
      assert deduped[k] in deduped;
    }
  }

  // ---- validation ----------------------------------------------------------

  const VALID_NETWORKS: set<string> := {"mainnet", "testnet", "futurenet"}

  predicate ValidEntry(e: Entry) {
    !Text.Blank(e.contractId.text) && !Text.Blank(e.name) && e.network in VALID_NETWORKS && !Text.Blank(e.publisher)
  }

  predicate IsProblemOf(p: Problem, e: Entry) {
    match p
    case BlankContractId(name) => Text.Blank(e.contractId.text) && name == e.name
    case BlankName(id) => Text.Blank(e.name) && id == e.contractId
    case UnknownNetwork(id, network) => e.network !in VALID_NETWORKS && id == e.contractId && network == e.network
    case BlankPublisher(id) => Text.Blank(e.publisher) && id == e.contractId
  }

  method ValidateAll(entries: seq<Entry>) returns (problems: seq<Problem>)
    ensures problems == [] <==> forall e :: e in entries ==> ValidEntry(e)
    ensures forall p :: p in problems <==> exists e :: e in entries && IsProblemOf(p, e)
  {
    problems := [];
    for i := 0 to |entries|
      invariant forall p :: p in problems <==> exists k :: 0 <= k < i && IsProblemOf(p, entries[k])
    {
      var found := ValidateOne(entries[i]);
      problems := problems + found;
    }
    AllProblems(entries, problems);
  }

  method ValidateOne(e: Entry) returns (problems: seq<Problem>)
    ensures forall p :: p in problems <==> IsProblemOf(p, e)
  {
    problems := [];
    Text.TrimBlank(e.contractId.text);
    Text.TrimBlank(e.name);
    Text.TrimBlank(e.publisher);
    if Text.Trim(e.contractId.text) == "" {
      problems := problems + [BlankContractId(e.name)];
    }
    if Text.Trim(e.name) == "" {
      problems := problems + [BlankName(e.contractId)];
    }
    if e.network !in VALID_NETWORKS {
      problems := problems + [UnknownNetwork(e.contractId, e.network)];
    }
    if Text.Trim(e.publisher) == "" {
      problems := problems + [BlankPublisher(e.contractId)];
    }
  }

  lemma {:induction false} AllProblems(entries: seq<Entry>, problems: seq<Problem>)
    requires forall p :: p in problems <==> exists k :: 0 <= k < |entries| && IsProblemOf(p, entries[k])
    ensures problems == [] <==> forall e :: e in entries ==> ValidEntry(e)
    ensures forall p :: p in problems <==> exists e :: e in entries && IsProblemOf(p, e)
  {
    forall p ensures p in problems <==> exists e :: e in entries && IsProblemOf(p, e) {
      if e :| e in entries && IsProblemOf(p, e) {
        var k :| 0 <= k < |entries| && entries[k] == e;
        assert IsProblemOf(p, entries[k]);
      }
      if p in problems {
        var k :| 0 <= k < |entries| && IsProblemOf(p, entries[k]);
        assert entries[k] in entries;
      }
    }
    if e :| e in entries && !ValidEntry(e) {
      var p := SomeProblem(e);
      assert p in problems;
    }
    if problems != [] {
      var p := problems[0];
      assert p in problems;
      var e :| e in entries && IsProblemOf(p, e);
      assert !ValidEntry(e);
    }
  }

  lemma {:induction false} SomeProblem(e: Entry) returns (p: Problem)
    requires !ValidEntry(e)
    ensures IsProblemOf(p, e)
  {
    p := if Text.Blank(e.contractId.text) then BlankContractId(e.name)
         else if Text.Blank(e.name) then BlankName(e.contractId)
         else if e.network !in VALID_NETWORKS then UnknownNetwork(e.contractId, e.network)
         else BlankPublisher(e.contractId);
  }

  // ---- the two registration paths ----------------------------------------

  /** Two summaries of the same pass, up to the order of the results. */
  ghost predicate SameUpToOrder(a: Summary, b: Summary) {
    IsPermutation(a.results, b.results) && a.(results := b.results) == b
  }

  /** The counters that go with the results recorded so far. */
  ghost predicate Tallied(results: seq<RegistrationResult>, registered: nat, failed: nat) {
    && registered == Count(results, Registered) + Count(results, Skipped)
    && failed == Count(results, Failed)
  }

  /** Both paths record the answer to a request in the same way. */
  method Record(entry: Entry, reply: Reply, results: seq<RegistrationResult>, registered: nat, failed: nat)
      returns (results': seq<RegistrationResult>, registered': nat, failed': nat)
    requires Tallied(results, registered, failed)
    ensures results' == results + [Attempt(entry, reply)]
    ensures Tallied(results', registered', failed')
  {
    var result := RegisterOne(entry, reply);
    CountSnoc(results, Attempt(entry, reply));
    registered', failed' := registered, failed;
    match result {
      case Ok(done) =>
        registered' := registered + 1;
        results' := results + [done];
      case Err(reason) =>
        failed' := failed + 1;
        results' := results + [RegistrationResult(entry.contractId, entry.name, Failed, None, Some(reason))];
    }
  }

  method RegisterSequential(entries: seq<Entry>, skippedDuplicates: nat, reply: nat -> Reply)
      returns (summary: Summary)
    ensures summary == SummaryOf(Outcomes(entries, reply), skippedDuplicates)
  {
    var results: seq<RegistrationResult> := [];
    var registered, failed := 0, 0;
    for i := 0 to |entries|
      invariant results == Outcomes(entries, reply)[..i]
      invariant Tallied(results, registered, failed)
    {
      results, registered, failed := Record(entries[i], reply(i), results, registered, failed);
    }
    assert results == Outcomes(entries, reply);
    summary := Summary(|entries|, registered, failed, skippedDuplicates, results);
  }

  method RegisterConcurrent(entries: seq<Entry>, skippedDuplicates: nat, concurrency: nat, reply: nat -> Reply)
      returns (summary: Summary, ghost order: seq<nat>)
    requires concurrency >= 1
    ensures SlidingWindow.Drained(|entries|, concurrency, order)
    ensures SlidingWindow.EachOnce(|entries|, order)
    ensures summary == SummaryOf(Pick(Outcomes(entries, reply), order), skippedDuplicates)
    ensures SameUpToOrder(summary, SummaryOf(Outcomes(entries, reply), skippedDuplicates))
  {
    var total := |entries|;
    ghost var outcomes := Outcomes(entries, reply);
    var results: seq<RegistrationResult> := [];
    var registered, failed := 0, 0;
    var next: nat, running: set<nat>;
    next, running := SlidingWindow.SeedTasks(total, concurrency);
    order := [];
    while running != {}
      invariant SlidingWindow.At(total, concurrency, order, next, running)
      invariant forall k :: 0 <= k < |order| ==> order[k] < total
      invariant results == Pick(outcomes, order)
      invariant Tallied(results, registered, failed)
      decreases total - |order|
    {
      var i :| i in running;
      SlidingWindow.NextCompletion(total, concurrency, order, next, running, i);
      results, registered, failed := Record(entries[i], reply(i), results, registered, failed);
      order := order + [i];
      running := running - {i};
      if next < total {
        running, next := running + {next}, next + 1;
      }
    }
    SlidingWindow.Finished(total, concurrency, order, next);
    ConcurrentMatchesSequential(entries, concurrency, reply, order, skippedDuplicates);
    summary := Summary(total, registered, failed, skippedDuplicates, results);
  }

  /** The completion order of the sequential path is that of a window of one. */
  method RegisterAll(entries: seq<Entry>, skippedDuplicates: nat, concurrent: Option<nat>, reply: nat -> Reply)
      returns (summary: Summary, ghost order: seq<nat>)
    ensures concurrent.Some? && concurrent.value >= 1 ==> SlidingWindow.Drained(|entries|, concurrent.value, order)
    ensures concurrent.None? || concurrent.value == 0 ==> order == Range(|entries|)
    ensures SlidingWindow.Drained(|entries|, Width(concurrent), order)
    ensures SlidingWindow.EachOnce(|entries|, order)
    ensures summary == SummaryOf(Pick(Outcomes(entries, reply), order), skippedDuplicates)
    ensures SameUpToOrder(summary, SummaryOf(Outcomes(entries, reply), skippedDuplicates))
  {
    var concurrency := if concurrent.GetOr(1) < 1 then 1 else concurrent.GetOr(1);
    if concurrency <= 1 {
      summary := RegisterSequential(entries, skippedDuplicates, reply);
      order := Range(|entries|);
      InOrder(|entries|);
      assert Pick(Outcomes(entries, reply), order) == Outcomes(entries, reply);
    } else {
      summary, order := RegisterConcurrent(entries, skippedDuplicates, concurrency, reply);
    }
  }

  function Width(concurrent: Option<nat>): (r: nat)
    ensures r >= 1
    ensures concurrent.Some? && concurrent.value >= 1 ==> r == concurrent.value
  {
    if concurrent.GetOr(1) < 1 then 1 else concurrent.GetOr(1)
  }

  lemma {:induction false} InOrder(n: nat)
    ensures SlidingWindow.Drained(n, 1, Range(n)) && SlidingWindow.EachOnce(n, Range(n))
  {
    SlidingWindow.PossibleOrders(n, 1, Range(n));
    SlidingWindow.DrainedOrders(n, 1, Range(n));
    SlidingWindow.DrainedTasks(n, 1, Range(n));
  }

  lemma {:induction false} CountSnoc(results: seq<RegistrationResult>, r: RegistrationResult)
    ensures forall s :: Count(results + [r], s) == Count(results, s) + if r.status == s then 1 else 0
  {
    if results == [] {
      assert [r][1..] == [];
      assert results + [r] == [r];
    } else {
      CountSnoc(results[1..], r);
      assert (results + [r])[1..] == results[1..] + [r];
    }
  }

  function Weight(status: Status): RegistrationResult -> nat {
    (r: RegistrationResult) => if r.status == status then 1 else 0
  }

  lemma {:induction false} CountPermutation(a: seq<RegistrationResult>, b: seq<RegistrationResult>, status: Status)
    requires IsPermutation(a, b)
    ensures Count(a, status) == Count(b, status)
  {
    ApplyPermutation(Weight(status), a, b);
    SumPermutation(Apply(Weight(status), a), Apply(Weight(status), b));
    CountIsSum(a, status);
    CountIsSum(b, status);
  }

  lemma {:induction false} CountIsSum(a: seq<RegistrationResult>, status: Status)
    ensures Count(a, status) == Sum(Apply(Weight(status), a))
  {
    if a != [] {
      CountIsSum(a[1..], status);
      assert Apply(Weight(status), a)[1..] == Apply(Weight(status), a[1..]);
    }
  }

  /** Every result has one of the three statuses, so the counts add up. */
  lemma {:induction false} CountsAddUp(results: seq<RegistrationResult>)
    ensures Count(results, Registered) + Count(results, Skipped) + Count(results, Failed) == |results|
  {
    if results != [] {
      CountsAddUp(results[1..]);
    }
  }

  lemma {:induction false} PickPermutation<T>(s: seq<T>, order: seq<nat>)
    requires IsPermutation(order, Range(|s|))
    requires forall k :: 0 <= k < |order| ==> order[k] < |s|
    ensures IsPermutation(Pick(s, order), s)
  {
    if s == [] {
      assert |multiset(order)| == 0;
      assert Pick(s, order) == s;
    } else {
      var at := (i: nat) => if i < |s| then s[i] else s[0];
      ApplyPermutation(at, order, Range(|s|));
      assert Apply(at, order) == Pick(s, order);
      assert Apply(at, Range(|s|)) == s;
    }
  }

  /** However the concurrent tasks complete, the summary has the counters of the
      sequential path and a permutation of its results. */
  lemma {:induction false} ConcurrentMatchesSequential(entries: seq<Entry>, width: nat, reply: nat -> Reply, order: seq<nat>, skipped: nat)
    requires width >= 1 && SlidingWindow.Drained(|entries|, width, order)
    requires forall k :: 0 <= k < |order| ==> order[k] < |entries|
    ensures var one := SummaryOf(Outcomes(entries, reply), skipped);
      var many := SummaryOf(Pick(Outcomes(entries, reply), order), skipped);
      && SameUpToOrder(many, one)
      && many.registered + many.failed == many.total == |entries|
  {
    var outcomes := Outcomes(entries, reply);
    SlidingWindow.DrainedOrders(|entries|, width, order);
    PickPermutation(outcomes, order);
    CountPermutation(Pick(outcomes, order), outcomes, Registered);
    CountPermutation(Pick(outcomes, order), outcomes, Skipped);
    CountPermutation(Pick(outcomes, order), outcomes, Failed);
    CountsAddUp(outcomes);
  }
}
