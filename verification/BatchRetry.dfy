/** The retry pass of `batch-register`: failed entries are attempted once more
    and their results replace the failures of the first pass. */
module BatchRetry {
  import opened Wrappers
  import opened Sequences
  import opened BatchRegister
  import SlidingWindow

  ghost predicate DistinctResults(results: seq<RegistrationResult>) {
    forall i, j :: 0 <= i < j < |results| ==> results[i].contractId != results[j].contractId
  }

  /** The entries whose id is that of a failed result, in manifest order. */
  function FailedEntries(entries: seq<Entry>, failedIds: set<ContractId>): seq<Entry> {
    if entries == [] then []
    else (if entries[0].contractId in failedIds then [entries[0]] else []) + FailedEntries(entries[1..], failedIds)
  }

  function FailedIds(results: seq<RegistrationResult>): set<ContractId> {
    set i | 0 <= i < |results| && results[i].status == Failed :: results[i].contractId
  }

  function Find(results: seq<RegistrationResult>, id: ContractId): (k: nat)
    ensures k <= |results|
    ensures k < |results| ==> results[k].contractId == id
    ensures forall j :: 0 <= j < k ==> results[j].contractId != id
  {
    if results == [] || results[0].contractId == id then 0 else 1 + Find(results[1..], id)
  }

  ghost function Merge(results: seq<RegistrationResult>, retried: seq<RegistrationResult>): (r: seq<RegistrationResult>)
    ensures |r| == |results|
    decreases |retried|
  {
    if retried == [] then results
    else
      var k := Find(results, retried[0].contractId);
      Merge(if k < |results| then results[k := retried[0]] else results, retried[1..])
  }

  ghost function AfterRetry(first: Summary, second: Summary): Summary {
    var merged := Merge(first.results, second.results);
    first.(results := merged, registered := Count(merged, Registered), failed := Count(merged, Failed))
  }

  method MergeRetried(results: seq<RegistrationResult>, retried: seq<RegistrationResult>)
      returns (merged: seq<RegistrationResult>)
    ensures merged == Merge(results, retried)
  {
    merged := results;
    for n := 0 to |retried|
      invariant |merged| == |results|
      invariant Merge(merged, retried[n..]) == Merge(results, retried)
    {
      var k := Find(merged, retried[n].contractId);
      assert retried[n..][0] == retried[n] && retried[n..][1..] == retried[n + 1..];
      if k < |merged| {
        merged := merged[k := retried[n]];
      }
    }
    assert retried[|retried|..] == [];
  }

  /** The tasks of a pass completed in this order through a window. */
  ghost predicate PassOrder(entries: seq<Entry>, width: nat, order: seq<nat>) {
    SlidingWindow.Drained(|entries|, width, order) && SlidingWindow.EachOnce(|entries|, order)
  }

  ghost function Pass(entries: seq<Entry>, reply: nat -> Reply, order: seq<nat>, skipped: nat): Summary
    requires SlidingWindow.EachOnce(|entries|, order)
  {
    SummaryOf(Pick(Outcomes(entries, reply), order), skipped)
  }

  /** The entries the second pass attempts. */
  ghost function Again(entries: seq<Entry>, first: Summary): seq<Entry> {
    FailedEntries(entries, FailedIds(first.results))
  }

  /** The command from de-duplicated entries on: register them all, then retry. */
  method RegisterAndRetry(entries: seq<Entry>, skipped: nat, concurrent: Option<nat>, retry: bool,
                          reply1: nat -> Reply, reply2: nat -> Reply)
      returns (summary: Summary, ghost order1: seq<nat>, ghost order2: seq<nat>)
    ensures PassOrder(entries, Width(concurrent), order1)
    ensures var first := Pass(entries, reply1, order1, skipped);
      if retry && first.failed > 0 then
        && PassOrder(Again(entries, first), Width(concurrent), order2)
        && summary == AfterRetry(first, Pass(Again(entries, first), reply2, order2, 0))
      else summary == first
  {
    order2 := [];
    summary, order1 := RegisterAll(entries, skipped, concurrent, reply1);
    if retry && summary.failed > 0 {
      var again := FailedEntries(entries, FailedIds(summary.results));
      var second;
      second, order2 := RegisterAll(again, 0, concurrent, reply2);
      var merged := MergeRetried(summary.results, second.results);
      summary := summary.(results := merged,
                          registered := Count(merged, Registered), failed := Count(merged, Failed));
    }
  }

  lemma {:induction false} FailedEntriesAre(entries: seq<Entry>, ids: set<ContractId>, e: Entry)
    ensures e in FailedEntries(entries, ids) <==> e in entries && e.contractId in ids
  {
    if entries != [] {
      FailedEntriesAre(entries[1..], ids, e);
      assert entries == [entries[0]] + entries[1..];
    }
  }

  /** The last of the retried results with an id. */
  ghost function Lookup(retried: seq<RegistrationResult>, id: ContractId): (r: Option<RegistrationResult>)
    ensures r.None? <==> forall t :: t in retried ==> t.contractId != id
    ensures r.Some? ==> r.value in retried && r.value.contractId == id
  {
    if retried == [] then None
    else
      var later := Lookup(retried[1..], id);
      assert retried == [retried[0]] + retried[1..];
      if later.None? && retried[0].contractId == id then Some(retried[0]) else later
  }

  /** Merging replaces a result by the retried one with its id, if any. */
  lemma {:induction false} MergedIs(results: seq<RegistrationResult>, retried: seq<RegistrationResult>, k: nat)
    requires DistinctResults(results) && k < |results|
    ensures Merge(results, retried)[k] == Lookup(retried, results[k].contractId).GetOr(results[k])
    decreases |retried|
  {
    if retried != [] {
      var n := Find(results, retried[0].contractId);
      if n < |results| {
        MergedIs(results[n := retried[0]], retried[1..], k);
      } else {
        MergedIs(results, retried[1..], k);
      }
    }
  }

  lemma {:induction false} PassResults(entries: seq<Entry>, reply: nat -> Reply, order: seq<nat>)
    requires DistinctIds(entries) && SlidingWindow.EachOnce(|entries|, order)
    ensures var results := Pick(Outcomes(entries, reply), order);
      && |results| == |order| == |entries|
      && DistinctResults(results)
      && (forall k :: 0 <= k < |order| ==> results[k] == Attempt(entries[order[k]], reply(order[k])))
  {
    var results := Pick(Outcomes(entries, reply), order);
    forall i, j | 0 <= i < j < |results| ensures results[i].contractId != results[j].contractId {
      DifferentIds(entries, order[i], order[j]);
    }
  }

  lemma {:induction false} DifferentIds(entries: seq<Entry>, i: nat, j: nat)
    requires DistinctIds(entries) && i < |entries| && j < |entries| && i != j
    ensures entries[i].contractId != entries[j].contractId
  {
    if j < i { assert entries[j].contractId != entries[i].contractId; }
  }

  lemma {:induction false} SameEntry(entries: seq<Entry>, a: Entry, b: Entry)
    requires DistinctIds(entries) && a in entries && b in entries && a.contractId == b.contractId
    ensures a == b
  {
    var i: nat :| i < |entries| && entries[i] == a;
    var j: nat :| j < |entries| && entries[j] == b;
    if i != j { DifferentIds(entries, i, j); }
  }

  /** The results of a pass are the attempts at its entries. */
  lemma {:induction false} AttemptRecorded(entries: seq<Entry>, reply: nat -> Reply, order: seq<nat>, j: nat)
    requires SlidingWindow.EachOnce(|entries|, order) && j < |entries|
    ensures Attempt(entries[j], reply(j)) in Pick(Outcomes(entries, reply), order)
  {
    assert j in order;
    var m :| 0 <= m < |order| && order[m] == j;
    assert Pick(Outcomes(entries, reply), order)[m] == Attempt(entries[j], reply(j));
  }

  lemma {:induction false} RecordedAttempt(entries: seq<Entry>, reply: nat -> Reply, order: seq<nat>,
                                           r: RegistrationResult) returns (j: nat)
    requires forall k :: 0 <= k < |order| ==> order[k] < |entries|
    requires r in Pick(Outcomes(entries, reply), order)
    ensures j < |entries| && r == Attempt(entries[j], reply(j))
  {
    var m :| 0 <= m < |order| && Pick(Outcomes(entries, reply), order)[m] == r;
    j := order[m];
  }

  /** Where a result of the first pass ends up: kept if it did not fail, and
      otherwise replaced by the second attempt at the same entry. */
  ghost predicate Settled(entry: Entry, before: RegistrationResult, after: RegistrationResult,
                          again: seq<Entry>, reply2: nat -> Reply) {
    && after.contractId == before.contractId == entry.contractId
    && if before.status == Failed
    then exists j :: 0 <= j < |again| && again[j] == entry && after == Attempt(again[j], reply2(j))
    else after == before
  }

  lemma {:induction false} NotRetried(results: seq<RegistrationResult>, k: nat)
    requires DistinctResults(results) && k < |results| && results[k].status != Failed
    ensures results[k].contractId !in FailedIds(results)
  {
  }

  lemma {:induction false} KeptResult(entries: seq<Entry>, results: seq<RegistrationResult>, k: nat,
                                      reply2: nat -> Reply, order2: seq<nat>)
    requires DistinctResults(results) && k < |results| && results[k].status != Failed
    requires var again := FailedEntries(entries, FailedIds(results));
      forall i :: 0 <= i < |order2| ==> order2[i] < |again|
    ensures var again := FailedEntries(entries, FailedIds(results));
      Merge(results, Pick(Outcomes(again, reply2), order2))[k] == results[k]
  {
    var again := FailedEntries(entries, FailedIds(results));
    var retried := Pick(Outcomes(again, reply2), order2);
    MergedIs(results, retried, k);
    var found := Lookup(retried, results[k].contractId);
    if found.Some? {
      var j := RecordedAttempt(again, reply2, order2, found.value);
      FailedEntriesAre(entries, FailedIds(results), again[j]);
      NotRetried(results, k);
    }
  }

  /** The only retried result with an entry's id is the attempt at that entry. */
  lemma {:induction false} FoundAgain(entries: seq<Entry>, ids: set<ContractId>, entry: Entry,
                                      reply2: nat -> Reply, order2: seq<nat>) returns (j: nat)
    requires DistinctIds(entries) && entry in entries && entry.contractId in ids
    requires SlidingWindow.EachOnce(|FailedEntries(entries, ids)|, order2)
    ensures var again := FailedEntries(entries, ids);
      && j < |again| && again[j] == entry
      && Lookup(Pick(Outcomes(again, reply2), order2), entry.contractId) == Some(Attempt(entry, reply2(j)))
  {
    var again := FailedEntries(entries, ids);
    var retried := Pick(Outcomes(again, reply2), order2);
    FailedEntriesAre(entries, ids, entry);
    var i: nat :| i < |again| && again[i] == entry;
    AttemptRecorded(again, reply2, order2, i);
    var found := Lookup(retried, entry.contractId);
    assert found.Some?;
    j := RecordedAttempt(again, reply2, order2, found.value);
    assert again[j] == entry by {
      FailedEntriesAre(entries, ids, again[j]);
      SameEntry(entries, again[j], entry);
    }
  }

  lemma {:induction false} RetriedResult(entries: seq<Entry>, results: seq<RegistrationResult>, k: nat,
                                         entry: Entry, reply2: nat -> Reply, order2: seq<nat>)
    requires DistinctIds(entries) && DistinctResults(results)
    requires k < |results| && results[k].status == Failed
    requires results[k].contractId == entry.contractId && entry in entries
    requires SlidingWindow.EachOnce(|FailedEntries(entries, FailedIds(results))|, order2)
    ensures var again := FailedEntries(entries, FailedIds(results));
      Settled(entry, results[k], Merge(results, Pick(Outcomes(again, reply2), order2))[k], again, reply2)
  {
    var again := FailedEntries(entries, FailedIds(results));
    assert entry.contractId in FailedIds(results);
    MergedIs(results, Pick(Outcomes(again, reply2), order2), k);
    var j := FoundAgain(entries, FailedIds(results), entry, reply2, order2);
  }

  /** What the merge makes of the result in place `k`. */
  lemma {:induction false} OutcomeAt(entries: seq<Entry>, reply1: nat -> Reply, order1: seq<nat>,
                                     reply2: nat -> Reply, order2: seq<nat>, k: nat)
    requires DistinctIds(entries) && SlidingWindow.EachOnce(|entries|, order1) && k < |order1|
    requires SlidingWindow.EachOnce(|Again(entries, Pass(entries, reply1, order1, 0))|, order2)
    ensures var first := Pass(entries, reply1, order1, 0);
      var again := Again(entries, first);
      var after := Merge(first.results, Pass(again, reply2, order2, 0).results)[k];
      Settled(entries[order1[k]], first.results[k], after, again, reply2)
  {
    var results := Pass(entries, reply1, order1, 0).results;
    var entry := entries[order1[k]];
    assert DistinctResults(results) by {
      PassResults(entries, reply1, order1);
    }
    assert results[k] == Attempt(entry, reply1(order1[k]));
    if results[k].status == Failed {
      RetriedResult(entries, results, k, entry, reply2, order2);
    } else {
      KeptResult(entries, results, k, reply2, order2);
    }
  }

  /** The merged results, for every completion order of both passes: the same
      ids in the same places, each once, and each result settled. */
  lemma {:induction false} RetryOutcome(entries: seq<Entry>, reply1: nat -> Reply, order1: seq<nat>,
                                        reply2: nat -> Reply, order2: seq<nat>)
    requires DistinctIds(entries) && SlidingWindow.EachOnce(|entries|, order1)
    requires SlidingWindow.EachOnce(|Again(entries, Pass(entries, reply1, order1, 0))|, order2)
    ensures var first := Pass(entries, reply1, order1, 0);
      var again := Again(entries, first);
      var merged := Merge(first.results, Pass(again, reply2, order2, 0).results);
      && |merged| == |order1| == |entries|
      && DistinctResults(merged)
      && (forall k :: 0 <= k < |merged| ==> merged[k].contractId == first.results[k].contractId)
      && (forall k :: 0 <= k < |merged| ==>
            Settled(entries[order1[k]], first.results[k], merged[k], again, reply2))
  {
    var results := Pass(entries, reply1, order1, 0).results;
    var again := FailedEntries(entries, FailedIds(results));
    var merged := Merge(results, Pass(again, reply2, order2, 0).results);
    forall k | 0 <= k < |merged|
      ensures merged[k].contractId == results[k].contractId
      ensures Settled(entries[order1[k]], results[k], merged[k], again, reply2)
    {
      OutcomeAt(entries, reply1, order1, reply2, order2, k);
    }
    assert DistinctResults(merged) by {
      PassResults(entries, reply1, order1);
      SameIds(results, merged);
    }
  }

  lemma {:induction false} SameIds(a: seq<RegistrationResult>, b: seq<RegistrationResult>)
    requires DistinctResults(a) && |a| == |b|
    requires forall k :: 0 <= k < |a| ==> b[k].contractId == a[k].contractId
    ensures DistinctResults(b)
  {
  }

  // ---- in terms of the registry's replies ------------------------------------------

  predicate Fails(reply: Reply) {
    !reply.Conflict? && !reply.Accepted?
  }

  /** The entries whose first reply is a failure, in manifest order. */
  function Failing(entries: seq<Entry>, reply: nat -> Reply): seq<Entry> {
    if entries == [] then []
    else
      var n := |entries| - 1;
      Failing(entries[..n], reply) + if Fails(reply(n)) then [entries[n]] else []
  }

  lemma {:induction false} FailedEntriesSnoc(entries: seq<Entry>, e: Entry, ids: set<ContractId>)
    ensures FailedEntries(entries + [e], ids)
         == FailedEntries(entries, ids) + if e.contractId in ids then [e] else []
  {
    if entries == [] {
      assert [e][1..] == [];
      assert entries + [e] == [e];
    } else {
      FailedEntriesSnoc(entries[1..], e, ids);
      assert (entries + [e])[1..] == entries[1..] + [e];
    }
  }

  lemma {:induction false} FailingAre(entries: seq<Entry>, reply: nat -> Reply, ids: set<ContractId>)
    requires forall i :: 0 <= i < |entries| ==> (entries[i].contractId in ids <==> Fails(reply(i)))
    ensures FailedEntries(entries, ids) == Failing(entries, reply)
  {
    if entries != [] {
      var n := |entries| - 1;
      FailingAre(entries[..n], reply, ids);
      assert entries == entries[..n] + [entries[n]];
      FailedEntriesSnoc(entries[..n], entries[n], ids);
    }
  }

  lemma {:induction false} FailedIdOf(entries: seq<Entry>, reply: nat -> Reply, order: seq<nat>, i: nat)
    requires DistinctIds(entries) && SlidingWindow.EachOnce(|entries|, order) && i < |entries|
    ensures entries[i].contractId in FailedIds(Pick(Outcomes(entries, reply), order)) <==> Fails(reply(i))
  {
    var results := Pick(Outcomes(entries, reply), order);
    PassResults(entries, reply, order);
    assert i in order;
    var m :| 0 <= m < |order| && order[m] == i;
    assert results[m] == Attempt(entries[i], reply(i));
    if entries[i].contractId in FailedIds(results) {
      var k :| 0 <= k < |results| && results[k].status == Failed && results[k].contractId == entries[i].contractId;
      assert k == m;
    }
  }

  /** Whatever the completion order, the second pass attempts exactly the entries
      whose first reply was a failure. */
  lemma {:induction false} AgainIsFailing(entries: seq<Entry>, reply: nat -> Reply, order: seq<nat>, skipped: nat)
    requires DistinctIds(entries) && SlidingWindow.EachOnce(|entries|, order)
    ensures Again(entries, Pass(entries, reply, order, skipped)) == Failing(entries, reply)
  {
    forall i | 0 <= i < |entries|
      ensures entries[i].contractId in FailedIds(Pick(Outcomes(entries, reply), order)) <==> Fails(reply(i))
    {
      FailedIdOf(entries, reply, order, i);
    }
    FailingAre(entries, reply, FailedIds(Pick(Outcomes(entries, reply), order)));
  }

  /** The second reply to an entry, if there is one. */
  ghost predicate RepliedAgain(entries: seq<Entry>, reply1: nat -> Reply, reply2: nat -> Reply, e: Entry, reply: Reply) {
    var again := Failing(entries, reply1);
    exists j :: 0 <= j < |again| && again[j] == e && reply == reply2(j)
  }

  lemma {:induction false} FailedEntriesDistinct(entries: seq<Entry>, ids: set<ContractId>)
    requires DistinctIds(entries)
    ensures DistinctIds(FailedEntries(entries, ids))
  {
    if entries != [] {
      var rest := FailedEntries(entries[1..], ids);
      FailedEntriesDistinct(entries[1..], ids);
      forall j | 0 <= j < |rest| ensures rest[j].contractId != entries[0].contractId {
        FailedEntriesAre(entries[1..], ids, rest[j]);
        var k :| 0 <= k < |entries[1..]| && entries[1..][k] == rest[j];
        assert entries[k + 1] == rest[j];
      }
    }
  }

  lemma {:induction false} SecondReply(again: seq<Entry>, reply2: nat -> Reply, e: Entry, i: nat, j: nat)
    requires DistinctIds(again) && i < |again| && j < |again| && again[i] == e && again[j] == e
    ensures reply2(i) == reply2(j)
  {
    if i != j { DifferentIds(again, i, j); }
  }

  /** A retried result is the attempt with the entry's second reply. */
  lemma {:induction false} MergedAgain(entries: seq<Entry>, reply1: nat -> Reply, order1: seq<nat>,
                                       reply2: nat -> Reply, order2: seq<nat>, k: nat) returns (reply: Reply)
    requires DistinctIds(entries) && SlidingWindow.EachOnce(|entries|, order1) && k < |order1|
    requires SlidingWindow.EachOnce(|Again(entries, Pass(entries, reply1, order1, 0))|, order2)
    requires Fails(reply1(order1[k]))
    ensures var first := Pass(entries, reply1, order1, 0);
      Merge(first.results, Pass(Again(entries, first), reply2, order2, 0).results)[k] == Attempt(entries[order1[k]], reply)
    ensures RepliedAgain(entries, reply1, reply2, entries[order1[k]], reply)
  {
    var first := Pass(entries, reply1, order1, 0);
    var again := Again(entries, first);
    var e := entries[order1[k]];
    OutcomeAt(entries, reply1, order1, reply2, order2, k);
    AgainIsFailing(entries, reply1, order1, 0);
    assert first.results[k] == Attempt(e, reply1(order1[k]));
    var merged := Merge(first.results, Pass(again, reply2, order2, 0).results)[k];
    var j :| 0 <= j < |again| && again[j] == e && merged == Attempt(again[j], reply2(j));
    reply := reply2(j);
  }

  lemma {:induction false} OneSecondReply(entries: seq<Entry>, reply1: nat -> Reply, order: seq<nat>, reply2: nat -> Reply,
                                          e: Entry, a: Reply, b: Reply)
    requires DistinctIds(entries) && SlidingWindow.EachOnce(|entries|, order)
    requires RepliedAgain(entries, reply1, reply2, e, a) && RepliedAgain(entries, reply1, reply2, e, b)
    ensures a == b
  {
    var again := Failing(entries, reply1);
    AgainIsFailing(entries, reply1, order, 0);
    FailedEntriesDistinct(entries, FailedIds(Pass(entries, reply1, order, 0).results));
    var i :| 0 <= i < |again| && again[i] == e && a == reply2(i);
    var j :| 0 <= j < |again| && again[j] == e && b == reply2(j);
    SecondReply(again, reply2, e, i, j);
  }

  /** A result is "failed" after the merge exactly if both attempts at its entry
      failed, and "skipped" exactly if the first or the second met a conflict. */
  lemma {:induction false} MergedStatus(entries: seq<Entry>, reply1: nat -> Reply, order1: seq<nat>,
                                        reply2: nat -> Reply, order2: seq<nat>, k: nat)
    requires DistinctIds(entries) && SlidingWindow.EachOnce(|entries|, order1) && k < |order1|
    requires SlidingWindow.EachOnce(|Again(entries, Pass(entries, reply1, order1, 0))|, order2)
    ensures var first := Pass(entries, reply1, order1, 0);
      var merged := Merge(first.results, Pass(Again(entries, first), reply2, order2, 0).results)[k];
      var e, once := entries[order1[k]], reply1(order1[k]);
      && (Fails(once) ==> exists reply :: RepliedAgain(entries, reply1, reply2, e, reply))
      && forall reply :: (Fails(once) ==> RepliedAgain(entries, reply1, reply2, e, reply)) ==>
           && (merged.status == Failed <==> Fails(once) && Fails(reply))
           && (merged.status == Skipped <==> once.Conflict? || (Fails(once) && reply.Conflict?))
  {
    var e, once := entries[order1[k]], reply1(order1[k]);
    if Fails(once) {
      var second := MergedAgain(entries, reply1, order1, reply2, order2, k);
      forall reply | RepliedAgain(entries, reply1, reply2, e, reply) ensures reply == second {
        OneSecondReply(entries, reply1, order1, reply2, e, reply, second);
      }
    } else {
      assert Pass(entries, reply1, order1, 0).results[k] == Attempt(e, once);
      OutcomeAt(entries, reply1, order1, reply2, order2, k);
    }
  }

  /** No entry met a conflict, neither at first nor when it was attempted again. */
  ghost predicate NoConflict(entries: seq<Entry>, reply1: nat -> Reply, reply2: nat -> Reply) {
    && (forall i :: 0 <= i < |entries| ==> !reply1(i).Conflict?)
    && (forall j :: 0 <= j < |Failing(entries, reply1)| ==> !reply2(j).Conflict?)
  }

  lemma {:induction false} FailingFrom(entries: seq<Entry>, reply: nat -> Reply, j: nat) returns (i: nat)
    requires j < |Failing(entries, reply)|
    ensures i < |entries| && Failing(entries, reply)[j] == entries[i] && Fails(reply(i))
  {
    var n := |entries| - 1;
    if j < |Failing(entries[..n], reply)| {
      i := FailingFrom(entries[..n], reply, j);
    } else {
      i := n;
    }
  }

  lemma {:induction false} PlaceOf(order: seq<nat>, n: nat, i: nat) returns (k: nat)
    requires SlidingWindow.EachOnce(n, order) && i < n
    ensures k < |order| && order[k] == i
  {
    assert i in order;
    k :| 0 <= k < |order| && order[k] == i;
  }

  lemma {:induction false} SkippedMeansConflict(entries: seq<Entry>, reply1: nat -> Reply, order1: seq<nat>,
                                                reply2: nat -> Reply, order2: seq<nat>, k: nat)
    requires DistinctIds(entries) && SlidingWindow.EachOnce(|entries|, order1) && k < |order1|
    requires SlidingWindow.EachOnce(|Again(entries, Pass(entries, reply1, order1, 0))|, order2)
    requires var first := Pass(entries, reply1, order1, 0);
      Merge(first.results, Pass(Again(entries, first), reply2, order2, 0).results)[k].status == Skipped
    ensures !NoConflict(entries, reply1, reply2)
  {
    MergedStatus(entries, reply1, order1, reply2, order2, k);
    var once := reply1(order1[k]);
    if Fails(once) {
      var reply :| RepliedAgain(entries, reply1, reply2, entries[order1[k]], reply);
      assert reply.Conflict?;
    }
  }

  lemma {:induction false} ConflictMeansSkipped(entries: seq<Entry>, reply1: nat -> Reply, order1: seq<nat>,
                                                reply2: nat -> Reply, order2: seq<nat>) returns (k: nat)
    requires DistinctIds(entries) && SlidingWindow.EachOnce(|entries|, order1)
    requires SlidingWindow.EachOnce(|Again(entries, Pass(entries, reply1, order1, 0))|, order2)
    requires !NoConflict(entries, reply1, reply2)
    ensures var first := Pass(entries, reply1, order1, 0);
      k < |first.results| &&
      Merge(first.results, Pass(Again(entries, first), reply2, order2, 0).results)[k].status == Skipped
  {
    if i: nat :| i < |entries| && reply1(i).Conflict? {
      k := PlaceOf(order1, |entries|, i);
      MergedStatus(entries, reply1, order1, reply2, order2, k);
    } else {
      var j: nat :| j < |Failing(entries, reply1)| && reply2(j).Conflict?;
      var i := FailingFrom(entries, reply1, j);
      k := PlaceOf(order1, |entries|, i);
      MergedStatus(entries, reply1, order1, reply2, order2, k);
      assert RepliedAgain(entries, reply1, reply2, entries[i], reply2(j));
    }
  }

  /** After the recount the counters add up to the total together with the
      results of status "skipped"; by themselves they do if and only if no reply
      was a conflict, neither at first nor to an entry attempted again. */
  lemma {:induction false} RetryCounters(entries: seq<Entry>, reply1: nat -> Reply, order1: seq<nat>,
                                         skipped: nat, reply2: nat -> Reply, order2: seq<nat>)
    requires DistinctIds(entries) && SlidingWindow.EachOnce(|entries|, order1)
    requires SlidingWindow.EachOnce(|Again(entries, Pass(entries, reply1, order1, skipped))|, order2)
    ensures var first := Pass(entries, reply1, order1, skipped);
      var r := AfterRetry(first, Pass(Again(entries, first), reply2, order2, 0));
      && r.total == |entries| && r.skipped == skipped
      && r.registered + r.failed + Count(r.results, Skipped) == r.total
      && (r.registered + r.failed == r.total <==> NoConflict(entries, reply1, reply2))
  {
    assert Pass(entries, reply1, order1, skipped).results == Pass(entries, reply1, order1, 0).results;
    var first := Pass(entries, reply1, order1, skipped);
    var merged := Merge(first.results, Pass(Again(entries, first), reply2, order2, 0).results);
    CountsAddUp(merged);
    NoneCounted(merged, Skipped);
    if !NoConflict(entries, reply1, reply2) {
      var k := ConflictMeansSkipped(entries, reply1, order1, reply2, order2);
    } else if k :| 0 <= k < |merged| && merged[k].status == Skipped {
      SkippedMeansConflict(entries, reply1, order1, reply2, order2, k);
    }
  }

  function ConflictThenFailure(reason: string): nat -> Reply {
    (i: nat) => if i == 0 then Conflict else Unreachable(reason)
  }

  function AlwaysAccepted(): nat -> Reply {
    (i: nat) => Accepted(None, None)
  }

  lemma {:induction false} PairPicked(e: Entry, f: Entry, reply: nat -> Reply)
    ensures Pick(Outcomes([e, f], reply), [0, 1]) == [Attempt(e, reply(0)), Attempt(f, reply(1))]
  {
  }

  lemma {:induction false} PairAgain(e: Entry, f: Entry, reply: nat -> Reply)
    requires e.contractId != f.contractId && !Fails(reply(0)) && Fails(reply(1))
    requires SlidingWindow.EachOnce(2, [0, 1])
    ensures Again([e, f], Pass([e, f], reply, [0, 1], 0)) == [f]
  {
    AgainIsFailing([e, f], reply, [0, 1], 0);
    FailingPair(e, f, reply);
  }

  lemma {:induction false} ConflictFirstPass(e: Entry, f: Entry, reason: string)
    requires e.contractId != f.contractId
    ensures PassOrder([e, f], 1, [0, 1])
    ensures var first := Pass([e, f], ConflictThenFailure(reason), [0, 1], 0);
      && first == Summary(2, 1, 1, 0, [Attempt(e, Conflict), Attempt(f, Unreachable(reason))])
      && Again([e, f], first) == [f]
  {
    InOrder(2);
    assert Range(2) == [0, 1];
    PairAgain(e, f, ConflictThenFailure(reason));
    PairPicked(e, f, ConflictThenFailure(reason));
    Pair(Attempt(e, Conflict), Attempt(f, Unreachable(reason)));
  }

  lemma {:induction false} AcceptedSecondPass(f: Entry)
    ensures PassOrder([f], 1, [0])
    ensures Pass([f], AlwaysAccepted(), [0], 0).results == [Attempt(f, Accepted(None, None))]
  {
    InOrder(1);
    assert Range(1) == [0];
    assert Pick(Outcomes([f], AlwaysAccepted()), [0]) == [Attempt(f, Accepted(None, None))];
  }

  lemma {:induction false} MergedPair(a: RegistrationResult, b: RegistrationResult, c: RegistrationResult)
    requires a.contractId != b.contractId && c.contractId == b.contractId
    ensures Merge([a, b], [c]) == [a, c]
  {
    assert [c][1..] == [];
    assert Find([a, b], c.contractId) == 1;
    assert [a, b][1 := c] == [a, c];
  }

  /** Two entries of which the first meets a conflict and the second fails and
      then succeeds: nothing failed, but only one of two counts as registered. */
  lemma {:induction false} ConflictDropped(e: Entry, f: Entry, reason: string)
    requires e.contractId != f.contractId
    ensures PassOrder([e, f], 1, [0, 1])
    ensures var first := Pass([e, f], ConflictThenFailure(reason), [0, 1], 0);
      && first.registered == 1 && first.failed == 1
      && PassOrder(Again([e, f], first), 1, [0])
      && var r := AfterRetry(first, Pass(Again([e, f], first), AlwaysAccepted(), [0], 0));
         r.total == 2 && r.registered == 1 && r.failed == 0
  {
    ConflictFirstPass(e, f, reason);
    AcceptedSecondPass(f);
    var a, b, c := Attempt(e, Conflict), Attempt(f, Unreachable(reason)), Attempt(f, Accepted(None, None));
    MergedPair(a, b, c);
    Pair(a, c);
  }

  lemma {:induction false} FailingPair(e: Entry, f: Entry, reply: nat -> Reply)
    requires !Fails(reply(0)) && Fails(reply(1))
    ensures Failing([e, f], reply) == [f]
  {
    assert [e, f][..1] == [e] && [e][..0] == [];
    assert Failing([e], reply) == Failing([e][..0], reply) + [];
  }

  lemma {:induction false} Pair(a: RegistrationResult, b: RegistrationResult)
    ensures forall s :: Count([a, b], s) == (if a.status == s then 1 else 0) + if b.status == s then 1 else 0
  {
    assert [a, b][1..] == [b] && [b][1..] == [];
    forall s ensures Count([a, b], s) == (if a.status == s then 1 else 0) + if b.status == s then 1 else 0 {
      assert Count([b], s) == if b.status == s then 1 else 0;
    }
  }

  // ---- the command -------------------------------------------------------------------

  ghost predicate Mentions(results: seq<RegistrationResult>, id: ContractId) {
    exists r :: r in results && r.contractId == id
  }

  ghost predicate Lists(entries: seq<Entry>, id: ContractId) {
    exists e :: e in entries && e.contractId == id
  }

  /** What the printed summary is, for any completion orders: one result for each
      id of the manifest, and counters that account for them. */
  ghost predicate Accounts(manifest: seq<Entry>, entries: seq<Entry>, summary: Summary, retried: bool) {
    && summary.total == |entries| == |summary.results| && summary.skipped == |manifest| - |entries|
    && DistinctResults(summary.results)
    && (forall id :: Mentions(summary.results, id) <==> Lists(manifest, id))
    && summary.failed == Count(summary.results, Failed)
    && summary.registered + summary.failed + (if retried then Count(summary.results, Skipped) else 0) == summary.total
  }

  lemma {:induction false} EntryIds(manifest: seq<Entry>, id: ContractId)
    ensures Lists(KeepFirst(manifest, IdOf, {}), id) <==> Lists(manifest, id)
  {
    var entries := KeepFirst(manifest, IdOf, {});
    DedupedIds(manifest);
    if e :| e in entries && e.contractId == id {
      KeptComeFrom(manifest, {}, e);
    }
  }

  lemma {:induction false} KeptComeFrom(items: seq<Entry>, seen: set<ContractId>, e: Entry)
    requires e in KeepFirst(items, IdOf, seen)
    ensures e in items
    decreases |items|
  {
    assert items == [items[0]] + items[1..];
    var id := items[0].contractId;
    if id in seen {
      KeptComeFrom(items[1..], seen, e);
    } else if e != items[0] {
      KeptComeFrom(items[1..], seen + {id}, e);
    }
  }

  /** Results in a completion order have the ids of the entries. */
  lemma {:induction false} ResultIds(entries: seq<Entry>, order: seq<nat>, results: seq<RegistrationResult>, id: ContractId)
    requires SlidingWindow.EachOnce(|entries|, order) && |results| == |order|
    requires forall k :: 0 <= k < |order| ==> results[k].contractId == entries[order[k]].contractId
    ensures Mentions(results, id) <==> Lists(entries, id)
  {
    if r :| r in results && r.contractId == id {
      var k :| 0 <= k < |results| && results[k] == r;
      assert entries[order[k]] in entries;
    }
    if e :| e in entries && e.contractId == id {
      var i: nat :| i < |entries| && entries[i] == e;
      var k := PlaceOf(order, |entries|, i);
      assert results[k] in results;
    }
  }

  lemma {:induction false} SummaryIds(manifest: seq<Entry>, order: seq<nat>, results: seq<RegistrationResult>)
    requires var entries := KeepFirst(manifest, IdOf, {});
      && SlidingWindow.EachOnce(|entries|, order) && |results| == |order|
      && forall k :: 0 <= k < |order| ==> results[k].contractId == entries[order[k]].contractId
    ensures forall id :: Mentions(results, id) <==> Lists(manifest, id)
  {
    forall id ensures Mentions(results, id) <==> Lists(manifest, id) {
      ResultIds(KeepFirst(manifest, IdOf, {}), order, results, id);
      EntryIds(manifest, id);
    }
  }

  lemma {:induction false} OncePassed(manifest: seq<Entry>, reply: nat -> Reply, order: seq<nat>)
    requires SlidingWindow.EachOnce(|KeepFirst(manifest, IdOf, {})|, order)
    ensures var entries := KeepFirst(manifest, IdOf, {});
      Accounts(manifest, entries, Pass(entries, reply, order, Duplicates(manifest)), false)
  {
    var entries := KeepFirst(manifest, IdOf, {});
    DedupedIds(manifest);
    PassResults(entries, reply, order);
    var results := Pick(Outcomes(entries, reply), order);
    SummaryIds(manifest, order, results);
    CountsAddUp(results);
  }

  lemma {:induction false} TwicePassed(manifest: seq<Entry>, reply1: nat -> Reply, order1: seq<nat>,
                                       reply2: nat -> Reply, order2: seq<nat>)
    requires var entries := KeepFirst(manifest, IdOf, {});
      && SlidingWindow.EachOnce(|entries|, order1)
      && SlidingWindow.EachOnce(|Again(entries, Pass(entries, reply1, order1, Duplicates(manifest)))|, order2)
    ensures var entries := KeepFirst(manifest, IdOf, {});
      var first := Pass(entries, reply1, order1, Duplicates(manifest));
      Accounts(manifest, entries, AfterRetry(first, Pass(Again(entries, first), reply2, order2, 0)), true)
  {
    var entries := KeepFirst(manifest, IdOf, {});
    var first := Pass(entries, reply1, order1, Duplicates(manifest));
    assert first.results == Pass(entries, reply1, order1, 0).results;
    DedupedIds(manifest);
    RetryOutcome(entries, reply1, order1, reply2, order2);
    RetryCounters(entries, reply1, order1, Duplicates(manifest), reply2, order2);
    PassResults(entries, reply1, order1);
    SummaryIds(manifest, order1, Merge(first.results, Pass(Again(entries, first), reply2, order2, 0).results));
  }

  /** What the command prints in the end: the planned registrations of a dry run,
      or the summary of what was done. */
  datatype Report = Planned(entries: seq<Entry>, duplicates: nat) | Submitted(summary: Summary)

  ghost function Conclude(summary: Summary): Result<Report, Failure> {
    if summary.failed > 0 then Err(SomeFailed(summary)) else Ok(Submitted(summary))
  }

  /** The command fails exactly when some result is "failed". */
  ghost predicate Concluded(outcome: Result<Report, Failure>, summary: Summary) {
    if exists r :: r in summary.results && r.status == Failed then outcome == Err(SomeFailed(summary))
    else outcome == Ok(Submitted(summary))
  }

  lemma {:induction false} ConcludedIs(summary: Summary)
    requires summary.failed == Count(summary.results, Failed)
    ensures Concluded(Conclude(summary), summary)
  {
    NoneCounted(summary.results, Failed);
    if r :| r in summary.results && r.status == Failed {
      var k :| 0 <= k < |summary.results| && summary.results[k] == r;
    }
    if k :| 0 <= k < |summary.results| && summary.results[k].status == Failed {
      assert summary.results[k] in summary.results;
    }
  }

  /** The errors found before anything is sent, in the order of the checks. */
  ghost predicate Rejected(entries: seq<Entry>, failure: Failure) {
    if entries == [] then failure == NothingToRegister
    else if |entries| > MAX_BATCH_SIZE then failure == TooMany(|entries|)
    else
      && failure.Invalid? && failure.problems != []
      && forall p :: p in failure.problems <==> exists e :: e in entries && IsProblemOf(p, e)
  }

  ghost predicate Acceptable(entries: seq<Entry>) {
    0 < |entries| <= 50 && forall e :: e in entries ==> ValidEntry(e)
  }

  /** The whole command, from the resolved entries of the manifest on. */
  method RunBatchRegister(manifest: seq<Entry>, dryRun: bool, concurrent: Option<nat>, retry: bool,
                          reply1: nat -> Reply, reply2: nat -> Reply)
      returns (outcome: Result<Report, Failure>, entries: seq<Entry>, ghost order1: seq<nat>, ghost order2: seq<nat>)
    ensures entries == KeepFirst(manifest, IdOf, {})
    ensures !Acceptable(entries) ==> outcome.Err? && Rejected(entries, outcome.error)
    ensures Acceptable(entries) && dryRun ==> outcome == Ok(Planned(entries, Duplicates(manifest)))
    ensures Acceptable(entries) && !dryRun ==>
      && PassOrder(entries, Width(concurrent), order1)
      && var first := Pass(entries, reply1, order1, Duplicates(manifest));
        if retry && first.failed > 0 then
          && PassOrder(Again(entries, first), Width(concurrent), order2)
          && outcome == Conclude(AfterRetry(first, Pass(Again(entries, first), reply2, order2, 0)))
        else outcome == Conclude(first)
    ensures Acceptable(entries) && !dryRun ==> exists summary, retried ::
      Accounts(manifest, entries, summary, retried) && Concluded(outcome, summary) && (retried ==> retry)
  {
    order1, order2 := [], [];
    var skippedDuplicates;
    entries, skippedDuplicates := Deduplicate(manifest);
    if entries == [] {
      return Err(NothingToRegister), entries, [], [];
    }
    if |entries| > MAX_BATCH_SIZE {
      return Err(TooMany(|entries|)), entries, [], [];
    }
    var problems := ValidateAll(entries);
    if problems != [] {
      return Err(Invalid(problems)), entries, [], [];
    }
    if dryRun {
      return Ok(Planned(entries, skippedDuplicates)), entries, [], [];
    }
    var summary;
    summary, order1, order2 := RegisterAndRetry(entries, skippedDuplicates, concurrent, retry, reply1, reply2);
    outcome := if summary.failed > 0 then Err(SomeFailed(summary)) else Ok(Submitted(summary));
    ghost var first := Pass(entries, reply1, order1, Duplicates(manifest));
    if retry && first.failed > 0 {
      TwicePassed(manifest, reply1, order1, reply2, order2);
      assert Accounts(manifest, entries, summary, true);
    } else {
      OncePassed(manifest, reply1, order1);
      assert Accounts(manifest, entries, summary, false);
    }
    ConcludedIs(summary);
  }

  lemma {:induction false} NoneCounted(results: seq<RegistrationResult>, status: Status)
    ensures Count(results, status) == 0 <==> forall k :: 0 <= k < |results| ==> results[k].status != status
  {
    if results != [] {
      NoneCounted(results[1..], status);
      assert forall k :: 1 <= k < |results| ==> results[k] == results[1..][k - 1];
      assert forall k :: 0 <= k < |results[1..]| ==> results[1..][k] == results[k + 1];
    }
  }
}
