/** Chunked dispatch, as `batch-update` and `batch-verify` do it: the items are
    cut into chunks, the chunks are sent through a window of four tasks, and the
    answers are added up as they arrive.  The first failing answer that arrives
    ends the dispatch. */
module ChunkDispatch {
  import opened Wrappers
  import opened Sequences
  import SlidingWindow

  const MAX_BATCH_SIZE: nat := 50
  const CHUNK_CONCURRENCY: nat := 4

  /** The registry's answer to one chunk.  `batch-update` counts successes and
      failures; `batch-verify` also counts cached verdicts. */
  datatype Response<R> = Response(total: nat, succeeded: nat, failed: nat, cached: nat, results: seq<R>)

  function Chunks<T>(items: seq<T>): seq<seq<T>> {
    if |items| == 0 then []
    else if |items| <= MAX_BATCH_SIZE then [items]
    else [items[..MAX_BATCH_SIZE]] + Chunks(items[MAX_BATCH_SIZE..])
  }

  /** The chunks are the items in order, none empty and none over the limit. */
  lemma {:induction false} ChunksOf<T>(items: seq<T>)
    ensures Flatten(Chunks(items)) == items
    ensures forall i :: 0 <= i < |Chunks(items)| ==> 1 <= |Chunks(items)[i]| <= 50
  {
    if |items| > MAX_BATCH_SIZE {
      ChunksOf(items[MAX_BATCH_SIZE..]);
      assert items == items[..MAX_BATCH_SIZE] + items[MAX_BATCH_SIZE..];
    } else if |items| > 0 {
      assert [items][1..] == [];
    }
  }

  /** All chunks but the last are full, so there are as few as possible. */
  lemma {:induction false} ChunkCount<T>(items: seq<T>)
    ensures |Chunks(items)| == (|items| + 49) / 50
  {
    if |items| > MAX_BATCH_SIZE {
      ChunkCount(items[MAX_BATCH_SIZE..]);
    }
  }

  ghost predicate AllOk<R, E>(answer: nat -> Result<Response<R>, E>, tasks: seq<nat>) {
    forall k :: 0 <= k < |tasks| ==> answer(tasks[k]).Ok?
  }

  ghost function Answers<R, E>(answer: nat -> Result<Response<R>, E>, tasks: seq<nat>): (r: seq<Response<R>>)
    requires AllOk(answer, tasks)
    ensures |r| == |tasks|
  {
    seq(|tasks|, k requires 0 <= k < |tasks| => answer(tasks[k]).value)
  }

  /** The same counters, and the same results in some order. */
  ghost predicate SameUpToOrder<R>(a: Response<R>, b: Response<R>) {
    a.(results := b.results) == b && IsPermutation(a.results, b.results)
  }

  function ResultsOf<R>(response: Response<R>): seq<R> {
    response.results
  }

  /** The sums of the counters and the results one after the other. */
  ghost function Total<R>(responses: seq<Response<R>>): Response<R> {
    Response(Sum(Apply((r: Response<R>) => r.total, responses)),
             Sum(Apply((r: Response<R>) => r.succeeded, responses)),
             Sum(Apply((r: Response<R>) => r.failed, responses)),
             Sum(Apply((r: Response<R>) => r.cached, responses)),
             Flatten(Apply(ResultsOf<R>, responses)))
  }

  lemma {:induction false} SumSnoc<R>(f: Response<R> -> nat, responses: seq<Response<R>>, r: Response<R>)
    ensures Sum(Apply(f, responses + [r])) == Sum(Apply(f, responses)) + f(r)
  {
    assert Apply(f, responses + [r]) == Apply(f, responses) + [f(r)];
    SumAppend(Apply(f, responses), [f(r)]);
    assert [f(r)][1..] == [];
  }

  lemma {:induction false} FlattenSnoc<T, R>(f: Response<R> -> seq<T>, responses: seq<Response<R>>, r: Response<R>)
    ensures Flatten(Apply(f, responses + [r])) == Flatten(Apply(f, responses)) + f(r)
  {
    assert Apply(f, responses + [r]) == Apply(f, responses) + [f(r)];
    FlattenAppend(Apply(f, responses), [f(r)]);
    assert [f(r)][1..] == [];
  }

  /** The answers to these chunks were all fine and add up to `merged`. */
  ghost predicate Collected<R, E>(answer: nat -> Result<Response<R>, E>, order: seq<nat>, merged: Response<R>) {
    AllOk(answer, order) && merged == Total(Answers(answer, order))
  }

  function Added<R>(merged: Response<R>, resp: Response<R>): Response<R> {
    Response(merged.total + resp.total, merged.succeeded + resp.succeeded, merged.failed + resp.failed,
             merged.cached + resp.cached, merged.results + resp.results)
  }

  lemma {:induction false} TotalSnoc<R>(responses: seq<Response<R>>, resp: Response<R>)
    ensures Total(responses + [resp]) == Added(Total(responses), resp)
    ensures var before, after := Total(responses), Total(responses + [resp]);
      && after.total == before.total + resp.total && after.succeeded == before.succeeded + resp.succeeded
      && after.failed == before.failed + resp.failed && after.cached == before.cached + resp.cached
      && after.results == before.results + resp.results
    ensures Total<R>([]) == Response(0, 0, 0, 0, [])
  {
    SumSnoc((r: Response<R>) => r.total, responses, resp);
    SumSnoc((r: Response<R>) => r.succeeded, responses, resp);
    SumSnoc((r: Response<R>) => r.failed, responses, resp);
    SumSnoc((r: Response<R>) => r.cached, responses, resp);
    FlattenSnoc(ResultsOf<R>, responses, resp);
  }

  method Merge<R, E>(merged: Response<R>, resp: Response<R>, ghost answer: nat -> Result<Response<R>, E>,
                     ghost order: seq<nat>, ghost i: nat) returns (r: Response<R>)
    requires Collected(answer, order, merged) && answer(i) == Ok(resp)
    ensures Collected(answer, order + [i], r)
  {
    ghost var before := Answers(answer, order);
    TotalSnoc(before, resp);
    r := Response(merged.total + resp.total, merged.succeeded + resp.succeeded, merged.failed + resp.failed,
                  merged.cached + resp.cached, merged.results + resp.results);
    assert Answers(answer, order + [i]) == before + [resp];
  }

  /** Which chunks were answered and which were sent when a dispatch ended. */
  ghost predicate Ended<R, E>(chunks: nat, answer: nat -> Result<Response<R>, E>,
                              outcome: Result<Response<R>, E>, order: seq<nat>, sent: nat) {
    match outcome
    case Ok(merged) =>
      && SlidingWindow.Drained(chunks, 4, order)
      && SlidingWindow.EachOnce(chunks, order)
      && Collected(answer, order, merged)
      && sent == chunks
    case Err(error) =>
      && order != [] && SlidingWindow.Possible(chunks, 4, order)
      && order[|order| - 1] < sent == SlidingWindow.Min(chunks, 4 + |order| - 1)
      && AllOk(answer, order[..|order| - 1]) && answer(order[|order| - 1]) == Err(error)
  }

  lemma {:induction false} EndedByError<R, E>(chunks: nat, answer: nat -> Result<Response<R>, E>, order: seq<nat>,
                                              sent: nat, running: set<nat>, i: nat)
    requires SlidingWindow.At(chunks, CHUNK_CONCURRENCY, order, sent, running) && i in running
    requires AllOk(answer, order) && answer(i).Err?
    ensures Ended(chunks, answer, Err(answer(i).error), order + [i], sent)
  {
    SlidingWindow.RunningTask(chunks, CHUNK_CONCURRENCY, order, sent, running, i);
    var after := order + [i];
    assert after[..|after| - 1] == order && after[|after| - 1] == i;
  }

  /** Sends the chunks; `answer(i)` is what the registry makes of chunk `i`.
      The chunks sent are the first `sent` ones, in order. */
  method DispatchChunks<T, R, E>(items: seq<T>, answer: nat -> Result<Response<R>, E>)
      returns (outcome: Result<Response<R>, E>, ghost order: seq<nat>, sent: nat)
    ensures Ended(|Chunks(items)|, answer, outcome, order, sent)
    ensures outcome.Ok? <==> forall i: nat :: i < |Chunks(items)| ==> answer(i).Ok?
    ensures outcome.Ok? ==> AllOk(answer, Range(|Chunks(items)|))
                            && SameUpToOrder(outcome.value, Total(Answers(answer, Range(|Chunks(items)|))))
  {
    var chunks := Chunks(items);
    var total := |chunks|;
    var merged: Response<R> := Response(0, 0, 0, 0, []);
    var running: set<nat>;
    sent, running := SlidingWindow.SeedTasks(total, CHUNK_CONCURRENCY);
    order := [];
    while running != {}
      invariant SlidingWindow.At(total, CHUNK_CONCURRENCY, order, sent, running)
      invariant Collected(answer, order, merged)
      decreases total - |order|
    {
      var i :| i in running;
      SlidingWindow.NextCompletion(total, CHUNK_CONCURRENCY, order, sent, running, i);
      match answer(i) {
        case Err(error) =>
          EndedByError(total, answer, order, sent, running, i);
          outcome, order := Err(error), order + [i];
          OkExactly(total, answer, outcome, order, sent);
          return;
        case Ok(resp) =>
          merged := Merge(merged, resp, answer, order, i);
      }
      order := order + [i];
      running := running - {i};
      if sent < total {
        running, sent := running + {sent}, sent + 1;
      }
    }
    SlidingWindow.Finished(total, CHUNK_CONCURRENCY, order, sent);
    outcome := Ok(merged);
    OkExactly(total, answer, outcome, order, sent);
    MergedInChunkOrder(total, answer, merged, order, sent);
  }

  // ---- what a dispatch delivers, whatever the completion order ------------

  /** A dispatch succeeds exactly when every chunk would be answered well. */
  lemma {:induction false} OkExactly<R, E>(chunks: nat, answer: nat -> Result<Response<R>, E>,
                                           outcome: Result<Response<R>, E>, order: seq<nat>, sent: nat)
    requires Ended(chunks, answer, outcome, order, sent)
    ensures outcome.Ok? <==> forall i: nat :: i < chunks ==> answer(i).Ok?
  {
    if outcome.Ok? {
      forall i: nat | i < chunks ensures answer(i).Ok? {
        assert i in order;
      }
    } else {
      SlidingWindow.PossibleOrders(chunks, CHUNK_CONCURRENCY, order);
      assert order[|order| - 1] < chunks;
    }
  }

  lemma {:induction false} OnceIsPermutation(n: nat, order: seq<nat>)
    requires SlidingWindow.EachOnce(n, order)
    ensures IsPermutation(order, Range(n))
  {
    assert Elements(order) == Elements(Range(n)) by {
      forall i: nat ensures i in order <==> i in Range(n) {
        SlidingWindow.RangeMember(n, i);
      }
    }
    DistinctPermutation(order, Range(n));
  }

  function ValueAt<R, E>(answer: nat -> Result<Response<R>, E>): nat -> Response<R> {
    (i: nat) => if answer(i).Ok? then answer(i).value else Response(0, 0, 0, 0, [])
  }

  lemma {:induction false} SumUnordered<R>(f: Response<R> -> nat, a: seq<Response<R>>, b: seq<Response<R>>)
    requires IsPermutation(a, b)
    ensures Sum(Apply(f, a)) == Sum(Apply(f, b))
  {
    ApplyPermutation(f, a, b);
    SumPermutation(Apply(f, a), Apply(f, b));
  }

  lemma {:induction false} TotalUnordered<R>(a: seq<Response<R>>, b: seq<Response<R>>)
    requires IsPermutation(a, b)
    ensures SameUpToOrder(Total(a), Total(b))
  {
    SumUnordered((r: Response<R>) => r.total, a, b);
    SumUnordered((r: Response<R>) => r.succeeded, a, b);
    SumUnordered((r: Response<R>) => r.failed, a, b);
    SumUnordered((r: Response<R>) => r.cached, a, b);
    ApplyPermutation(ResultsOf<R>, a, b);
    FlattenPermutation(Apply(ResultsOf<R>, a), Apply(ResultsOf<R>, b));
  }

  /** The merged counters are the sums over all chunks, and the merged results
      a permutation of the chunks' results taken in chunk order. */
  lemma {:induction false} MergedInChunkOrder<R, E>(chunks: nat, answer: nat -> Result<Response<R>, E>,
                                                    merged: Response<R>, order: seq<nat>, sent: nat)
    requires Ended(chunks, answer, Ok(merged), order, sent)
    ensures AllOk(answer, Range(chunks))
    ensures SameUpToOrder(merged, Total(Answers(answer, Range(chunks))))
  {
    OkExactly(chunks, answer, Ok(merged), order, sent);
    assert AllOk(answer, Range(chunks));
    OnceIsPermutation(chunks, order);
    var at := ValueAt(answer);
    ApplyPermutation(at, order, Range(chunks));
    assert Apply(at, order) == Answers(answer, order);
    assert Apply(at, Range(chunks)) == Answers(answer, Range(chunks));
    TotalUnordered(Answers(answer, order), Answers(answer, Range(chunks)));
  }

  lemma {:induction false} PrefixSent<T>(items: seq<T>, sent: nat)
    requires sent <= |Chunks(items)|
    ensures Flatten(Chunks(items)[..sent]) <= items
    ensures sent == |Chunks(items)| ==> Flatten(Chunks(items)[..sent]) == items
  {
    var chunks := Chunks(items);
    ChunksOf(items);
    assert chunks == chunks[..sent] + chunks[sent..];
    FlattenAppend(chunks[..sent], chunks[sent..]);
    if sent == |chunks| {
      assert chunks[..sent] == chunks;
    }
  }

  /** What was sent is the items in order, each once: all of them when the
      dispatch succeeds, and otherwise the first ones. */
  lemma {:induction false} SentOnce<T, R, E>(items: seq<T>, answer: nat -> Result<Response<R>, E>,
                                             outcome: Result<Response<R>, E>, order: seq<nat>, sent: nat)
    requires Ended(|Chunks(items)|, answer, outcome, order, sent)
    ensures sent <= |Chunks(items)|
    ensures Flatten(Chunks(items)[..sent]) <= items
    ensures outcome.Ok? ==> Flatten(Chunks(items)[..sent]) == items
  {
    PrefixSent(items, sent);
  }
}
