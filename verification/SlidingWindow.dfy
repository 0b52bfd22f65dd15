/** The task window that the batch commands share: `Min(width, n)` tasks are
    started, and each time one of them completes the next waiting task is
    started.  Tasks are the numbers below `n`; which running task completes
    next is up to the environment. */
module SlidingWindow {
  import opened Wrappers
  import opened Sequences

  /** Tasks from `next` on are pending; `done` lists completions in order. */
  datatype Window = Window(next: nat, inFlight: set<nat>, done: seq<nat>)

  function Min(a: nat, b: nat): nat {
    if a < b then a else b
  }

  function Below(n: nat): (r: set<nat>)
    ensures forall i: nat :: i in r <==> i < n
    ensures |r| == n
  {
    if n == 0 then {} else Below(n - 1) + {n - 1}
  }

  function Start(n: nat, width: nat): Window {
    Window(Min(width, n), Below(Min(width, n)), [])
  }

  /** Task `i` completes and the next pending task, if any, takes its place. */
  function Complete(n: nat, w: Window, i: nat): Window {
    var rest := w.inFlight - {i};
    if w.next < n
    then Window(w.next + 1, rest + {w.next}, w.done + [i])
    else Window(w.next, rest, w.done + [i])
  }

  /** The window after the completions in `order`, if each of them was running
      when it completed. */
  ghost function Run(n: nat, w: Window, order: seq<nat>): Option<Window>
    decreases |order|
  {
    if order == [] then Some(w)
    else if order[0] in w.inFlight then Run(n, Complete(n, w, order[0]), order[1..])
    else None
  }

  ghost predicate Possible(n: nat, width: nat, order: seq<nat>) {
    Run(n, Start(n, width), order).Some?
  }

  /** Nothing is left running or pending. */
  ghost predicate Drained(n: nat, width: nat, order: seq<nat>) {
    Possible(n, width, order) && Run(n, Start(n, width), order).value.inFlight == {}
  }

  /** Tasks not completed yet. */
  function Measure(n: nat, w: Window): int {
    n - w.next + |w.inFlight|
  }

  /** Without reference to a run: no task completes twice, and the k-th
      completion is a task that could have been started by then. */
  ghost predicate WithinReach(n: nat, width: nat, order: seq<nat>) {
    Distinct(order) && forall k :: 0 <= k < |order| ==> order[k] < Min(n, width + k)
  }

  ghost predicate Inv(n: nat, width: nat, w: Window) {
    && w.next == Min(n, width + |w.done|)
    && WithinReach(n, width, w.done)
    && w.inFlight == Below(w.next) - Elements(w.done)
  }

  lemma {:induction false} RangeMember(n: nat, i: nat)
    ensures i in Range(n) <==> i < n
  {
    if i < n { assert Range(n)[i] == i; }
  }

  lemma {:induction false} StartInv(n: nat, width: nat)
    ensures Inv(n, width, Start(n, width))
  {
  }

  function Pending(n: nat, next: nat): set<nat> {
    Below(n) - Below(next)
  }

  /** Each task is running, done or pending, and only one of these. */
  ghost predicate Partition(n: nat, w: Window) {
    && Below(n) == w.inFlight + Elements(w.done) + Pending(n, w.next)
    && w.inFlight !! Elements(w.done)
    && w.inFlight !! Pending(n, w.next)
    && Elements(w.done) !! Pending(n, w.next)
  }

  lemma {:induction false} ReachSnoc(n: nat, width: nat, order: seq<nat>, i: nat)
    ensures WithinReach(n, width, order + [i])
       <==> WithinReach(n, width, order) && i !in order && i < Min(n, width + |order|)
  {
    var longer := order + [i];
    assert longer[|order|] == i;
    assert forall k :: 0 <= k < |order| ==> longer[k] == order[k];
    if i in order {
      var k :| 0 <= k < |order| && order[k] == i;
      assert longer[k] == longer[|order|];
    }
  }

  lemma {:induction false} DoneBelowNext(n: nat, width: nat, w: Window)
    requires Inv(n, width, w)
    ensures Elements(w.done) <= Below(w.next)
  {
    forall j | j in w.done ensures j < w.next {
      var k :| 0 <= k < |w.done| && w.done[k] == j;
    }
  }

  lemma {:induction false} Refill(next: nat, done: set<nat>, i: nat)
    requires done <= Below(next) && i in Below(next) - done
    ensures Below(next) - done - {i} == Below(next) - (done + {i})
    ensures Below(next) - done - {i} + {next} == Below(next + 1) - (done + {i})
    ensures |Below(next) - done - {i}| == |Below(next) - done| - 1
    ensures |Below(next) - done - {i} + {next}| == |Below(next) - done|
  {
    assert next !in Below(next) - done - {i};
  }

  lemma {:induction false} CompleteInFlight(n: nat, next: nat, inFlight: set<nat>, done: seq<nat>, i: nat)
    requires Elements(done) <= Below(next) && inFlight == Below(next) - Elements(done) && i in inFlight
    ensures inFlight - {i} == Below(next) - Elements(done + [i])
    ensures inFlight - {i} + {next} == Below(next + 1) - Elements(done + [i])
    ensures |inFlight - {i}| == |inFlight| - 1 && |inFlight - {i} + {next}| == |inFlight|
  {
    ElementsSnoc(done, i);
    Refill(next, Elements(done), i);
  }

  lemma {:induction false} RunningNotDone(n: nat, width: nat, w: Window, i: nat)
    requires Inv(n, width, w) && i in w.inFlight
    ensures WithinReach(n, width, w.done + [i])
  {
    assert i < w.next && i !in w.done by { assert i !in Elements(w.done); }
    ReachSnoc(n, width, w.done, i);
  }

  /** A completion while tasks are pending. */
  lemma {:induction false} Refilled(n: nat, width: nat, w: Window, i: nat)
    requires Inv(n, width, w) && i in w.inFlight && w.next < n
    ensures var w' := Window(w.next + 1, w.inFlight - {i} + {w.next}, w.done + [i]);
      Inv(n, width, w') && Measure(n, w') == Measure(n, w) - 1
  {
    DoneBelowNext(n, width, w);
    CompleteInFlight(n, w.next, w.inFlight, w.done, i);
    RunningNotDone(n, width, w, i);
  }

  /** A completion when no task is pending any more. */
  lemma {:induction false} NotRefilled(n: nat, width: nat, w: Window, i: nat)
    requires Inv(n, width, w) && i in w.inFlight && w.next >= n
    ensures var w' := Window(w.next, w.inFlight - {i}, w.done + [i]);
      Inv(n, width, w') && Measure(n, w') == Measure(n, w) - 1
  {
    DoneBelowNext(n, width, w);
    CompleteInFlight(n, w.next, w.inFlight, w.done, i);
    RunningNotDone(n, width, w, i);
  }

  lemma {:induction false} CompleteInv(n: nat, width: nat, w: Window, i: nat)
    requires Inv(n, width, w) && i in w.inFlight
    ensures Inv(n, width, Complete(n, w, i))
    ensures Measure(n, Complete(n, w, i)) == Measure(n, w) - 1
  {
    if w.next < n {
      Refilled(n, width, w, i);
    } else {
      NotRefilled(n, width, w, i);
    }
  }

  /** Pending, running and completed tasks partition the tasks, and the window
      is full whenever anything is pending. */
  lemma {:induction false} WindowShape(n: nat, width: nat, w: Window)
    requires Inv(n, width, w)
    ensures Partition(n, w)
    ensures |w.inFlight| <= width
    ensures w.next < n ==> |w.inFlight| == width
    ensures |w.inFlight| + |w.done| == w.next
  {
    DoneBelowNext(n, width, w);
    DistinctSize(w.done);
    PartitionSets(n, w.next, w.inFlight, Elements(w.done));
  }

  lemma {:induction false} PartitionSets(n: nat, next: nat, inFlight: set<nat>, done: set<nat>)
    requires next <= n && done <= Below(next) && inFlight == Below(next) - done
    ensures Below(n) == inFlight + done + Pending(n, next)
    ensures inFlight !! done && inFlight !! Pending(n, next) && done !! Pending(n, next)
    ensures |inFlight| + |done| == next
  {
    assert Below(next) == inFlight + done;
  }

  lemma {:induction false} RunFrom(n: nat, width: nat, w: Window, order: seq<nat>)
    requires Inv(n, width, w)
    ensures Run(n, w, order).Some? <==> WithinReach(n, width, w.done + order)
    ensures Run(n, w, order).Some? ==>
      var w' := Run(n, w, order).value;
      Inv(n, width, w') && w'.done == w.done + order && Measure(n, w') == Measure(n, w) - |order|
    decreases |order|
  {
    if order == [] {
      assert w.done + order == w.done;
    } else {
      assert w.done + order == w.done + [order[0]] + order[1..];
      if order[0] in w.inFlight {
        CompleteInv(n, width, w, order[0]);
        RunFrom(n, width, Complete(n, w, order[0]), order[1..]);
      } else {
        ReachSnoc(n, width, w.done, order[0]);
        if WithinReach(n, width, w.done + [order[0]] + order[1..]) {
          ReachPrefix(n, width, w.done + [order[0]], order[1..]);
        }
      }
    }
  }

  lemma {:induction false} ReachPrefix(n: nat, width: nat, order: seq<nat>, more: seq<nat>)
    requires WithinReach(n, width, order + more)
    ensures WithinReach(n, width, order)
  {
    assert forall k :: 0 <= k < |order| ==> order[k] == (order + more)[k];
  }

  lemma {:induction false} RunSnoc(n: nat, w: Window, order: seq<nat>, i: nat)
    requires Run(n, w, order).Some? && i in Run(n, w, order).value.inFlight
    ensures Run(n, w, order + [i]) == Some(Complete(n, Run(n, w, order).value, i))
    decreases |order|
  {
    if order == [] {
      assert [i][1..] == [] && order + [i] == [i];
    } else {
      RunSnoc(n, Complete(n, w, order[0]), order[1..], i);
      assert (order + [i])[1..] == order[1..] + [i];
    }
  }

  /** Exactly which completion orders can happen. */
  lemma {:induction false} PossibleOrders(n: nat, width: nat, order: seq<nat>)
    ensures Possible(n, width, order) <==> WithinReach(n, width, order)
  {
    StartInv(n, width);
    RunFrom(n, width, Start(n, width), order);
    assert [] + order == order;
  }

  /** In every reachable state the tasks are partitioned, at most `width` are
      running, exactly `width` are while any is pending, and the measure has
      dropped by one with each completion. */
  lemma {:induction false} EveryState(n: nat, width: nat, order: seq<nat>)
    requires Possible(n, width, order)
    ensures var w := Run(n, Start(n, width), order).value;
      && w.done == order
      && Partition(n, w)
      && |w.inFlight| <= width
      && (w.next < n ==> |w.inFlight| == width)
      && Measure(n, w) == Measure(n, Start(n, width)) - |order|
  {
    StartInv(n, width);
    RunFrom(n, width, Start(n, width), order);
    var w := Run(n, Start(n, width), order).value;
    assert w.done == order;
    WindowShape(n, width, w);
  }

  /** Every run can go on until all tasks are done, and ends exactly then, with
      each task completed once. */
  lemma {:induction false} DrainedOrders(n: nat, width: nat, order: seq<nat>)
    requires width >= 1 && Possible(n, width, order)
    ensures |order| <= n
    ensures Drained(n, width, order) <==> |order| == n
    ensures Drained(n, width, order) ==> IsPermutation(order, Range(n))
  {
    EveryState(n, width, order);
    var w := Run(n, Start(n, width), order).value;
    StartInv(n, width);
    RunFrom(n, width, Start(n, width), order);
    assert |w.inFlight| + |order| == w.next by {
      WindowShape(n, width, w);
    }
    if |order| == n {
      AllTasks(n, width, order);
    }
  }

  /** A dispatch loop has started the tasks before `next`, is running `running`
      and has seen the completions in `order`. */
  ghost predicate At(n: nat, width: nat, order: seq<nat>, next: nat, running: set<nat>) {
    var r := Run(n, Start(n, width), order);
    r.Some? && r.value.next == next && r.value.inFlight == running
  }

  lemma {:induction false} AtInv(n: nat, width: nat, order: seq<nat>, next: nat, running: set<nat>)
    requires At(n, width, order, next, running)
    ensures Run(n, Start(n, width), order) == Some(Window(next, running, order))
    ensures Inv(n, width, Window(next, running, order))
  {
    StartInv(n, width);
    RunFrom(n, width, Start(n, width), order);
    assert [] + order == order;
  }

  lemma {:induction false} RunningBound(n: nat, width: nat, w: Window, i: nat)
    requires Inv(n, width, w) && i in w.inFlight
    ensures i < n && |w.done| < n
  {
    WindowShape(n, width, w);
    assert i in Below(w.next);
    assert |w.inFlight| > 0;
  }

  lemma {:induction false} NextCompletion(n: nat, width: nat, order: seq<nat>, next: nat, running: set<nat>, i: nat)
    requires width >= 1 && At(n, width, order, next, running) && i in running
    ensures i < n && |order| < n && next == Min(n, width + |order|)
    ensures At(n, width, order + [i], if next < n then next + 1 else next,
               if next < n then running - {i} + {next} else running - {i})
  {
    AtInv(n, width, order, next, running);
    var w := Window(next, running, order);
    RunningBound(n, width, w, i);
    RunSnoc(n, Start(n, width), order, i);
  }

  /** A running task has been started, and may be the next to complete. */
  lemma {:induction false} RunningTask(n: nat, width: nat, order: seq<nat>, next: nat, running: set<nat>, i: nat)
    requires width >= 1 && At(n, width, order, next, running) && i in running
    ensures i < next == Min(n, width + |order|)
    ensures Possible(n, width, order + [i])
  {
    NextCompletion(n, width, order, next, running, i);
    EveryState(n, width, order);
  }

  lemma {:induction false} Finished(n: nat, width: nat, order: seq<nat>, next: nat)
    requires width >= 1 && At(n, width, order, next, {})
    ensures Drained(n, width, order) && EachOnce(n, order) && next == n
  {
    DrainedTasks(n, width, order);
    StartInv(n, width);
    RunFrom(n, width, Start(n, width), order);
  }

  lemma {:induction false} AllTasks(n: nat, width: nat, order: seq<nat>)
    requires WithinReach(n, width, order) && |order| == n
    ensures IsPermutation(order, Range(n))
  {
    forall i | i in order ensures i < n {
      var k :| 0 <= k < |order| && order[k] == i;
    }
    DistinctSize(order);
    SetsOfEqualSize(Elements(order), Below(n));
    assert Elements(Range(n)) == Below(n) by {
      forall i: nat ensures i in Range(n) <==> i < n { RangeMember(n, i); }
    }
    DistinctPermutation(order, Range(n));
  }

  /** Each of the `n` tasks occurs once. */
  ghost predicate EachOnce(n: nat, order: seq<nat>) {
    && |order| == n
    && Distinct(order)
    && (forall k :: 0 <= k < |order| ==> order[k] < n)
    && (forall i: nat :: i < n ==> i in order)
  }

  lemma {:induction false} DrainedTasks(n: nat, width: nat, order: seq<nat>)
    requires width >= 1 && Drained(n, width, order)
    ensures EachOnce(n, order)
  {
    DrainedOrders(n, width, order);
    PossibleOrders(n, width, order);
    forall i: nat | i < n ensures i in order {
      RangeMember(n, i);
      assert i in multiset(order);
    }
  }

  /** A window of width one completes the tasks in order. */
  lemma {:induction false} WidthOne(n: nat, order: seq<nat>)
    requires Possible(n, 1, order)
    ensures |order| <= n && order == Range(|order|)
  {
    PossibleOrders(n, 1, order);
    DrainedOrders(n, 1, order);
    if order != [] {
      var front, last := order[..|order| - 1], order[|order| - 1];
      assert order == front + [last];
      ReachSnoc(n, 1, front, last);
      PossibleOrders(n, 1, front);
      WidthOne(n, front);
      RangeMember(|front|, last);
    }
  }

  /** Starts the first tasks of the window. */
  method SeedTasks(total: nat, concurrency: nat) returns (next: nat, running: set<nat>)
    ensures Window(next, running, []) == Start(total, concurrency)
  {
    next, running := 0, {};
    for spawned := 0 to concurrency
      invariant next == Min(spawned, total) && running == Below(next)
    {
      if next < total {
        running, next := running + {next}, next + 1;
      }
    }
  }
}
