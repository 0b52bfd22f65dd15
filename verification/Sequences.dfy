/** Facts about finite sequences that several components share. */
module Sequences {
  import opened Wrappers

  ghost predicate Distinct<T>(s: seq<T>) {
    forall i, j :: 0 <= i < j < |s| ==> s[i] != s[j]
  }

  ghost function Elements<T>(s: seq<T>): set<T> {
    set x | x in s
  }

  function Range(n: nat): (r: seq<nat>) {
    seq(n, i => i)
  }

  function Apply<A, B>(f: A -> B, s: seq<A>): (r: seq<B>)
    ensures |r| == |s| && forall i :: 0 <= i < |s| ==> r[i] == f(s[i])
  {
    seq(|s|, i requires 0 <= i < |s| => f(s[i]))
  }

  function Sum(s: seq<nat>): nat {
    if s == [] then 0 else s[0] + Sum(s[1..])
  }

  function Flatten<T>(s: seq<seq<T>>): seq<T> {
    if s == [] then [] else s[0] + Flatten(s[1..])
  }

  ghost predicate IsPermutation<T>(a: seq<T>, b: seq<T>) {
    multiset(a) == multiset(b)
  }

  lemma {:induction false} PermutationLength<T>(a: seq<T>, b: seq<T>)
    requires IsPermutation(a, b)
    ensures |a| == |b|
  {
    assert |multiset(a)| == |a| && |multiset(b)| == |b|;
  }

  lemma {:induction false} SumAppend(a: seq<nat>, b: seq<nat>)
    ensures Sum(a + b) == Sum(a) + Sum(b)
  {
    if a == [] {
      assert a + b == b;
    } else {
      assert (a + b)[1..] == a[1..] + b;
      SumAppend(a[1..], b);
    }
  }

  lemma {:induction false} FlattenAppend<T>(a: seq<seq<T>>, b: seq<seq<T>>)
    ensures Flatten(a + b) == Flatten(a) + Flatten(b)
  {
    if a == [] {
      assert a + b == b;
    } else {
      assert (a + b)[1..] == a[1..] + b;
      FlattenAppend(a[1..], b);
    }
  }

  /** An element of a sequence can be brought to the front of a permutation of it. */
  lemma {:induction false} PullToFront<T>(a: seq<T>, b: seq<T>) returns (k: nat)
    requires a != [] && IsPermutation(a, b)
    ensures k < |b| && b[k] == a[0] && IsPermutation(a[1..], b[..k] + b[k + 1..])
  {
    assert a == [a[0]] + a[1..];
    assert a[0] in multiset(b);
    k :| 0 <= k < |b| && b[k] == a[0];
    assert b == b[..k] + [b[k]] + b[k + 1..];
    assert multiset(b[..k] + b[k + 1..]) == multiset(b) - multiset{a[0]};
    assert multiset(a[1..]) == multiset(a) - multiset{a[0]};
  }

  lemma {:induction false} ApplyPermutation<A, B>(f: A -> B, a: seq<A>, b: seq<A>)
    requires IsPermutation(a, b)
    ensures IsPermutation(Apply(f, a), Apply(f, b))
    decreases |a|
  {
    if a == [] {
      assert |multiset(b)| == 0;
      assert Apply(f, a) == Apply(f, b) == [];
    } else {
      var k := PullToFront(a, b);
      ApplyPermutation(f, a[1..], b[..k] + b[k + 1..]);
      assert Apply(f, a) == [f(a[0])] + Apply(f, a[1..]);
      assert Apply(f, b) == Apply(f, b[..k]) + [f(b[k])] + Apply(f, b[k + 1..]);
      assert Apply(f, b[..k] + b[k + 1..]) == Apply(f, b[..k]) + Apply(f, b[k + 1..]);
    }
  }

  lemma {:induction false} SumPermutation(a: seq<nat>, b: seq<nat>)
    requires IsPermutation(a, b)
    ensures Sum(a) == Sum(b)
    decreases |a|
  {
    if a == [] {
      assert |multiset(b)| == 0;
    } else {
      var k := PullToFront(a, b);
      SumPermutation(a[1..], b[..k] + b[k + 1..]);
      assert b == b[..k] + ([b[k]] + b[k + 1..]);
      SumAppend(b[..k], [b[k]] + b[k + 1..]);
      SumAppend(b[..k], b[k + 1..]);
      SumAppend([b[k]], b[k + 1..]);
    }
  }

  lemma {:induction false} FlattenPermutation<T>(a: seq<seq<T>>, b: seq<seq<T>>)
    requires IsPermutation(a, b)
    ensures IsPermutation(Flatten(a), Flatten(b))
    decreases |a|
  {
    if a == [] {
      assert |multiset(b)| == 0;
    } else {
      var k := PullToFront(a, b);
      FlattenPermutation(a[1..], b[..k] + b[k + 1..]);
      assert b == b[..k] + ([b[k]] + b[k + 1..]);
      FlattenAppend(b[..k], [b[k]] + b[k + 1..]);
      FlattenAppend(b[..k], b[k + 1..]);
      assert ([b[k]] + b[k + 1..])[1..] == b[k + 1..];
    }
  }

  lemma {:induction false} ElementsSnoc<T>(s: seq<T>, x: T)
    ensures Elements(s + [x]) == Elements(s) + {x}
  {
  }

  lemma {:induction false} SetsOfEqualSize<T>(a: set<T>, b: set<T>)
    requires a <= b && |a| == |b|
    ensures a == b
  {
    assert b == a + (b - a);
    assert |b - a| == 0;
  }

  lemma {:induction false} DistinctSize<T>(s: seq<T>)
    requires Distinct(s)
    ensures |Elements(s)| == |s|
  {
    if s == [] {
      assert Elements(s) == {};
    } else {
      var front, last := s[..|s| - 1], s[|s| - 1];
      DistinctSize(front);
      assert Elements(s) == Elements(front) + {last};
    }
  }

  /** Distinct sequences with the same elements are permutations of each other. */
  lemma {:induction false} DistinctPermutation<T>(a: seq<T>, b: seq<T>)
    requires Distinct(a) && Distinct(b) && Elements(a) == Elements(b)
    ensures IsPermutation(a, b)
  {
    forall x ensures multiset(a)[x] == multiset(b)[x] {
      DistinctCount(a, x);
      DistinctCount(b, x);
      assert x in a <==> x in Elements(a);
      assert x in b <==> x in Elements(b);
    }
  }

  lemma {:induction false} DistinctCount<T>(s: seq<T>, x: T)
    requires Distinct(s)
    ensures multiset(s)[x] == if x in s then 1 else 0
  {
    if s != [] {
      DistinctCount(s[1..], x);
      assert s == [s[0]] + s[1..];
    }
  }

  // ---- first occurrences -------------------------------------------------

  /** Keeps every item without a key, and of the items with one key the first,
      leaving out the keys in `seen`. */
  function KeepFirst<T, K(==)>(items: seq<T>, key: T -> Option<K>, seen: set<K>): (r: seq<T>) {
    if items == [] then []
    else match key(items[0])
      case None => [items[0]] + KeepFirst(items[1..], key, seen)
      case Some(k) =>
        if k in seen then KeepFirst(items[1..], key, seen)
        else [items[0]] + KeepFirst(items[1..], key, seen + {k})
  }

  /** The key of items that are told apart by themselves. */
  function Itself<T>(item: T): Option<T> {
    Some(item)
  }

  lemma {:induction false} KeepFirstLength<T, K>(items: seq<T>, key: T -> Option<K>, seen: set<K>)
    ensures |KeepFirst(items, key, seen)| <= |items|
  {
    if items != [] {
      match key(items[0])
      case None => KeepFirstLength(items[1..], key, seen);
      case Some(k) => KeepFirstLength(items[1..], key, if k in seen then seen else seen + {k});
    }
  }

  ghost function Keys<T, K>(items: seq<T>, key: T -> Option<K>): set<K> {
    set i | 0 <= i < |items| && key(items[i]).Some? :: key(items[i]).value
  }

  lemma {:induction false} KeysAppend<T, K>(a: seq<T>, b: seq<T>, key: T -> Option<K>)
    ensures Keys(a + b, key) == Keys(a, key) + Keys(b, key)
  {
    var ab := a + b;
    forall k | k in Keys(a, key) + Keys(b, key) ensures k in Keys(ab, key) {
      if k in Keys(a, key) {
        var i :| 0 <= i < |a| && key(a[i]) == Some(k);
        assert ab[i] == a[i];
      } else {
        var i :| 0 <= i < |b| && key(b[i]) == Some(k);
        assert ab[|a| + i] == b[i];
      }
    }
    forall k | k in Keys(ab, key) ensures k in Keys(a, key) + Keys(b, key) {
      var i :| 0 <= i < |ab| && key(ab[i]) == Some(k);
      assert if i < |a| then ab[i] == a[i] else ab[i] == b[i - |a|];
    }
  }

  lemma {:induction false} KeepFirstAppend<T, K>(a: seq<T>, b: seq<T>, key: T -> Option<K>, seen: set<K>)
    ensures KeepFirst(a + b, key, seen)
         == KeepFirst(a, key, seen) + KeepFirst(b, key, seen + Keys(a, key))
    decreases |a|
  {
    if a == [] {
      assert a + b == b;
      assert seen + Keys(a, key) == seen;
    } else {
      assert (a + b)[1..] == a[1..] + b;
      assert a == [a[0]] + a[1..];
      KeysAppend([a[0]], a[1..], key);
      match key(a[0])
      case None =>
        assert Keys([a[0]], key) == {};
        KeepFirstAppend(a[1..], b, key, seen);
        assert seen + Keys(a, key) == seen + Keys(a[1..], key);
      case Some(k) =>
        assert Keys([a[0]], key) == {k} by {
          assert key([a[0]][0]) == Some(k);
        }
        if k in seen {
          KeepFirstAppend(a[1..], b, key, seen);
          assert seen + Keys(a, key) == seen + Keys(a[1..], key);
        } else {
          KeepFirstAppend(a[1..], b, key, seen + {k});
          assert seen + Keys(a, key) == seen + {k} + Keys(a[1..], key);
        }
    }
  }

  ghost predicate IsFirst<T, K>(items: seq<T>, key: T -> Option<K>, i: nat)
    requires i < |items|
  {
    key(items[i]).None? || forall j :: 0 <= j < i ==> key(items[j]) != key(items[i])
  }

  /** Independent description of KeepFirst: `at` lists, in order, exactly the
      positions whose item is the first of its key. */
  ghost predicate SelectsFirsts<T, K>(items: seq<T>, key: T -> Option<K>, at: seq<nat>) {
    && (forall a :: 0 <= a < |at| ==> at[a] < |items| && IsFirst(items, key, at[a]))
    && (forall a, b :: 0 <= a < b < |at| ==> at[a] < at[b])
    && (forall i :: 0 <= i < |items| && IsFirst(items, key, i) ==> i in at)
  }

  lemma {:induction false} FirstInPrefix<T, K>(front: seq<T>, last: T, key: T -> Option<K>, i: nat)
    requires i < |front|
    ensures IsFirst(front + [last], key, i) == IsFirst(front, key, i)
  {
    var items := front + [last];
    assert forall j :: 0 <= j <= i ==> items[j] == front[j];
  }

  lemma {:induction false} SelectsSnoc<T, K>(front: seq<T>, last: T, key: T -> Option<K>, at: seq<nat>)
    requires SelectsFirsts(front, key, at)
    ensures var items := front + [last];
      SelectsFirsts(items, key, if IsFirst(items, key, |front|) then at + [|front|] else at)
  {
    var items := front + [last];
    var at' := if IsFirst(items, key, |front|) then at + [|front|] else at;
    forall a | 0 <= a < |at'| ensures at'[a] < |items| && IsFirst(items, key, at'[a]) {
      if a < |at| { FirstInPrefix(front, last, key, at[a]); }
    }
    forall i | 0 <= i < |items| && IsFirst(items, key, i) ensures i in at' {
      if i < |front| {
        FirstInPrefix(front, last, key, i);
        assert i in at;
      } else {
        assert at'[|at|] == i;
      }
    }
  }

  /** `kept` are the items at the positions `at`. */
  ghost predicate PickedAt<T>(kept: seq<T>, items: seq<T>, at: seq<nat>) {
    |kept| == |at| && forall a :: 0 <= a < |at| ==> at[a] < |items| && kept[a] == items[at[a]]
  }

  lemma {:induction false} PickedSnoc<T>(kept: seq<T>, front: seq<T>, last: T, at: seq<nat>)
    requires PickedAt(kept, front, at)
    ensures PickedAt(kept, front + [last], at) && PickedAt(kept + [last], front + [last], at + [|front|])
  {
  }

  lemma {:induction false} KeepFirstSelects<T, K>(items: seq<T>, key: T -> Option<K>) returns (at: seq<nat>)
    ensures SelectsFirsts(items, key, at)
    ensures PickedAt(KeepFirst(items, key, {}), items, at)
    decreases |items|
  {
    if items == [] {
      at := [];
    } else {
      var front, last := items[..|items| - 1], items[|items| - 1];
      assert items == front + [last];
      at := KeepFirstSelects(front, key);
      SelectsSnoc(front, last, key, at);
      PickedSnoc(KeepFirst(front, key, {}), front, last, at);
      KeepFirstSnoc(front, last, key);
      if IsFirst(items, key, |front|) {
        at := at + [|front|];
      }
    }
  }

  lemma {:induction false} FirstIffUnseen<T, K>(items: seq<T>, key: T -> Option<K>, i: nat)
    requires i < |items|
    ensures IsFirst(items, key, i)
       <==> key(items[i]).None? || key(items[i]).value !in Keys(items[..i], key)
  {
    if key(items[i]).Some? {
      var before := items[..i];
      if key(items[i]).value in Keys(before, key) {
        var j :| 0 <= j < i && key(before[j]).Some? && key(before[j]).value == key(items[i]).value;
        assert key(items[j]) == key(items[i]);
      } else {
        forall j | 0 <= j < i ensures key(items[j]) != key(items[i]) {
          assert before[j] == items[j];
        }
      }
    }
  }

  lemma {:induction false} KeepFirstSnoc<T, K>(front: seq<T>, last: T, key: T -> Option<K>)
    ensures KeepFirst(front + [last], key, {})
         == KeepFirst(front, key, {}) + if IsFirst(front + [last], key, |front|) then [last] else []
  {
    var items, known := front + [last], Keys(front, key);
    KeepFirstOne(last, key, known);
    assert KeepFirst(items, key, {}) == KeepFirst(front, key, {}) + KeepFirst([last], key, known) by {
      KeepFirstAppend(front, [last], key, {});
      assert {} + known == known;
    }
    FirstIffUnseen(items, key, |front|);
    assert items[..|front|] == front && items[|front|] == last;
  }

  lemma {:induction false} KeepFirstOne<T, K>(item: T, key: T -> Option<K>, seen: set<K>)
    ensures KeepFirst([item], key, seen)
         == if key(item).None? || key(item).value !in seen then [item] else []
  {
    assert [item][1..] == [];
  }

  /** The kept keys are those not seen before, each once. */
  lemma {:induction false} KeepFirstKeys<T, K>(items: seq<T>, key: T -> Option<K>, seen: set<K>)
    ensures var r := KeepFirst(items, key, seen);
      && Keys(r, key) == Keys(items, key) - seen
      && (forall i, j :: 0 <= i < j < |r| && key(r[i]).Some? ==> key(r[i]) != key(r[j]))
    decreases |items|
  {
    if items != [] {
      var r := KeepFirst(items, key, seen);
      assert items == [items[0]] + items[1..];
      KeysAppend([items[0]], items[1..], key);
      match key(items[0])
      case None =>
        KeepFirstKeys(items[1..], key, seen);
        KeysAppend([items[0]], r[1..], key);
        assert Keys([items[0]], key) == {};
        assert r == [items[0]] + r[1..];
      case Some(k) =>
        assert Keys([items[0]], key) == {k} by { assert key([items[0]][0]) == Some(k); }
        if k in seen {
          KeepFirstKeys(items[1..], key, seen);
        } else {
          KeepFirstKeys(items[1..], key, seen + {k});
          KeysAppend([items[0]], r[1..], key);
          assert r == [items[0]] + r[1..];
          forall i, j | 0 <= i < j < |r| && key(r[i]).Some? ensures key(r[i]) != key(r[j]) {
            if i == 0 && key(r[j]).Some? {
              assert key(r[j]).value in Keys(r[1..], key) by { assert r[1..][j - 1] == r[j]; }
            }
          }
        }
    }
  }

  /** Items that all have different keys are all kept. */
  lemma {:induction false} KeepFirstDistinct<T, K>(items: seq<T>, key: T -> Option<K>, seen: set<K>)
    requires forall i :: 0 <= i < |items| && key(items[i]).Some? ==> key(items[i]).value !in seen
    requires forall i, j :: 0 <= i < j < |items| && key(items[i]).Some? ==> key(items[i]) != key(items[j])
    ensures KeepFirst(items, key, seen) == items
  {
    if items != [] {
      var rest := items[1..];
      var seen' := if key(items[0]).Some? then seen + {key(items[0]).value} else seen;
      forall i | 0 <= i < |rest| && key(rest[i]).Some? ensures key(rest[i]).value !in seen' {
        assert rest[i] == items[i + 1];
        assert key(items[0]).Some? ==> key(items[0]) != key(items[i + 1]);
      }
      KeepFirstDistinct(rest, key, seen');
      assert items == [items[0]] + rest;
    }
  }
}
