/** The disk cache over whole runs, against the simple view of a cache that
    never forgets: what was last written under each file name. */
module CacheRuns {
  import opened Wrappers
  import opened Sequences
  import opened Sorting
  import opened DiskCache
  import Text

  /** The directory after a run from an empty one, if each listing in the run
      lists the directory of its time. */
  ghost function Exec(ops: seq<Op>): Option<Directory> {
    if ops == [] then Some(map[])
    else match Exec(ops[..|ops| - 1])
      case None => None
      case Some(files) => if Legal(files, ops[|ops| - 1]) then Some(Step(files, ops[|ops| - 1])) else None
  }

  // ---- the directory invariant --------------------------------------------

  /** In every reachable state each file is named after the key inside it, also
      when a read rewrites the entry of a key with the same file name. */
  lemma {:induction false} AlwaysWellFormed(ops: seq<Op>)
    requires Exec(ops).Some?
    ensures WellFormed(Exec(ops).value)
  {
    if ops != [] {
      AlwaysWellFormed(ops[..|ops| - 1]);
      StepWellFormed(Exec(ops[..|ops| - 1]).value, ops[|ops| - 1]);
    }
  }

  // ---- refinement of the last-written map -----------------------------------

  predicate Writes(op: Op, n: FileName) {
    op.Set? && KeyToFilename(op.key) == n
  }

  predicate Reads(op: Op, n: FileName) {
    op.Get? && KeyToFilename(op.key) == n
  }

  /** The entry under a file name if nothing were ever deleted: the last one
      written, with the reads since then counted. */
  function Latest(ops: seq<Op>, n: FileName): Option<CacheEntry> {
    if ops == [] then None
    else
      var op := ops[|ops| - 1];
      var before := Latest(ops[..|ops| - 1], n);
      if Writes(op, n) then Some(NewEntry(op.key, op.body, op.now, op.ttl))
      else if Reads(op, n) && before.Some? then Some(Touched(before.value))
      else before
  }

  lemma {:induction false} StepRefines(ops: seq<Op>, files: Directory, op: Op, n: FileName)
    requires Legal(files, op) && n in Step(files, op)
    requires n in files ==> Latest(ops, n) == Some(files[n])
    ensures Latest(ops + [op], n) == Some(Step(files, op)[n])
  {
    assert (ops + [op])[..|ops|] == ops;
  }

  /** Every file in the cache is what the never-forgetting cache would hold. */
  lemma {:induction false} Refines(ops: seq<Op>)
    requires Exec(ops).Some?
    ensures forall n :: n in Exec(ops).value ==> Latest(ops, n) == Some(Exec(ops).value[n])
  {
    if ops != [] {
      var front, op := ops[..|ops| - 1], ops[|ops| - 1];
      Refines(front);
      assert ops == front + [op];
      forall n | n in Exec(ops).value ensures Latest(ops, n) == Some(Exec(ops).value[n]) {
        StepRefines(front, Exec(front).value, op, n);
      }
    }
  }

  function ReadsOf(ops: seq<Op>, n: FileName): nat {
    if ops == [] then 0
    else ReadsOf(ops[..|ops| - 1], n) + if Reads(ops[|ops| - 1], n) then 1 else 0
  }

  /** `i` is where a file name was last written. */
  ghost predicate LastWrite(ops: seq<Op>, n: FileName, i: nat) {
    && i < |ops| && Writes(ops[i], n)
    && forall j :: i < j < |ops| ==> !Writes(ops[j], n)
  }

  /** The latest entry comes from the last write, and its hits count the reads since. */
  lemma {:induction false} LatestComesFrom(ops: seq<Op>, n: FileName) returns (i: nat)
    requires Latest(ops, n).Some?
    ensures LastWrite(ops, n, i)
    ensures var touches := ReadsOf(ops[i + 1..], n);
      Latest(ops, n).value == NewEntry(ops[i].key, ops[i].body, ops[i].now, ops[i].ttl)
                                .(hits := if touches < MAX_U64 then touches else MAX_U64)
  {
    var front, op := ops[..|ops| - 1], ops[|ops| - 1];
    if Writes(op, n) {
      i := |ops| - 1;
      assert ops[i + 1..] == [];
    } else {
      i := LatestComesFrom(front, n);
      assert ops[i + 1..][..|ops[i + 1..]| - 1] == front[i + 1..];
      assert ops[i + 1..][|ops[i + 1..]| - 1] == op;
    }
  }

  /** A hit returns exactly the body of the last write to the file name, not yet
      stale by the time-to-live it was written with. */
  lemma {:induction false} HitIsLastWritten(ops: seq<Op>, key: string, now: nat) returns (i: nat)
    requires Exec(ops).Some? && Served(Exec(ops).value, key, now).Some?
    ensures LastWrite(ops, KeyToFilename(key), i)
    ensures var hit := Served(Exec(ops).value, key, now).value;
      && hit.body == ops[i].body && hit.createdAt == ops[i].now && hit.ttlSeconds == ops[i].ttl
      && (ops[i].ttl > 0 && now < ops[i].now + ops[i].ttl)
      && hit.hits == (var touches := ReadsOf(ops[i + 1..], KeyToFilename(key)) + 1;
                      if touches < MAX_U64 then touches else MAX_U64)
  {
    Refines(ops);
    i := LatestComesFrom(ops, KeyToFilename(key));
  }

  /** The keys written so far do not share the file name of `key`. */
  ghost predicate NameNotShared(ops: seq<Op>, key: string) {
    forall i :: 0 <= i < |ops| && Writes(ops[i], KeyToFilename(key)) ==> ops[i].key == key
  }

  /** ... and then a hit is the last body set for the key itself. */
  lemma {:induction false} HitIsLastSetOfKey(ops: seq<Op>, key: string, now: nat) returns (i: nat)
    requires Exec(ops).Some? && Served(Exec(ops).value, key, now).Some? && NameNotShared(ops, key)
    ensures i < |ops| && ops[i].Set? && ops[i].key == key
    ensures forall j :: i < j < |ops| ==> !(ops[j].Set? && ops[j].key == key)
    ensures Served(Exec(ops).value, key, now).value.body == ops[i].body
  {
    i := HitIsLastWritten(ops, key, now);
  }

  /** Reading after a write: a key with the written file name is served the new
      body until it is stale, and any other key what it was served before, unless
      its file was evicted. */
  lemma {:induction false} SetThenGet(files: Directory, op: Op, key: string, now: nat)
    requires op.Set? && Legal(files, op)
    ensures var after := Step(files, op);
      if KeyToFilename(key) == KeyToFilename(op.key) then
        Served(after, key, now)
          == if (op.ttl > 0 && now < op.now + op.ttl) then Some(NewEntry(op.key, op.body, op.now, op.ttl).(hits := 1)) else None
      else Served(after, key, now)
             == if KeyToFilename(key) in Evicted(op.listing, op.max) then None else Served(files, key, now)
  {
  }

  /** A key is served what was set for another exactly when the two share a file name. */
  lemma {:induction false} ServedForAnother(key: string, other: string, body: string, now: nat, ttl: nat, max: nat)
    requires ttl > 0
    ensures var run := [Set(other, body, now, ttl, max, [])];
      && Exec(run).Some?
      && (Served(Exec(run).value, key, now).Some? <==> KeyToFilename(key) == KeyToFilename(other))
      && (KeyToFilename(key) == KeyToFilename(other) ==> Served(Exec(run).value, key, now).value.body == body)
  {
    var op := Set(other, body, now, ttl, max, []);
    assert [op][..0] == [] && Exec([]) == Some(map[]);
    assert Legal(map[], op);
  }

  function Kept(key: string): nat {
    if |key| < MAX_NAME then |key| else MAX_NAME
  }

  /** Both characters stay and are equal, or both become underscores in the name. */
  predicate Merged(a: char, b: char) {
    a == b || ((a == '_' || !Text.IsFileNameChar(a)) && (b == '_' || !Text.IsFileNameChar(b)))
  }

  lemma {:induction false} NameText(key: string)
    ensures KeyToFilename(key).text == Text.Sanitize(key)[..Kept(key)] + ENTRY_EXT
  {
    assert |key| <= MAX_NAME ==> Text.Sanitize(key)[..|key|] == Text.Sanitize(key);
  }

  /** Which keys share a file name: those of equal length, as far as the name
      reaches, that differ only in characters the name does not keep. */
  lemma {:induction false} SameFile(a: string, b: string)
    ensures KeyToFilename(a) == KeyToFilename(b)
       <==> Kept(a) == Kept(b) && forall i :: 0 <= i < Kept(a) ==> Merged(a[i], b[i])
  {
    NameText(a);
    NameText(b);
    var s, t := Text.Sanitize(a)[..Kept(a)], Text.Sanitize(b)[..Kept(b)];
    assert (s + ENTRY_EXT)[..|s|] == s && (t + ENTRY_EXT)[..|t|] == t;
    assert forall i :: 0 <= i < |s| && i < |t| ==> (s[i] == t[i] <==> Merged(a[i], b[i]));
  }

  /** Two requests that share a file name, and so each other's responses. */
  lemma {:induction false} SharedName()
    ensures "GET:h/a/b" != "GET:h/a_b" && KeyToFilename("GET:h/a/b") == KeyToFilename("GET:h/a_b")
  {
    SameFile("GET:h/a/b", "GET:h/a_b");
  }

  // ---- eviction ------------------------------------------------------------

  lemma {:induction false} FreshKept(front: seq<CacheEntry>, nows: seq<nat>, e: CacheEntry, now: nat)
    requires |nows| == |front| && !IsStale(e, now) && FreshOf(front, nows) == front
    ensures FreshOf(front + [e], nows + [now]) == front + [e]
  {
    assert (front + [e])[..|front|] == front && (nows + [now])[..|nows|] == nows;
  }

  ghost predicate AllFresh(entries: seq<CacheEntry>, nows: seq<nat>) {
    |nows| == |entries| && forall i :: 0 <= i < |entries| ==> !IsStale(entries[i], nows[i])
  }

  lemma {:induction false} AllFreshFront(front: seq<CacheEntry>, nows: seq<nat>, e: CacheEntry, now: nat)
    requires |nows| == |front| && AllFresh(front + [e], nows + [now])
    ensures AllFresh(front, nows) && !IsStale(e, now)
  {
    var longer, nows' := front + [e], nows + [now];
    assert longer[|front|] == e && nows'[|front|] == now;
    forall i | 0 <= i < |front| ensures !IsStale(front[i], nows[i]) {
      assert longer[i] == front[i] && nows'[i] == nows[i];
    }
  }

  lemma {:induction false} AllKept(entries: seq<CacheEntry>, nows: seq<nat>)
    requires AllFresh(entries, nows)
    ensures FreshOf(entries, nows) == entries
    decreases |entries|
  {
    if entries != [] {
      var n := |entries| - 1;
      var front, e, nows', now := entries[..n], entries[n], nows[..n], nows[n];
      assert entries == front + [e] && nows == nows' + [now];
      AllFreshFront(front, nows', e, now);
      AllKept(front, nows');
      FreshKept(front, nows', e, now);
    }
  }

  lemma {:induction false} NothingStale(entries: seq<CacheEntry>, nows: seq<nat>)
    requires AllFresh(entries, nows)
    ensures FreshOf(entries, nows) == entries && StaleNames(entries, nows) == {}
  {
    AllKept(entries, nows);
  }

  /** The two evictions agree: where nothing is stale, `optimize` leaves exactly
      the files that a write with the same limit and listing leaves besides its own. */
  lemma {:induction false} EvictionsAgree(files: Directory, max: nat, listing: seq<CacheEntry>, nows: seq<nat>,
                                          key: string, body: string, now: nat, ttl: nat)
    requires Legal(files, Optimize(max, listing, nows))
    requires AllFresh(listing, nows)
    ensures var n := KeyToFilename(key);
      Step(files, Op.Set(key, body, now, ttl, max, listing)) - {n}
        == Step(files, Optimize(max, listing, nows)) - {n}
  {
    NothingStale(listing, nows);
    var kept := files - Evicted(listing, max);
    OverwriteAndDrop(kept, KeyToFilename(key), NewEntry(key, body, now, ttl));
    assert files - {} == files;
  }

  lemma {:induction false} OverwriteAndDrop(files: Directory, n: FileName, e: CacheEntry)
    ensures files[n := e] - {n} == files - {n}
  {
  }

  /** An operation that can take the file `n` out of the directory: one that
      clears it, finds it stale, or runs while the directory is over the limit. */
  ghost predicate MayRemove(files: Directory, op: Op, n: FileName)
    requires Legal(files, op) && n in files
  {
    match op
    case Set(key, _, _, _, max, _) => KeyToFilename(key) != n && max > 0 && DirSize(files) > max
    case Get(key, now) => KeyToFilename(key) == n && !(files[n].ttlSeconds > 0 && now < files[n].createdAt + files[n].ttlSeconds)
    case ClearKey(key) => KeyToFilename(key) == n
    case ClearLevel(level) => level !in {"memory", "in-memory", "remote"}
    case Optimize(max, listing, nows) =>
      || (max > 0 && DirSize(files) > max)
      || exists i :: 0 <= i < |listing| && NameOf(listing[i]) == n
                     && !(listing[i].ttlSeconds > 0 && nows[i] < listing[i].createdAt + listing[i].ttlSeconds)
  }

  lemma {:induction false} DirSizeLess(files: Directory, gone: set<FileName>)
    ensures DirSize(files - gone) <= DirSize(files)
    decreases gone
  {
    if gone != {} {
      var n :| n in gone;
      DirSizeLess(files, gone - {n});
      var rest := files - (gone - {n});
      if n in rest { DirSizeWithout(rest, n); }
      assert files - gone == rest - {n};
      assert n !in rest ==> rest - {n} == rest;
    } else {
      assert files - {} == files;
    }
  }

  /** Anything else leaves the file where it is. */
  lemma {:induction false} Survives(files: Directory, op: Op, n: FileName)
    requires Legal(files, op) && n in files && !MayRemove(files, op, n)
    ensures n in Step(files, op)
  {
    match op
    case Set(_, _, _, _, max, listing) =>
      if max > 0 && DirSize(files) <= max { FittingKept(files, listing, max); }
    case Optimize(max, listing, nows) =>
      if max > 0 {
        DirSizeLess(files, StaleNames(listing, nows));
        LiveListing(files, listing, nows);
        FittingKept(files - StaleNames(listing, nows), FreshOf(listing, nows), max);
      }
    case _ =>
  }

  // ---- size ------------------------------------------------------------------

  lemma {:induction false} DirSizeUpdate(files: Directory, n: FileName, e: CacheEntry)
    ensures DirSize(files[n := e]) == e.sizeBytes + DirSize(files - {n})
    ensures DirSize(files - {n}) == DirSize(files) - if n in files then files[n].sizeBytes else 0
  {
    DirSizeWithout(files[n := e], n);
    assert files[n := e] - {n} == files - {n};
    if n in files {
      DirSizeWithout(files, n);
    } else {
      assert files - {n} == files;
    }
  }

  lemma {:induction false} OptimizedFits(files: Directory, max: nat, listing: seq<CacheEntry>, nows: seq<nat>)
    requires Legal(files, Optimize(max, listing, nows)) && max > 0
    ensures DirSize(Step(files, Optimize(max, listing, nows))) <= max
  {
    LiveListing(files, listing, nows);
    EvictedFits(files - StaleNames(listing, nows), FreshOf(listing, nows), max);
  }

  /** After `optimize` no entry is left that was stale when it was looked at. */
  lemma {:induction false} OptimizedFresh(files: Directory, max: nat, listing: seq<CacheEntry>, nows: seq<nat>, n: FileName)
      returns (i: nat)
    requires Legal(files, Optimize(max, listing, nows))
    requires n in Step(files, Optimize(max, listing, nows))
    ensures i < |listing| && Step(files, Optimize(max, listing, nows))[n] == listing[i]
    ensures !IsStale(listing[i], nows[i])
  {
    assert n in files;
    i :| 0 <= i < |listing| && NameOf(listing[i]) == n;
  }

  /** Every operation of the run is configured with the limit `max`. */
  ghost predicate FixedLimit(ops: seq<Op>, max: nat) {
    forall i :: 0 <= i < |ops| && (ops[i].Set? || ops[i].Optimize?) ==> ops[i].max == max
  }

  function LastBodySize(ops: seq<Op>): nat {
    if ops == [] then 0
    else if ops[|ops| - 1].Set? then Text.ByteLength(ops[|ops| - 1].body)
    else LastBodySize(ops[..|ops| - 1])
  }

  lemma {:induction false} StepSize(files: Directory, op: Op)
    requires Legal(files, op)
    ensures match op
      case Set(_, body, _, _, max, _) => max > 0 ==> DirSize(Step(files, op)) <= max + Text.ByteLength(body)
      case Optimize(max, _, _) => max > 0 ==> DirSize(Step(files, op)) <= max
      case _ => DirSize(Step(files, op)) <= DirSize(files)
  {
    match op
    case Set(key, body, now, ttl, max, listing) =>
      if max > 0 {
        EvictedFits(files, listing, max);
        DirSizeUpdate(files - Evicted(listing, max), KeyToFilename(key), NewEntry(key, body, now, ttl));
      }
    case Optimize(max, listing, nows) =>
      if max > 0 { OptimizedFits(files, max, listing, nows); }
    case Get(key, now) =>
      var n := KeyToFilename(key);
      if n in files { DirSizeUpdate(files, n, Touched(files[n])); }
    case ClearKey(key) =>
      var n := KeyToFilename(key);
      if n in files { DirSizeWithout(files, n); } else { assert files - {n} == files; }
    case ClearLevel(_) =>
  }

  /** The directory never holds more than the limit and the last body written. */
  lemma {:induction false} SizeBound(ops: seq<Op>, max: nat)
    requires Exec(ops).Some? && FixedLimit(ops, max) && max > 0
    ensures DirSize(Exec(ops).value) <= max + LastBodySize(ops)
    ensures ops != [] && ops[|ops| - 1].Optimize? ==> DirSize(Exec(ops).value) <= max
  {
    if ops != [] {
      var front := ops[..|ops| - 1];
      assert FixedLimit(front, max);
      SizeBound(front, max);
      StepSize(Exec(front).value, ops[|ops| - 1]);
      assert ops[|ops| - 1].Set? || ops[|ops| - 1].Optimize? ==> ops[|ops| - 1].max == max;
    }
  }

  /** When a write leaves the directory within the limit: exactly when the
      surviving other files leave room for the body.  Within the limit before,
      all of them survive. */
  lemma {:induction false} SetSize(files: Directory, op: Op)
    requires op.Set? && Legal(files, op) && op.max > 0
    ensures var n := KeyToFilename(op.key);
      var others := DirSize(files - Evicted(op.listing, op.max) - {n});
      && (DirSize(Step(files, op)) <= op.max <==> others + Text.ByteLength(op.body) <= op.max)
      && (DirSize(files) <= op.max ==> DirSize(Step(files, op)) == DirSize(files - {n}) + Text.ByteLength(op.body))
  {
    var kept := files - Evicted(op.listing, op.max);
    DirSizeUpdate(kept, KeyToFilename(op.key), NewEntry(op.key, op.body, op.now, op.ttl));
    if DirSize(files) <= op.max {
      FittingKept(files, op.listing, op.max);
      assert kept == files;
    }
  }

  lemma {:induction false} PlainBytes(n: nat)
    ensures Text.ByteLength(seq(n, _ => 'x')) == n
  {
    if n > 0 {
      assert seq(n, _ => 'x')[1..] == seq(n - 1, _ => 'x');
      PlainBytes(n - 1);
    }
  }

  lemma {:induction false} FirstSet(key: string, body: string, max: nat)
    ensures var e := NewEntry(key, body, 0, 1);
      var files: Directory := map[KeyToFilename(key) := e];
      && Exec([Set(key, body, 0, 1, max, [])]) == Some(files)
      && DirSize(files) == Text.ByteLength(body) && IsListing(files, [e])
  {
    var start: Directory, op, e := map[], Set(key, body, 0, 1, max, []), NewEntry(key, body, 0, 1);
    assert [op][..0] == [];
    assert Legal(start, op) && ByAge([]) == [];
    assert Step(start, op) == map[KeyToFilename(key) := e];
    DirSizeWithout(map[KeyToFilename(key) := e], KeyToFilename(key));
    assert map[KeyToFilename(key) := e] - {KeyToFilename(key)} == start;
    assert [e][0] == e;
  }

  lemma {:induction false} PlainNamesDiffer()
    ensures KeyToFilename("a") != KeyToFilename("b")
  {
    SameFile("a", "b");
    assert Kept("a") == 1 && !Merged("a"[0], "b"[0]);
  }

  lemma {:induction false} ExecSnoc(ops: seq<Op>, op: Op)
    requires Exec(ops).Some? && Legal(Exec(ops).value, op)
    ensures Exec(ops + [op]) == Some(Step(Exec(ops).value, op))
  {
    assert (ops + [op])[..|ops|] == ops;
  }

  lemma {:induction false} NothingToDrop(files: Directory, n: FileName)
    requires n !in files
    ensures files - {n} == files
  {
  }

  /** A write of a new file to a directory that is full, but not over the limit. */
  lemma {:induction false} SetOnFull(files: Directory, op: Op)
    requires op.Set? && Legal(files, op) && op.max > 0 && DirSize(files) == op.max && KeyToFilename(op.key) !in files
    ensures DirSize(Step(files, op)) == op.max + Text.ByteLength(op.body)
  {
    NothingToDrop(files, KeyToFilename(op.key));
    SetSize(files, op);
  }

  /** The bound is reached: for every limit and body there is a run that exceeds
      the limit by the whole body. */
  lemma {:induction false} SizeBoundReached(max: nat, body: string) returns (ops: seq<Op>)
    requires max > 0
    ensures Exec(ops).Some? && FixedLimit(ops, max) && LastBodySize(ops) == Text.ByteLength(body)
    ensures DirSize(Exec(ops).value) == max + Text.ByteLength(body)
  {
    var filler := seq(max, _ => 'x');
    PlainBytes(max);
    var first, second := Set("a", filler, 0, 1, max, []), Set("b", body, 0, 1, max, [NewEntry("a", filler, 0, 1)]);
    FirstSet("a", filler, max);
    PlainNamesDiffer();
    SetOnFull(Exec([first]).value, second);
    ExecSnoc([first], second);
    ops := [first] + [second];
  }
}
