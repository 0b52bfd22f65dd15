/** The disk cache of registry responses.  The directory is a map from file
    names to entries, beside files that cannot be read as entries; the clock and the order in which the directory lists its
    files are up to the environment. */
module DiskCache {
  import opened Wrappers
  import opened Sequences
  import opened Sorting
  import Text

  const ENTRY_EXT: string := ".cache.json"
  const MAX_NAME: nat := 180
  const MAX_U64: nat := 0xFFFF_FFFF_FFFF_FFFF

  datatype FileName = FileName(text: string)

  datatype CacheEntry = CacheEntry(
    key: string, createdAt: nat, ttlSeconds: nat, compressed: bool, sizeBytes: nat, hits: nat, body: string)

  type Directory = map<FileName, CacheEntry>

  /** File names are lossy: characters are replaced and the rest is cut off. */
  function KeyToFilename(key: string): FileName {
    var safe := Text.Sanitize(key);
    FileName((if |safe| <= MAX_NAME then safe else safe[..MAX_NAME]) + ENTRY_EXT)
  }

  function NameOf(e: CacheEntry): FileName {
    KeyToFilename(e.key)
  }

  function SaturatingSub(a: nat, b: nat): nat {
    if a < b then 0 else a - b
  }

  predicate IsStale(e: CacheEntry, now: nat) {
    SaturatingSub(now, e.createdAt) >= e.ttlSeconds
  }

  function Touched(e: CacheEntry): CacheEntry {
    e.(hits := if e.hits < MAX_U64 then e.hits + 1 else MAX_U64)
  }

  function NewEntry(key: string, body: string, now: nat, ttl: nat): CacheEntry {
    CacheEntry(key, now, ttl, false, Text.ByteLength(body), 0, body)
  }

  function SizeOf(e: CacheEntry): nat {
    e.sizeBytes
  }

  predicate CreatedBefore(a: CacheEntry, b: CacheEntry) {
    a.createdAt <= b.createdAt
  }

  function Size(entries: seq<CacheEntry>): nat {
    Sum(Apply(SizeOf, entries))
  }

  // ---- directories -------------------------------------------------------

  /** Every entry is stored under the file name of its own key, and records the
      byte length of its body. */
  ghost predicate WellFormed(files: Directory) {
    forall n :: n in files ==> NameOf(files[n]) == n && files[n].sizeBytes == Text.ByteLength(files[n].body)
  }

  /** The entries of the directory, each once, in some order. */
  ghost predicate IsListing(files: Directory, entries: seq<CacheEntry>) {
    && (forall i :: 0 <= i < |entries| ==> NameOf(entries[i]) in files && files[NameOf(entries[i])] == entries[i])
    && (forall i, j :: 0 <= i < j < |entries| ==> NameOf(entries[i]) != NameOf(entries[j]))
    && (forall n :: n in files ==> exists i :: 0 <= i < |entries| && NameOf(entries[i]) == n)
  }

  ghost function Names(entries: seq<CacheEntry>): set<FileName> {
    set i | 0 <= i < |entries| :: NameOf(entries[i])
  }

  /** The bytes on disk. */
  ghost function DirSize(files: Directory): nat {
    if files == map[] then 0
    else
      var n :| n in files;
      files[n].sizeBytes + DirSize(files - {n})
  }

  lemma {:induction false} DirSizeWithout(files: Directory, n: FileName)
    requires n in files
    ensures DirSize(files) == files[n].sizeBytes + DirSize(files - {n})
    decreases |files|
  {
    var m :| m in files && DirSize(files) == files[m].sizeBytes + DirSize(files - {m});
    if m != n {
      DirSizeWithout(files - {m}, n);
      DirSizeWithout(files - {n}, m);
      assert files - {m} - {n} == files - {n} - {m};
    }
  }

  lemma {:induction false} ListingTail(files: Directory, entries: seq<CacheEntry>)
    requires IsListing(files, entries) && entries != []
    ensures IsListing(files - {NameOf(entries[0])}, entries[1..])
  {
    var rest := files - {NameOf(entries[0])};
    forall i | 0 <= i < |entries[1..]| ensures NameOf(entries[1..][i]) in rest && rest[NameOf(entries[1..][i])] == entries[1..][i] {
      assert entries[1..][i] == entries[i + 1];
    }
    forall n | n in rest ensures exists i :: 0 <= i < |entries[1..]| && NameOf(entries[1..][i]) == n {
      var i :| 0 <= i < |entries| && NameOf(entries[i]) == n;
      assert entries[1..][i - 1] == entries[i];
    }
  }

  lemma {:induction false} ListingSize(files: Directory, entries: seq<CacheEntry>)
    requires IsListing(files, entries)
    ensures DirSize(files) == Size(entries)
    decreases |entries|
  {
    if entries == [] {
      assert files == map[];
    } else {
      ListingTail(files, entries);
      DirSizeWithout(files, NameOf(entries[0]));
      ListingSize(files - {NameOf(entries[0])}, entries[1..]);
      SizeFirst(entries);
    }
  }

  lemma {:induction false} SizeFirst(entries: seq<CacheEntry>)
    requires entries != []
    ensures Size(entries) == entries[0].sizeBytes + Size(entries[1..])
  {
    assert Apply(SizeOf, entries)[1..] == Apply(SizeOf, entries[1..]);
  }

  lemma {:induction false} ListedOnce(files: Directory, a: seq<CacheEntry>, e: CacheEntry)
    requires IsListing(files, a)
    ensures multiset(a)[e] <= 1
  {
    forall i, j | 0 <= i < j < |a| ensures a[i] != a[j] {
      assert NameOf(a[i]) != NameOf(a[j]);
    }
    DistinctCount(a, e);
  }

  lemma {:induction false} TwiceCounted<T>(s: seq<T>, i: nat, j: nat)
    requires i < j < |s| && s[i] == s[j]
    ensures multiset(s)[s[i]] >= 2
  {
    assert s == s[..i] + [s[i]] + s[i + 1..j] + [s[j]] + s[j + 1..];
  }

  lemma {:induction false} PermutedListing(files: Directory, a: seq<CacheEntry>, b: seq<CacheEntry>)
    requires IsListing(files, a) && IsPermutation(a, b)
    ensures IsListing(files, b)
  {
    forall i | 0 <= i < |b| ensures NameOf(b[i]) in files && files[NameOf(b[i])] == b[i] {
      assert b[i] in multiset(a);
      var k :| 0 <= k < |a| && a[k] == b[i];
    }
    forall i, j | 0 <= i < j < |b| ensures NameOf(b[i]) != NameOf(b[j]) {
      if NameOf(b[i]) == NameOf(b[j]) {
        assert b[i] == b[j];
        TwiceCounted(b, i, j);
        ListedOnce(files, a, b[i]);
      }
    }
    forall n | n in files ensures exists i :: 0 <= i < |b| && NameOf(b[i]) == n {
      var k :| 0 <= k < |a| && NameOf(a[k]) == n;
      assert a[k] in multiset(b);
      var i :| 0 <= i < |b| && b[i] == a[k];
    }
  }

  lemma {:induction false} SortedListing(files: Directory, entries: seq<CacheEntry>)
    requires IsListing(files, entries)
    ensures IsListing(files, ByAge(entries)) && Size(ByAge(entries)) == Size(entries)
  {
    SortPermutes(entries, CreatedBefore);
    PermutedListing(files, entries, ByAge(entries));
    ListingSize(files, entries);
    ListingSize(files, ByAge(entries));
  }

  // ---- eviction ----------------------------------------------------------

  /** How many of the oldest entries go before the rest fits. */
  function EvictCount(sorted: seq<CacheEntry>, max: nat): (k: nat)
    ensures k <= |sorted|
  {
    if sorted == [] || Size(sorted) <= max then 0 else 1 + EvictCount(sorted[1..], max)
  }

  function ByAge(entries: seq<CacheEntry>): seq<CacheEntry> {
    Sort(entries, CreatedBefore)
  }

  ghost function Evicted(entries: seq<CacheEntry>, max: nat): set<FileName> {
    if max == 0 then {} else
      var sorted := ByAge(entries);
      Names(sorted[..EvictCount(sorted, max)])
  }

  /** The entries that are not stale at their own clock readings. */
  function FreshOf(entries: seq<CacheEntry>, nows: seq<nat>): seq<CacheEntry>
    requires |nows| == |entries|
  {
    if entries == [] then []
    else
      var last := |entries| - 1;
      FreshOf(entries[..last], nows[..last]) + if IsStale(entries[last], nows[last]) then [] else [entries[last]]
  }

  ghost function StaleNames(entries: seq<CacheEntry>, nows: seq<nat>): set<FileName>
    requires |nows| == |entries|
  {
    set i | 0 <= i < |entries| && IsStale(entries[i], nows[i]) :: NameOf(entries[i])
  }

  lemma {:induction false} FittingKept(files: Directory, listing: seq<CacheEntry>, max: nat)
    requires IsListing(files, listing) && DirSize(files) <= max
    ensures Evicted(listing, max) == {}
  {
    SortedListing(files, listing);
    ListingSize(files, ByAge(listing));
  }

  /** The survivors are the longest suffix, oldest first, that fits. */
  lemma {:induction false} EvictsLeast(sorted: seq<CacheEntry>, max: nat)
    ensures var k := EvictCount(sorted, max);
      && Size(sorted[k..]) <= max
      && forall i :: 0 <= i < k ==> Size(sorted[i..]) > max
  {
    var k := EvictCount(sorted, max);
    if sorted == [] || Size(sorted) <= max {
      assert sorted[k..] == sorted;
    } else {
      EvictsLeast(sorted[1..], max);
      assert sorted[k..] == sorted[1..][k - 1..];
      forall i | 0 <= i < k ensures Size(sorted[i..]) > max {
        assert sorted[0..] == sorted;
        assert i > 0 ==> sorted[i..] == sorted[1..][i - 1..];
      }
    }
  }

  /** No evicted entry is newer than any that stays. */
  lemma {:induction false} EvictsOldest(entries: seq<CacheEntry>, max: nat)
    ensures var sorted := ByAge(entries);
      var k := EvictCount(sorted, max);
      && IsPermutation(sorted, entries) && Ascending(sorted)
      && forall i, j :: 0 <= i < k <= j < |sorted| ==> sorted[i].createdAt <= sorted[j].createdAt
  {
    SortPermutes(entries, CreatedBefore);
    SortSorts(entries, CreatedBefore);
    var sorted := ByAge(entries);
    forall i, j | 0 <= i < j < |sorted| ensures sorted[i].createdAt <= sorted[j].createdAt {
      assert CreatedBefore(sorted[i], sorted[j]);
    }
  }

  lemma {:induction false} RemainingNone(files: Directory, entries: seq<CacheEntry>)
    ensures files - Names(entries[..0]) == files && entries[0..] == entries
  {
    assert Names(entries[..0]) == {};
  }

  lemma {:induction false} RemainingNext(files: Directory, gone: set<FileName>, entries: seq<CacheEntry>, k: nat)
    requires k < |entries| && IsListing(files - gone, entries[k..])
    ensures IsListing(files - (gone + {NameOf(entries[k])}), entries[k + 1..])
  {
    FirstOfSuffix(entries, k);
    ListingTail(files - gone, entries[k..]);
    DropTwice(files, gone, NameOf(entries[k]));
  }

  lemma {:induction false} RemainingListing(files: Directory, entries: seq<CacheEntry>, k: nat)
    requires IsListing(files, entries) && k <= |entries|
    ensures IsListing(files - Names(entries[..k]), entries[k..])
  {
    if k == 0 {
      RemainingNone(files, entries);
    } else {
      RemainingListing(files, entries, k - 1);
      NamesSnoc(entries, k - 1);
      RemainingNext(files, Names(entries[..k - 1]), entries, k - 1);
    }
  }

  lemma {:induction false} EvictedFits(files: Directory, listing: seq<CacheEntry>, max: nat)
    requires IsListing(files, listing) && max > 0
    ensures DirSize(files - Evicted(listing, max)) <= max
  {
    var sorted := ByAge(listing);
    var k := EvictCount(sorted, max);
    SortedListing(files, listing);
    RemainingListing(files, sorted, k);
    ListingSize(files - Names(sorted[..k]), sorted[k..]);
    EvictsLeast(sorted, max);
  }

  /** What evicting leaves, said of the directories alone: nothing goes while the
      limit is kept or none is set; otherwise the rest fits, no file that went is
      newer than one that stays, and a newest one that went would not fit as well. */
  ghost predicate EvictedByAge(before: Directory, after: Directory, max: nat) {
    && (forall n :: n in after ==> n in before && after[n] == before[n])
    && if max == 0 || DirSize(before) <= max then after == before
       else
         && DirSize(after) <= max
         && (forall gone, stays :: gone in before && gone !in after && stays in after ==>
               before[gone].createdAt <= before[stays].createdAt)
         && exists last :: NewestGone(before, after, last) && DirSize(after) + before[last].sizeBytes > max
  }

  ghost predicate NewestGone(before: Directory, after: Directory, last: FileName) {
    && last in before && last !in after
    && forall gone :: gone in before && gone !in after ==> before[gone].createdAt <= before[last].createdAt
  }

  lemma {:induction false} GoneFrom(sorted: seq<CacheEntry>, files: Directory, k: nat, n: FileName) returns (i: nat)
    requires IsListing(files, sorted) && k <= |sorted| && n in files
    ensures i < |sorted| && NameOf(sorted[i]) == n && files[n] == sorted[i]
    ensures n in files - Names(sorted[..k]) <==> i >= k
  {
    i :| 0 <= i < |sorted| && NameOf(sorted[i]) == n;
    if i < k {
      assert sorted[..k][i] == sorted[i];
    }
  }

  ghost predicate Ascending(sorted: seq<CacheEntry>) {
    forall i, j :: 0 <= i < j < |sorted| ==> sorted[i].createdAt <= sorted[j].createdAt
  }

  lemma {:induction false} OlderFirst(sorted: seq<CacheEntry>, i: nat, j: nat)
    requires Ascending(sorted) && i <= j < |sorted|
    ensures sorted[i].createdAt <= sorted[j].createdAt
  {
  }

  /** A file that goes is no newer than one that stays. */
  lemma {:induction false} GoneIsOlder(files: Directory, sorted: seq<CacheEntry>, k: nat, gone: FileName, stays: FileName)
    requires IsListing(files, sorted) && Ascending(sorted) && k <= |sorted|
    requires gone in files && gone !in files - Names(sorted[..k]) && stays in files - Names(sorted[..k])
    ensures files[gone].createdAt <= files[stays].createdAt
  {
    var i := GoneFrom(sorted, files, k, gone);
    var j := GoneFrom(sorted, files, k, stays);
    OlderFirst(sorted, i, j);
  }

  /** ... nor than the last one that goes. */
  lemma {:induction false} GoneBeforeLast(files: Directory, sorted: seq<CacheEntry>, k: nat, gone: FileName)
    requires IsListing(files, sorted) && Ascending(sorted) && 0 < k <= |sorted|
    requires gone in files && gone !in files - Names(sorted[..k])
    ensures files[gone].createdAt <= sorted[k - 1].createdAt
  {
    var i := GoneFrom(sorted, files, k, gone);
    OlderFirst(sorted, i, k - 1);
  }

  /** How full the directory is after the last removal, and was before it. */
  lemma {:induction false} LastEviction(files: Directory, sorted: seq<CacheEntry>, max: nat)
    requires IsListing(files, sorted) && DirSize(files) > max
    ensures var k := EvictCount(sorted, max);
      && 0 < k <= |sorted|
      && DirSize(files - Names(sorted[..k])) <= max < DirSize(files - Names(sorted[..k])) + sorted[k - 1].sizeBytes
  {
    var k := EvictCount(sorted, max);
    EvictsLeast(sorted, max);
    ListingSize(files, sorted);
    assert sorted[0..] == sorted;
    RemainingListing(files, sorted, k);
    ListingSize(files - Names(sorted[..k]), sorted[k..]);
    FirstOfSuffix(sorted, k - 1);
    SizeFirst(sorted[k - 1..]);
  }

  lemma {:induction false} EvictsFromOldest(files: Directory, sorted: seq<CacheEntry>, max: nat)
    requires IsListing(files, sorted) && Ascending(sorted) && max > 0 && DirSize(files) > max
    ensures EvictedByAge(files, files - Names(sorted[..EvictCount(sorted, max)]), max)
  {
    var k := EvictCount(sorted, max);
    var after := files - Names(sorted[..k]);
    LastEviction(files, sorted, max);
    var last := NameOf(sorted[k - 1]);
    forall gone, stays | gone in files && gone !in after && stays in after
      ensures files[gone].createdAt <= files[stays].createdAt
    {
      GoneIsOlder(files, sorted, k, gone, stays);
    }
    assert NewestGone(files, after, last) by {
      assert sorted[..k][k - 1] == sorted[k - 1];
      forall gone | gone in files && gone !in after ensures files[gone].createdAt <= files[last].createdAt {
        GoneBeforeLast(files, sorted, k, gone);
      }
    }
  }

  /** Both ways of evicting leave the directory as described. */
  lemma {:induction false} EvictsByAge(files: Directory, listing: seq<CacheEntry>, max: nat)
    requires IsListing(files, listing)
    ensures EvictedByAge(files, files - Evicted(listing, max), max)
  {
    if max == 0 {
      assert files - {} == files;
    } else if DirSize(files) <= max {
      FittingKept(files, listing, max);
      assert files - {} == files;
    } else {
      SortedListing(files, listing);
      EvictsOldest(listing, max);
      EvictsFromOldest(files, ByAge(listing), max);
    }
  }

  // ---- what each operation does to the directory ---------------------------

  /** An operation together with what the environment contributes to it: clock
      readings, the configured limits and the listing order. */
  datatype Op =
    | Set(key: string, body: string, now: nat, ttl: nat, max: nat, listing: seq<CacheEntry>)
    | Get(key: string, now: nat)
    | ClearKey(key: string)
    | ClearLevel(level: string)
    | Optimize(max: nat, listing: seq<CacheEntry>, nows: seq<nat>)

  ghost predicate Legal(files: Directory, op: Op) {
    match op
    case Set(_, _, _, _, _, listing) => IsListing(files, listing)
    case Optimize(_, listing, nows) => IsListing(files, listing) && |nows| == |listing|
    case _ => true
  }

  ghost function Step(files: Directory, op: Op): Directory
    requires Legal(files, op)
  {
    match op
    case Set(key, body, now, ttl, max, listing) =>
      (files - Evicted(listing, max))[KeyToFilename(key) := NewEntry(key, body, now, ttl)]
    case Get(key, now) =>
      var n := KeyToFilename(key);
      if n !in files then files
      else if IsStale(files[n], now) then files - {n}
      else files[n := Touched(files[n])]
    case ClearKey(key) => files - {KeyToFilename(key)}
    case ClearLevel(level) => if level in {"memory", "in-memory", "remote"} then files else map[]
    case Optimize(max, listing, nows) =>
      files - StaleNames(listing, nows) - Evicted(FreshOf(listing, nows), max)
  }

  /** The unreadable files that an operation leaves. */
  function StillBroken(broken: set<FileName>, op: Op): set<FileName> {
    match op
    case Set(key, _, _, _, _, _) => broken - {KeyToFilename(key)}
    case ClearKey(key) => broken - {KeyToFilename(key)}
    case ClearLevel(level) => if level in {"memory", "in-memory", "remote"} then broken else {}
    case _ => broken
  }

  /** What a read of `key` returns. */
  function Served(files: Directory, key: string, now: nat): Option<CacheEntry> {
    var n := KeyToFilename(key);
    if n in files && !IsStale(files[n], now) then Some(Touched(files[n])) else None
  }

  /** Every operation keeps the directory well formed. */
  lemma {:induction false} StepWellFormed(files: Directory, op: Op)
    requires WellFormed(files) && Legal(files, op)
    ensures WellFormed(Step(files, op))
  {
  }

  lemma {:induction false} NamesSnoc(entries: seq<CacheEntry>, i: nat)
    requires i < |entries|
    ensures Names(entries[..i + 1]) == Names(entries[..i]) + {NameOf(entries[i])}
  {
    var longer, shorter := entries[..i + 1], entries[..i];
    assert longer == shorter + [entries[i]];
    forall n | n in Names(shorter) + {NameOf(entries[i])} ensures n in Names(longer) {
      if n in Names(shorter) {
        var k :| 0 <= k < |shorter| && NameOf(shorter[k]) == n;
        assert longer[k] == shorter[k];
      } else {
        assert longer[i] == entries[i];
      }
    }
  }

  /** `live` are the files that were not stale at their readings of the clock. */
  ghost predicate FreshOnly(before: Directory, live: Directory, listing: seq<CacheEntry>, nows: seq<nat>) {
    && |nows| == |listing|
    && (forall n :: n in live ==> n in before && live[n] == before[n])
    && (forall n :: n in before ==> exists i :: 0 <= i < |listing| && NameOf(listing[i]) == n)
    && forall i :: 0 <= i < |listing| ==>
         (NameOf(listing[i]) in live <==> (listing[i].ttlSeconds > 0 && nows[i] < listing[i].createdAt + listing[i].ttlSeconds))
  }

  /** What a write does, said of the directories alone. */
  ghost predicate Written(before: Directory, after: Directory, op: Op)
    requires op.Set?
  {
    exists kept :: EvictedByAge(before, kept, op.max)
      && after == kept[KeyToFilename(op.key) :=
                        CacheEntry(op.key, op.now, op.ttl, false, Text.ByteLength(op.body), 0, op.body)]
  }

  /** What `optimize` does, said of the directories alone. */
  ghost predicate Optimized(before: Directory, after: Directory, op: Op)
    requires op.Optimize?
  {
    exists live :: FreshOnly(before, live, op.listing, op.nows) && EvictedByAge(live, after, op.max)
  }

  lemma {:induction false} StaleGone(files: Directory, listing: seq<CacheEntry>, nows: seq<nat>)
    requires IsListing(files, listing) && |nows| == |listing|
    ensures FreshOnly(files, files - StaleNames(listing, nows), listing, nows)
  {
    var live := files - StaleNames(listing, nows);
    forall i | 0 <= i < |listing|
      ensures NameOf(listing[i]) in live <==> (listing[i].ttlSeconds > 0 && nows[i] < listing[i].createdAt + listing[i].ttlSeconds)
    {
      if NameOf(listing[i]) in StaleNames(listing, nows) {
        var j :| 0 <= j < |listing| && IsStale(listing[j], nows[j]) && NameOf(listing[j]) == NameOf(listing[i]);
        assert i == j;
      }
    }
  }

  /** The operations as they are described above: which files a write and
      `optimize` remove, by age and size alone. */
  lemma {:induction false} StepByAge(files: Directory, op: Op)
    requires Legal(files, op)
    ensures op.Set? ==> Written(files, Step(files, op), op)
    ensures op.Optimize? ==> Optimized(files, Step(files, op), op)
  {
    match op
    case Set(_, _, _, _, max, listing) => EvictsByAge(files, listing, max);
    case Optimize(max, listing, nows) =>
      StaleGone(files, listing, nows);
      LiveListing(files, listing, nows);
      EvictsByAge(files - StaleNames(listing, nows), FreshOf(listing, nows), max);
    case _ =>
  }

  class Cache {
    var files: Directory
    /** Files under entry names that cannot be read or parsed. */
    var broken: set<FileName>

    ghost predicate Valid()
      reads this
    {
      WellFormed(files) && broken !! files.Keys
    }

    constructor (unreadable: set<FileName>)
      ensures Valid() && files == map[] && broken == unreadable
    {
      files, broken := map[], unreadable;
    }

    static method Clock() returns (now: nat) {
      now := *;
    }

    /** Lists the directory in whatever order the file system returns it, without
        what cannot be read. */
    method LoadEntries() returns (entries: seq<CacheEntry>)
      requires Valid()
      ensures IsListing(files, entries)
    {
      entries := [];
      var remaining := files.Keys + broken;
      while remaining != {}
        invariant remaining <= files.Keys + broken
        invariant IsListing(files - remaining, entries)
        decreases remaining
      {
        var n :| n in remaining;
        if n in files {
          ListingSnoc(files - remaining, entries, files[n]);
          assert (files - remaining)[n := files[n]] == files - (remaining - {n});
          entries := entries + [files[n]];
        } else {
          assert files - remaining == files - (remaining - {n});
        }
        remaining := remaining - {n};
      }
      assert files - {} == files;
    }

    method DeleteEntryFile(key: string) returns (removed: bool)
      modifies this
      ensures files == old(files) - {KeyToFilename(key)} && broken == old(broken) - {KeyToFilename(key)}
      ensures removed <==> KeyToFilename(key) in old(files) || KeyToFilename(key) in old(broken)
    {
      removed := KeyToFilename(key) in files || KeyToFilename(key) in broken;
      files, broken := files - {KeyToFilename(key)}, broken - {KeyToFilename(key)};
    }

    /** Removes the oldest entries until the rest fits; `listing` is the order
        in which the directory was read. */
    method EnforceMaxDiskSize(max: nat) returns (ghost listing: seq<CacheEntry>)
      requires Valid()
      modifies this
      ensures IsListing(old(files), listing)
      ensures files == old(files) - Evicted(listing, max) && broken == old(broken)
      ensures EvictedByAge(old(files), files, max)
    {
      var entries := LoadEntries();
      listing := entries;
      EvictsByAge(files, entries, max);
      if max == 0 {
        return;
      }
      var total := Size(entries);
      if total <= max {
        ListingSize(files, entries);
        FittingKept(files, entries, max);
        assert files - {} == files;
        return;
      }
      SortedListing(files, entries);
      var _ := EvictInOrder(ByAge(entries), total, max);
    }

    /** The loop of `EnforceMaxDiskSize` over the sorted entries; its running
        total ends as the bytes then on disk. */
    method EvictInOrder(entries: seq<CacheEntry>, total: nat, max: nat) returns (current: nat)
      requires IsListing(files, entries) && total == Size(entries) && broken !! files.Keys
      modifies this
      ensures files == old(files) - Names(entries[..EvictCount(entries, max)]) && broken == old(broken)
      ensures current == DirSize(files) <= max
    {
      current := total;
      StartEvicting(files, entries, max);
      for i := 0 to |entries|
        invariant Evicting(old(files), files, entries, i, max) && current == DirSize(files)
        invariant broken == old(broken) && broken !! files.Keys
      {
        if current <= max {
          EvictStop(old(files), files, entries, i, max);
          return;
        }
        NextEviction(old(files), files, entries, i, max);
        ListedNotBroken(files, entries, i, broken);
        var _ := DeleteEntryFile(entries[i].key);
        current := SaturatingSub(current, entries[i].sizeBytes);
      }
      EvictStop(old(files), files, entries, |entries|, max);
      NothingListed(files, entries);
    }

    method Clear(level: string, key: Option<string>) returns (ghost op: Op)
      requires Valid()
      modifies this
      ensures Valid()
      ensures op == if key.Some? then ClearKey(key.value) else ClearLevel(level)
      ensures files == Step(old(files), op) && broken == StillBroken(old(broken), op)
      ensures key.Some? ==> files == old(files) - {KeyToFilename(key.value)} && broken == old(broken) - {KeyToFilename(key.value)}
      ensures key.None? && level !in {"memory", "in-memory", "remote"} ==> files == map[] && broken == {}
      ensures key.None? && level in {"memory", "in-memory", "remote"} ==> files == old(files) && broken == old(broken)
    {
      if key.Some? {
        op := ClearKey(key.value);
        var _ := DeleteEntryFile(key.value);
        return;
      }
      op := ClearLevel(level);
      match level {
        case "memory" =>
        case "in-memory" =>
        case "remote" =>
        case _ => files, broken := map[], {};
      }
    }

    method ReadEntry(key: string) returns (entry: Result<Option<CacheEntry>, FileName>)
      ensures entry.Err? <==> KeyToFilename(key) in broken
      ensures entry.Err? ==> entry.error == KeyToFilename(key)
      ensures entry.Ok? ==>
        entry.value == if KeyToFilename(key) in files then Some(files[KeyToFilename(key)]) else None
    {
      var name := KeyToFilename(key);
      if name in broken {
        return Err(name);
      }
      if name !in files {
        return Ok(None);
      }
      entry := Ok(Some(files[name]));
    }

    method TouchEntry(key: string, entry: CacheEntry) returns (touched: CacheEntry)
      modifies this`files
      ensures touched == Touched(entry)
      ensures files == old(files)[KeyToFilename(key) := touched]
    {
      touched := entry.(hits := if entry.hits < MAX_U64 then entry.hits + 1 else MAX_U64);
      files := files[KeyToFilename(key) := touched];
    }

    /** A file that cannot be read makes the read fail, and stays. */
    method GetHttpEntry(key: string) returns (result: Result<Option<CacheEntry>, FileName>, ghost op: Op)
      requires Valid()
      modifies this
      ensures Valid()
      ensures op.Get? && op.key == key
      ensures files == Step(old(files), op) && broken == old(broken)
      ensures result == if KeyToFilename(key) in broken then Err(KeyToFilename(key)) else Ok(Served(old(files), key, op.now))
      ensures var n := KeyToFilename(key);
        if n in broken then result == Err(n) && files == old(files)
        else if n !in old(files) then result == Ok(None) && files == old(files)
        else
          var e := old(files)[n];
          if e.ttlSeconds > 0 && op.now < e.createdAt + e.ttlSeconds then
            && result == Ok(Some(e.(hits := if e.hits < MAX_U64 then e.hits + 1 else MAX_U64)))
            && files == old(files)[n := result.value.value]
          else result == Ok(None) && files == old(files) - {n}
    {
      var now := Clock();
      op := Get(key, now);
      var entry := ReadEntry(key);
      if entry.Err? {
        return Err(entry.error), op;
      }
      if entry.value.None? {
        return Ok(None), op;
      }
      if IsStale(entry.value.value, now) {
        var _ := DeleteEntryFile(key);
        return Ok(None), op;
      }
      var touched := TouchEntry(key, entry.value.value);
      result := Ok(Some(touched));
    }

    method SetHttpEntry(key: string, body: string, ttl: nat, max: nat) returns (ghost op: Op)
      requires Valid()
      modifies this
      ensures Valid()
      ensures op.Set? && op.key == key && op.body == body && op.ttl == ttl && op.max == max
      ensures Legal(old(files), op) && files == Step(old(files), op) && broken == StillBroken(old(broken), op)
      ensures Written(old(files), files, op)
    {
      var now := Clock();
      var entry := CacheEntry(key, now, ttl, false, Text.ByteLength(body), 0, body);
      ghost var listing := EnforceMaxDiskSize(max);
      files, broken := files[KeyToFilename(key) := entry], broken - {KeyToFilename(key)};
      op := Set(key, body, now, ttl, max, listing);
      StepWellFormed(old(files), op);
    }

    /** The first phase of `Optimize`: stale entries go, each judged by its own
        reading of the clock. */
    method RemoveStale() returns (live: seq<CacheEntry>, ghost listing: seq<CacheEntry>, ghost nows: seq<nat>)
      requires Valid()
      modifies this
      ensures IsListing(old(files), listing) && |nows| == |listing|
      ensures live == FreshOf(listing, nows) && IsListing(files, live)
      ensures files == old(files) - StaleNames(listing, nows) && broken == old(broken)
      ensures FreshOnly(old(files), files, listing, nows)
    {
      var entries := LoadEntries();
      listing, nows, live := entries, [], [];
      StartSifting(files, entries);
      for i := 0 to |entries|
        invariant Sifting(old(files), files, entries, i, nows, live)
        invariant broken == old(broken) && broken !! files.Keys
      {
        var now := Clock();
        StaleStep(old(files), files, entries, i, nows, live, now);
        nows := nows + [now];
        if IsStale(entries[i], now) {
          SiftedNotBroken(files, live, entries, i, broken);
          var _ := DeleteEntryFile(entries[i].key);
        } else {
          live := live + [entries[i]];
        }
      }
      assert entries[..|entries|] == entries && live + entries[|entries|..] == live;
      StaleGone(old(files), entries, nows);
    }

    method Optimize(max: nat) returns (ghost op: Op)
      requires Valid()
      modifies this
      ensures Valid()
      ensures op.Optimize? && op.max == max
      ensures Legal(old(files), op) && files == Step(old(files), op) && broken == old(broken)
      ensures Optimized(old(files), files, op)
    {
      var entries;
      ghost var listing, nows;
      entries, listing, nows := RemoveStale();
      op := Op.Optimize(max, listing, nows);
      EvictOverLimit(entries, max);
      StepWellFormed(old(files), op);
    }

    /** The second phase of `Optimize`. */
    method EvictOverLimit(entries: seq<CacheEntry>, max: nat)
      requires IsListing(files, entries) && broken !! files.Keys
      modifies this
      ensures files == old(files) - Evicted(entries, max) && broken == old(broken)
      ensures EvictedByAge(old(files), files, max)
    {
      EvictsByAge(files, entries, max);
      if max > 0 {
        SortedListing(files, entries);
        var _ := EvictFromFront(ByAge(entries), max);
      }
    }

    /** ... over the sorted entries. */
    method EvictFromFront(sorted: seq<CacheEntry>, max: nat) returns (total: nat)
      requires IsListing(files, sorted) && broken !! files.Keys
      modifies this
      ensures files == old(files) - Names(sorted[..EvictCount(sorted, max)]) && broken == old(broken)
      ensures total == DirSize(files) <= max
    {
      var entries := sorted;
      total := Size(entries);
      ghost var i := 0;
      StartEvicting(files, entries, max);
      while total > max && entries != []
        invariant Evicting(old(files), files, sorted, i, max)
        invariant entries == sorted[i..] && total == DirSize(files)
        invariant broken == old(broken) && broken !! files.Keys
        decreases |entries|
      {
        FirstOfSuffix(sorted, i);
        NextEviction(old(files), files, sorted, i, max);
        ListedNotBroken(files, sorted, i, broken);
        var oldest := entries[0];
        total := SaturatingSub(total, oldest.sizeBytes);
        var _ := DeleteEntryFile(oldest.key);
        entries := entries[1..];
        i := i + 1;
      }
      EvictStop(old(files), files, sorted, i, max);
      if i == |sorted| { NothingListed(files, sorted); }
    }
  }

  /** The first `i` of the sorted entries have been removed, and had to be. */
  ghost predicate Evicting(before: Directory, files: Directory, entries: seq<CacheEntry>, i: nat, max: nat) {
    && i <= |entries|
    && files == before - Names(entries[..i])
    && IsListing(files, entries[i..])
    && EvictCount(entries, max) == i + EvictCount(entries[i..], max)
  }

  /** A listed file is not one of the unreadable ones. */
  lemma {:induction false} ListedNotBroken(files: Directory, entries: seq<CacheEntry>, i: nat, broken: set<FileName>)
    requires i < |entries| && IsListing(files, entries[i..]) && broken !! files.Keys
    ensures broken - {NameOf(entries[i])} == broken
  {
    assert entries[i..][0] == entries[i];
  }

  lemma {:induction false} SiftedNotBroken(files: Directory, live: seq<CacheEntry>, entries: seq<CacheEntry>, i: nat,
                                           broken: set<FileName>)
    requires i < |entries| && IsListing(files, live + entries[i..]) && broken !! files.Keys
    ensures broken - {NameOf(entries[i])} == broken
  {
    assert (live + entries[i..])[|live|] == entries[i];
  }

  lemma {:induction false} StartEvicting(files: Directory, entries: seq<CacheEntry>, max: nat)
    requires IsListing(files, entries)
    ensures Evicting(files, files, entries, 0, max) && DirSize(files) == Size(entries)
  {
    assert entries[0..] == entries && Names(entries[..0]) == {};
    ListingSize(files, entries);
  }

  lemma {:induction false} FirstOfSuffix<T>(s: seq<T>, k: nat)
    requires k < |s|
    ensures s[k..] != [] && s[k..][0] == s[k] && s[k..][1..] == s[k + 1..]
  {
  }

  lemma {:induction false} DropTwice(files: Directory, gone: set<FileName>, n: FileName)
    ensures files - gone - {n} == files - (gone + {n})
  {
  }

  lemma {:induction false} EvictStep(before: Directory, files: Directory, entries: seq<CacheEntry>, i: nat, max: nat)
    requires i < |entries| && Evicting(before, files, entries, i, max)
    ensures DirSize(files) == entries[i].sizeBytes + DirSize(files - {NameOf(entries[i])})
    ensures DirSize(files) <= max ==> EvictCount(entries, max) == i
    ensures DirSize(files) > max ==> Evicting(before, files - {NameOf(entries[i])}, entries, i + 1, max)
  {
    var rest, n := entries[i..], NameOf(entries[i]);
    FirstOfSuffix(entries, i);
    ListingSize(files, rest);
    assert IsListing(files - {n}, rest[1..]) by { ListingTail(files, rest); }
    DirSizeWithout(files, n);
    NamesSnoc(entries, i);
    DropTwice(before, Names(entries[..i]), n);
    assert EvictCount(rest, max) == if DirSize(files) <= max then 0 else 1 + EvictCount(rest[1..], max);
  }

  lemma {:induction false} EvictEnd(before: Directory, files: Directory, entries: seq<CacheEntry>, max: nat)
    requires Evicting(before, files, entries, |entries|, max)
    ensures files == before - Names(entries[..EvictCount(entries, max)])
  {
    assert entries[|entries|..] == [];
  }

  lemma {:induction false} EvictStop(before: Directory, files: Directory, entries: seq<CacheEntry>, i: nat, max: nat)
    requires Evicting(before, files, entries, i, max) && (DirSize(files) <= max || i == |entries|)
    ensures files == before - Names(entries[..EvictCount(entries, max)])
  {
    if i == |entries| {
      EvictEnd(before, files, entries, max);
    } else {
      EvictStep(before, files, entries, i, max);
    }
  }

  lemma {:induction false} NothingListed(files: Directory, entries: seq<CacheEntry>)
    requires IsListing(files, entries[|entries|..])
    ensures DirSize(files) == 0
  {
    assert entries[|entries|..] == [];
    assert files == map[];
  }

  lemma {:induction false} NextEviction(before: Directory, files: Directory, entries: seq<CacheEntry>, i: nat, max: nat)
    requires i < |entries| && Evicting(before, files, entries, i, max) && DirSize(files) > max
    ensures var n := NameOf(entries[i]);
      && Evicting(before, files - {n}, entries, i + 1, max)
      && DirSize(files - {n}) == SaturatingSub(DirSize(files), entries[i].sizeBytes)
  {
    EvictStep(before, files, entries, i, max);
  }

  /** The first `i` listed entries have been judged, and `live` are those kept. */
  ghost predicate Sifting(before: Directory, files: Directory, entries: seq<CacheEntry>, i: nat, nows: seq<nat>,
                          live: seq<CacheEntry>) {
    && |nows| == i <= |entries|
    && live == FreshOf(entries[..i], nows)
    && files == before - StaleNames(entries[..i], nows)
    && IsListing(files, live + entries[i..])
  }

  lemma {:induction false} StartSifting(files: Directory, entries: seq<CacheEntry>)
    requires IsListing(files, entries)
    ensures Sifting(files, files, entries, 0, [], [])
  {
    assert [] + entries[0..] == entries;
  }

  lemma {:induction false} FreshSnoc(entries: seq<CacheEntry>, i: nat, nows: seq<nat>, now: nat)
    requires i < |entries| && |nows| == i
    ensures FreshOf(entries[..i + 1], nows + [now])
         == FreshOf(entries[..i], nows) + if IsStale(entries[i], now) then [] else [entries[i]]
  {
    assert entries[..i + 1][..i] == entries[..i] && (nows + [now])[..i] == nows;
  }

  lemma {:induction false} StaleFound(before: Directory, files: Directory, entries: seq<CacheEntry>, i: nat,
                                      nows: seq<nat>, live: seq<CacheEntry>, now: nat)
    requires i < |entries| && Sifting(before, files, entries, i, nows, live) && IsStale(entries[i], now)
    ensures Sifting(before, files - {NameOf(entries[i])}, entries, i + 1, nows + [now], live)
  {
    var n := NameOf(entries[i]);
    FreshSnoc(entries, i, nows, now);
    assert files - {n} == before - StaleNames(entries[..i + 1], nows + [now]) by {
      StaleNamesSnoc(entries, i, nows, now);
      DropTwice(before, StaleNames(entries[..i], nows), n);
    }
    ListingPick(files, live, entries, i);
  }

  lemma {:induction false} FreshFound(before: Directory, files: Directory, entries: seq<CacheEntry>, i: nat,
                                      nows: seq<nat>, live: seq<CacheEntry>, now: nat)
    requires i < |entries| && Sifting(before, files, entries, i, nows, live) && !IsStale(entries[i], now)
    ensures Sifting(before, files, entries, i + 1, nows + [now], live + [entries[i]])
  {
    FreshSnoc(entries, i, nows, now);
    StaleNamesSnoc(entries, i, nows, now);
    assert live + entries[i..] == live + [entries[i]] + entries[i + 1..];
  }

  lemma {:induction false} StaleStep(before: Directory, files: Directory, entries: seq<CacheEntry>, i: nat,
                                     nows: seq<nat>, live: seq<CacheEntry>, now: nat)
    requires i < |entries| && Sifting(before, files, entries, i, nows, live)
    ensures if IsStale(entries[i], now)
      then Sifting(before, files - {NameOf(entries[i])}, entries, i + 1, nows + [now], live)
      else Sifting(before, files, entries, i + 1, nows + [now], live + [entries[i]])
  {
    if IsStale(entries[i], now) {
      StaleFound(before, files, entries, i, nows, live, now);
    } else {
      FreshFound(before, files, entries, i, nows, live, now);
    }
  }

  lemma {:induction false} ListingPick(files: Directory, live: seq<CacheEntry>, entries: seq<CacheEntry>, i: nat)
    requires i < |entries| && IsListing(files, live + entries[i..])
    ensures IsListing(files - {NameOf(entries[i])}, live + entries[i + 1..])
  {
    var e, rest := entries[i], live + entries[i + 1..];
    var pulled := [e] + rest;
    assert live + entries[i..] == live + [e] + entries[i + 1..];
    assert IsPermutation(live + entries[i..], pulled);
    assert IsListing(files, pulled) by {
      PermutedListing(files, live + entries[i..], pulled);
    }
    assert pulled[0] == e && pulled[1..] == rest;
    ListingTail(files, pulled);
  }

  lemma {:induction false} StaleNamesSnoc(entries: seq<CacheEntry>, i: nat, nows: seq<nat>, now: nat)
    requires i < |entries| && |nows| == i
    ensures StaleNames(entries[..i + 1], nows + [now])
         == StaleNames(entries[..i], nows) + if IsStale(entries[i], now) then {NameOf(entries[i])} else {}
  {
    var longer, nows' := entries[..i + 1], nows + [now];
    var before := StaleNames(entries[..i], nows);
    forall n | n in before ensures n in StaleNames(longer, nows') {
      var k :| 0 <= k < i && IsStale(entries[..i][k], nows[k]) && NameOf(entries[..i][k]) == n;
      assert longer[k] == entries[..i][k] && nows'[k] == nows[k];
    }
    if IsStale(entries[i], now) {
      assert longer[i] == entries[i] && nows'[i] == now;
    }
    forall n | n in StaleNames(longer, nows') && n !in before
      ensures IsStale(entries[i], now) && n == NameOf(entries[i])
    {
      var k :| 0 <= k < i + 1 && IsStale(longer[k], nows'[k]) && NameOf(longer[k]) == n;
    }
  }

  lemma {:induction false} ListingSnoc(files: Directory, entries: seq<CacheEntry>, e: CacheEntry)
    requires IsListing(files, entries) && NameOf(e) !in files
    ensures IsListing(files[NameOf(e) := e], entries + [e])
  {
    var longer := entries + [e];
    var grown := files[NameOf(e) := e];
    forall n | n in grown ensures exists i :: 0 <= i < |longer| && NameOf(longer[i]) == n {
      if n == NameOf(e) {
        assert longer[|entries|] == e;
      } else {
        var i :| 0 <= i < |entries| && NameOf(entries[i]) == n;
        assert longer[i] == entries[i];
      }
    }
  }

  lemma {:induction false} SiftNext(files: Directory, before: Directory, entries: seq<CacheEntry>, i: nat,
                                    nows: seq<nat>, kept: seq<CacheEntry>, now: nat)
      returns (after: Directory, live: seq<CacheEntry>)
    requires i < |entries| && Sifting(files, before, entries, i, nows, kept)
    ensures Sifting(files, after, entries, i + 1, nows + [now], live)
  {
    StaleStep(files, before, entries, i, nows, kept, now);
    if IsStale(entries[i], now) {
      after, live := before - {NameOf(entries[i])}, kept;
    } else {
      after, live := before, kept + [entries[i]];
    }
  }

  /** `optimize` after the entries judged at the first clock readings. */
  lemma {:induction false} SiftedListing(files: Directory, entries: seq<CacheEntry>, nows: seq<nat>)
      returns (after: Directory, live: seq<CacheEntry>)
    requires IsListing(files, entries) && |nows| <= |entries|
    ensures Sifting(files, after, entries, |nows|, nows, live)
    decreases |nows|
  {
    if nows == [] {
      StartSifting(files, entries);
      after, live := files, [];
    } else {
      var n := |nows| - 1;
      var front, now := nows[..n], nows[n];
      assert nows == front + [now];
      var before, kept := SiftedListing(files, entries, front);
      after, live := SiftNext(files, before, entries, n, front, kept, now);
    }
  }

  /** The entries that `optimize` keeps list the directory after its first phase. */
  lemma {:induction false} LiveListing(files: Directory, listing: seq<CacheEntry>, nows: seq<nat>)
    requires IsListing(files, listing) && |nows| == |listing|
    ensures IsListing(files - StaleNames(listing, nows), FreshOf(listing, nows))
  {
    var after, live := SiftedListing(files, listing, nows);
    assert listing[..|listing|] == listing;
    assert live + listing[|listing|..] == live;
  }
}
