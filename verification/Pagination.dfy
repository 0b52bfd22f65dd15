/** `batch-export` reads the whole contract list page by page and drops items
    whose id it has already seen. */
module Pagination {
  import opened Wrappers
  import opened Sequences

  const PAGE_SIZE: nat := 50

  datatype ItemId = ItemId(text: string)

  datatype Item = Item(id: Option<ItemId>, contractId: Option<ItemId>, content: string)

  /** The continuation fields of a page, in their two spellings. */
  datatype Paging = Paging(hasMore: Option<bool>, hasMoreCamel: Option<bool>,
                           nextOffset: Option<nat>, nextOffsetCamel: Option<nat>)

  /** A page as the server writes it; `nested` is its `pagination` object. */
  datatype Page = Page(items: Option<seq<Item>>, contracts: Option<seq<Item>>, top: Paging, nested: Paging)

  datatype Error = RequestFailed(reason: string) | MissingFlag | NothingButMore(offset: nat) | StillPaging

  type Server = nat -> Result<Page, string>

  function PageItems(page: Page): seq<Item> {
    OrElse(page.items, page.contracts).GetOr([])
  }

  function PageHasMore(page: Page): Option<bool> {
    OrElse(page.top.hasMore, OrElse(page.top.hasMoreCamel, OrElse(page.nested.hasMore, page.nested.hasMoreCamel)))
  }

  function PageNextOffset(page: Page): Option<nat> {
    OrElse(page.top.nextOffset,
           OrElse(page.top.nextOffsetCamel, OrElse(page.nested.nextOffset, page.nested.nextOffsetCamel)))
  }

  function ContractKey(item: Item): (key: Option<ItemId>)
    ensures item.id.Some? ==> key == item.id
    ensures item.id.None? ==> key == item.contractId
  {
    OrElse(item.id, item.contractId)
  }

  function Next(page: Page, offset: nat): nat {
    PageNextOffset(page).GetOr(offset + PAGE_SIZE)
  }

  /** The export loop with a number of requests it may make. */
  function FetchFrom(serve: Server, offset: nat, contracts: seq<Item>, seen: set<ItemId>, requests: nat)
      : Result<seq<Item>, Error>
    decreases requests
  {
    if requests == 0 then Err(StillPaging)
    else match serve(offset)
      case Err(reason) => Err(RequestFailed(reason))
      case Ok(page) =>
        var items, more := PageItems(page), PageHasMore(page);
        if more.None? then Err(MissingFlag)
        else if items == [] && more.value then Err(NothingButMore(offset))
        else
          var extended := contracts + KeepFirst(items, ContractKey, seen);
          if !more.value then Ok(extended)
          else FetchFrom(serve, Next(page, offset), extended, seen + KeysOf(items), requests - 1)
  }

  function KeysOf(items: seq<Item>): (r: set<ItemId>)
    ensures r == Keys(items, ContractKey)
  {
    set i | 0 <= i < |items| && ContractKey(items[i]).Some? :: ContractKey(items[i]).value
  }

  method ExtendUniqueContracts(contracts: seq<Item>, seen: set<ItemId>, items: seq<Item>)
      returns (contracts': seq<Item>, seen': set<ItemId>)
    ensures contracts' == contracts + KeepFirst(items, ContractKey, seen)
    ensures seen' == seen + KeysOf(items)
  {
    contracts', seen' := contracts, seen;
    for n := 0 to |items|
      invariant contracts' == contracts + KeepFirst(items[..n], ContractKey, seen)
      invariant seen' == seen + KeysOf(items[..n])
    {
      ExtendStep(items, seen, n);
      var key := ContractKey(items[n]);
      if key.Some? {
        if key.value in seen' {
          continue;
        }
        seen' := seen' + {key.value};
      }
      contracts' := contracts' + [items[n]];
    }
    assert items[..|items|] == items;
  }

  lemma {:induction false} ExtendStep(items: seq<Item>, seen: set<ItemId>, n: nat)
    requires n < |items|
    ensures var known := seen + KeysOf(items[..n]);
      var key := ContractKey(items[n]);
      && KeepFirst(items[..n + 1], ContractKey, seen)
           == KeepFirst(items[..n], ContractKey, seen)
              + (if key.Some? && key.value in known then [] else [items[n]])
      && seen + KeysOf(items[..n + 1]) == known + (if key.Some? then {key.value} else {})
  {
    assert items[..n + 1] == items[..n] + [items[n]];
    KeepFirstAppend(items[..n], [items[n]], ContractKey, seen);
    KeepFirstOne(items[n], ContractKey, seen + KeysOf(items[..n]));
    KeysAppend(items[..n], [items[n]], ContractKey);
    var key := ContractKey(items[n]);
    assert Keys([items[n]], ContractKey) == if key.Some? then {key.value} else {} by {
      assert ContractKey([items[n]][0]) == key;
    }
  }

  method FetchAllContracts(serve: Server, requests: nat) returns (result: Result<seq<Item>, Error>)
    ensures result == FetchFrom(serve, 0, [], {}, requests)
  {
    var contracts: seq<Item>, seen: set<ItemId>, offset: nat, left: nat := [], {}, 0, requests;
    while left > 0
      invariant left <= requests
      invariant FetchFrom(serve, offset, contracts, seen, left) == FetchFrom(serve, 0, [], {}, requests)
    {
      var reply := serve(offset);
      if reply.Err? {
        return Err(RequestFailed(reply.error));
      }
      var page := reply.value;
      var items, more := PageItems(page), PageHasMore(page);
      if more.None? {
        return Err(MissingFlag);
      }
      if items == [] && more.value {
        return Err(NothingButMore(offset));
      }
      contracts, seen := ExtendUniqueContracts(contracts, seen, items);
      if !more.value {
        return Ok(contracts);
      }
      offset := Next(page, offset);
      left := left - 1;
    }
    result := Err(StillPaging);
  }

  /** The number of requests allowed does not matter once the loop ends. */
  lemma {:induction false} BudgetOnly(serve: Server, offset: nat, contracts: seq<Item>, seen: set<ItemId>, n: nat, m: nat)
    requires n <= m && FetchFrom(serve, offset, contracts, seen, n) != Err(StillPaging)
    ensures FetchFrom(serve, offset, contracts, seen, m) == FetchFrom(serve, offset, contracts, seen, n)
    decreases n
  {
    if serve(offset).Ok? {
      var page := serve(offset).value;
      var items := PageItems(page);
      if PageHasMore(page) == Some(true) && items != [] {
        BudgetOnly(serve, Next(page, offset), contracts + KeepFirst(items, ContractKey, seen), seen + KeysOf(items),
                   n - 1, m - 1);
      }
    }
  }

  /** Against a server that always claims to have more, no number is enough. */
  lemma {:induction false} NeverEnough(serve: Server, offset: nat, contracts: seq<Item>, seen: set<ItemId>, n: nat)
    requires forall at :: serve(at).Ok? && PageItems(serve(at).value) != [] && PageHasMore(serve(at).value) == Some(true)
    ensures FetchFrom(serve, offset, contracts, seen, n) == Err(StillPaging)
    decreases n
  {
    if n > 0 {
      var page := serve(offset).value;
      var items := PageItems(page);
      NeverEnough(serve, Next(page, offset), contracts + KeepFirst(items, ContractKey, seen), seen + KeysOf(items), n - 1);
    }
  }

  // ---- any server --------------------------------------------------------------

  /** Whatever the server does, no two exported items share an id. */
  lemma {:induction false} NoIdTwice(serve: Server, offset: nat, contracts: seq<Item>, requests: nat)
    requires forall i, j :: 0 <= i < j < |contracts| && ContractKey(contracts[i]).Some? ==>
               ContractKey(contracts[i]) != ContractKey(contracts[j])
    requires FetchFrom(serve, offset, contracts, KeysOf(contracts), requests).Ok?
    ensures var r := FetchFrom(serve, offset, contracts, KeysOf(contracts), requests).value;
      forall i, j :: 0 <= i < j < |r| && ContractKey(r[i]).Some? ==> ContractKey(r[i]) != ContractKey(r[j])
    decreases requests
  {
    var page := serve(offset).value;
    var items, seen := PageItems(page), KeysOf(contracts);
    var extended := contracts + KeepFirst(items, ContractKey, seen);
    ExtendedDistinct(contracts, items);
    if PageHasMore(page) == Some(true) {
      KeepFirstKeys(items, ContractKey, seen);
      KeysAppend(contracts, KeepFirst(items, ContractKey, seen), ContractKey);
      assert seen + KeysOf(items) == KeysOf(extended);
      NoIdTwice(serve, Next(page, offset), extended, requests - 1);
    }
  }

  lemma {:induction false} ExtendedDistinct(contracts: seq<Item>, items: seq<Item>)
    requires forall i, j :: 0 <= i < j < |contracts| && ContractKey(contracts[i]).Some? ==>
               ContractKey(contracts[i]) != ContractKey(contracts[j])
    ensures var r := contracts + KeepFirst(items, ContractKey, KeysOf(contracts));
      forall i, j :: 0 <= i < j < |r| && ContractKey(r[i]).Some? ==> ContractKey(r[i]) != ContractKey(r[j])
  {
    var added := KeepFirst(items, ContractKey, KeysOf(contracts));
    KeepFirstKeys(items, ContractKey, KeysOf(contracts));
    var r := contracts + added;
    forall i, j | 0 <= i < j < |r| && ContractKey(r[i]).Some? ensures ContractKey(r[i]) != ContractKey(r[j]) {
      if i < |contracts| <= j && ContractKey(r[j]).Some? {
        assert ContractKey(contracts[i]).value in KeysOf(contracts);
        assert added[j - |contracts|] == r[j];
        assert ContractKey(r[j]).value in Keys(added, ContractKey);
      } else if |contracts| <= i {
        assert r[i] == added[i - |contracts|] && r[j] == added[j - |contracts|];
      }
    }
  }

  // ---- honest servers ------------------------------------------------------------

  /** The first of four spellings that is given has this value. */
  predicate Spelled<T(==)>(a: Option<T>, b: Option<T>, c: Option<T>, d: Option<T>, value: T) {
    || a == Some(value)
    || (a.None? && b == Some(value))
    || (a.None? && b.None? && c == Some(value))
    || (a.None? && b.None? && c.None? && d == Some(value))
  }

  /** Items are in `items`, or in `contracts` when that is absent. */
  predicate Holds(page: Page, items: seq<Item>) {
    page.items == Some(items) || (page.items.None? && page.contracts == Some(items))
  }

  predicate SaysMore(page: Page, more: bool) {
    Spelled(page.top.hasMore, page.top.hasMoreCamel, page.nested.hasMore, page.nested.hasMoreCamel, more)
  }

  predicate SaysNext(page: Page, next: nat) {
    Spelled(page.top.nextOffset, page.top.nextOffsetCamel, page.nested.nextOffset, page.nested.nextOffsetCamel, next)
  }

  predicate SaysNoNext(page: Page) {
    && page.top.nextOffset.None? && page.top.nextOffsetCamel.None?
    && page.nested.nextOffset.None? && page.nested.nextOffsetCamel.None?
  }

  /** The loop reads a page by the first spelling that is given, and without a
      next offset continues 50 items further. */
  lemma {:induction false} PageReads(page: Page, offset: nat)
    ensures forall items :: Holds(page, items) ==> PageItems(page) == items
    ensures page.items.None? && page.contracts.None? ==> PageItems(page) == []
    ensures forall more :: PageHasMore(page) == Some(more) <==> SaysMore(page, more)
    ensures forall next :: SaysNext(page, next) ==> Next(page, offset) == next
    ensures SaysNoNext(page) ==> Next(page, offset) == offset + 50
  {
  }

  /** The page at `offset` holds the next stretch of the list and says truthfully
      whether more follows; if so it is not empty, and either gives a next offset
      behind its start and not beyond its end, or gives none and is a full page of
      50 items.  Pages may overlap. */
  ghost predicate HonestPage(page: Page, list: seq<Item>, offset: nat) {
    exists end: nat :: HonestUpTo(page, list, offset, end)
  }

  ghost predicate HonestUpTo(page: Page, list: seq<Item>, offset: nat, end: nat) {
    && offset <= end <= |list| && Holds(page, list[offset..end]) && SaysMore(page, end < |list|)
    && (end < |list| ==>
          || (SaysNoNext(page) && end == offset + 50)
          || (exists next: nat :: SaysNext(page, next) && offset < next <= end))
  }

  /** What that means for the loop. */
  lemma {:induction false} HonestReads(page: Page, list: seq<Item>, offset: nat)
    requires HonestPage(page, list, offset)
    ensures var items := PageItems(page);
      var end := offset + |items|;
      && end <= |list| && items == list[offset..end]
      && PageHasMore(page) == Some(end < |list|)
      && (end < |list| ==> items != [] && offset < Next(page, offset) <= end)
  {
    PageReads(page, offset);
    var end: nat :| HonestUpTo(page, list, offset, end);
    assert PageItems(page) == list[offset..end];
  }

  /** Each way in which a reply ends the export with an error. */
  lemma {:induction false} FetchErrors(serve: Server, offset: nat, contracts: seq<Item>, seen: set<ItemId>, requests: nat)
    requires requests > 0
    ensures var r := FetchFrom(serve, offset, contracts, seen, requests);
      match serve(offset)
      case Err(reason) => r == Err(RequestFailed(reason))
      case Ok(page) =>
        && ((forall more :: !SaysMore(page, more)) ==> r == Err(MissingFlag))
        && (SaysMore(page, true) && (Holds(page, []) || (page.items.None? && page.contracts.None?)) ==>
              r == Err(NothingButMore(offset)))
  {
    if serve(offset).Ok? {
      var page := serve(offset).value;
      PageReads(page, offset);
      if PageHasMore(page).Some? {
        assert SaysMore(page, PageHasMore(page).value);
      }
    }
  }

  ghost predicate Honest(serve: Server, list: seq<Item>) {
    forall offset: nat :: offset <= |list| ==> serve(offset).Ok? && HonestPage(serve(offset).value, list, offset)
  }

  /** Everything served from `offset` on, repetitions included. */
  ghost function Pages(serve: Server, list: seq<Item>, offset: nat): seq<Item>
    requires Honest(serve, list) && offset <= |list|
    decreases |list| - offset
  {
    var page := serve(offset).value;
    var items := PageItems(page);
    items + if offset + |items| < |list| then Pages(serve, list, Next(page, offset)) else []
  }

  /** Where the honest page at `offset` ends, and where the next one starts. */
  ghost predicate PageAt(serve: Server, list: seq<Item>, offset: nat, end: nat, next: nat) {
    && serve(offset).Ok? && offset <= end <= |list| && PageItems(serve(offset).value) == list[offset..end]
    && PageHasMore(serve(offset).value) == Some(end < |list|)
    && next == Next(serve(offset).value, offset) && (end < |list| ==> offset < next <= end)
  }

  lemma {:induction false} HonestPageAt(serve: Server, list: seq<Item>, offset: nat) returns (end: nat, next: nat)
    requires Honest(serve, list) && offset <= |list|
    ensures PageAt(serve, list, offset, end, next)
  {
    var page := serve(offset).value;
    HonestReads(page, list, offset);
    end, next := offset + |PageItems(page)|, Next(page, offset);
  }

  lemma {:induction false} HonestStep(serve: Server, list: seq<Item>, offset: nat, end: nat, next: nat,
                                      contracts: seq<Item>, seen: set<ItemId>, requests: nat)
    requires PageAt(serve, list, offset, end, next) && requests > 0
    ensures var items := list[offset..end];
      var extended := contracts + KeepFirst(items, ContractKey, seen);
      FetchFrom(serve, offset, contracts, seen, requests)
        == if end < |list| then FetchFrom(serve, next, extended, seen + KeysOf(items), requests - 1) else Ok(extended)
  {
  }

  lemma {:induction false} Joined(contracts: seq<Item>, items: seq<Item>, more: seq<Item>, seen: set<ItemId>)
    ensures contracts + KeepFirst(items, ContractKey, seen) + KeepFirst(more, ContractKey, seen + KeysOf(items))
         == contracts + KeepFirst(items + more, ContractKey, seen)
  {
    KeepFirstAppend(items, more, ContractKey, seen);
  }

  /** From here on the loop fetches the items `more`. */
  ghost predicate Fetches(serve: Server, offset: nat, contracts: seq<Item>, seen: set<ItemId>, requests: nat,
                          more: seq<Item>) {
    FetchFrom(serve, offset, contracts, seen, requests) == Ok(contracts + KeepFirst(more, ContractKey, seen))
  }

  lemma {:induction false} FetchesLast(serve: Server, list: seq<Item>, offset: nat, next: nat,
                                       contracts: seq<Item>, seen: set<ItemId>, requests: nat)
    requires PageAt(serve, list, offset, |list|, next) && requests > 0
    ensures Fetches(serve, offset, contracts, seen, requests, list[offset..])
  {
    HonestStep(serve, list, offset, |list|, next, contracts, seen, requests);
    assert list[offset..|list|] == list[offset..];
  }

  lemma {:induction false} FetchesEarlier(serve: Server, list: seq<Item>, offset: nat, end: nat, next: nat,
                                          contracts: seq<Item>, seen: set<ItemId>, requests: nat,
                                          extended: seq<Item>, seen': set<ItemId>, left: nat, more: seq<Item>)
    requires PageAt(serve, list, offset, end, next) && end < |list| && requests == left + 1
    requires extended == contracts + KeepFirst(list[offset..end], ContractKey, seen)
    requires seen' == seen + KeysOf(list[offset..end])
    requires Fetches(serve, next, extended, seen', left, more)
    ensures Fetches(serve, offset, contracts, seen, requests, list[offset..end] + more)
  {
    HonestStep(serve, list, offset, end, next, contracts, seen, requests);
    Joined(contracts, list[offset..end], more, seen);
  }

  lemma {:induction false} FetchesServed(serve: Server, list: seq<Item>, offset: nat, contracts: seq<Item>,
                                         seen: set<ItemId>, requests: nat) returns (served: seq<Item>)
    requires Honest(serve, list) && offset <= |list| && requests > |list| - offset
    ensures Fetches(serve, offset, contracts, seen, requests, served) && served == Pages(serve, list, offset)
    decreases |list| - offset
  {
    var end, next := HonestPageAt(serve, list, offset);
    PagesFrom(serve, list, offset, end, next);
    if end < |list| {
      var left := requests - 1;
      var extended, seen' := contracts + KeepFirst(list[offset..end], ContractKey, seen), seen + KeysOf(list[offset..end]);
      var more := FetchesServed(serve, list, next, extended, seen', left);
      FetchesEarlier(serve, list, offset, end, next, contracts, seen, requests, extended, seen', left, more);
      served := list[offset..end] + more;
    } else {
      FetchesLast(serve, list, offset, next, contracts, seen, requests);
      served := list[offset..];
    }
  }

  /** The loop ends, and returns the served items with repeated ids dropped. */
  lemma {:induction false} FetchesAll(serve: Server, list: seq<Item>, offset: nat, contracts: seq<Item>,
                                      seen: set<ItemId>, requests: nat)
    requires Honest(serve, list) && offset <= |list| && requests > |list| - offset
    ensures Fetches(serve, offset, contracts, seen, requests, Pages(serve, list, offset))
  {
    var served := FetchesServed(serve, list, offset, contracts, seen, requests);
  }

  function Unkeyed(items: seq<Item>): nat {
    if items == [] then 0 else (if ContractKey(items[0]).None? then 1 else 0) + Unkeyed(items[1..])
  }

  function Max(a: nat, b: nat): nat {
    if a < b then b else a
  }

  /** How many items without an id are served again, when everything before
      `done` has been served already. */
  ghost function Repeats(serve: Server, list: seq<Item>, offset: nat, done: nat): nat
    requires Honest(serve, list) && offset <= done <= |list|
    decreases |list| - offset
  {
    var page := serve(offset).value;
    var end := offset + |PageItems(page)|;
    var again := if end < done then end else done;
    Unkeyed(list[offset..again])
      + if end < |list| then Repeats(serve, list, Next(page, offset), Max(end, done)) else 0
  }

  /** Items seen before add only those without an id. */
  lemma {:induction false} SeenAgain(items: seq<Item>, seen: set<ItemId>)
    requires KeysOf(items) <= seen
    ensures |KeepFirst(items, ContractKey, seen)| == Unkeyed(items)
    ensures seen + KeysOf(items) == seen
  {
    if items != [] {
      assert items == [items[0]] + items[1..];
      KeysAppend([items[0]], items[1..], ContractKey);
      var key := ContractKey(items[0]);
      if key.Some? {
        assert ContractKey([items[0]][0]) == key;
        assert key.value in Keys([items[0]], ContractKey);
      }
      SeenAgain(items[1..], seen);
    }
  }

  lemma {:induction false} SliceKeys(list: seq<Item>, a: nat, b: nat, c: nat)
    requires a <= b <= c <= |list|
    ensures KeysOf(list[a..b]) <= KeysOf(list[..c])
    ensures KeysOf(list[..c]) == KeysOf(list[..b]) + KeysOf(list[b..c])
  {
    assert list[..c] == list[..b] + list[b..c];
    KeysAppend(list[..b], list[b..c], ContractKey);
    assert list[..b] == list[..a] + list[a..b];
    KeysAppend(list[..a], list[a..b], ContractKey);
  }

  /** One page when everything before `done` is known: the part before `done`
      contributes its items without an id, the rest is new. */
  lemma {:induction false} PageContribution(list: seq<Item>, offset: nat, end: nat, done: nat)
    requires offset <= end <= |list| && offset <= done <= |list|
    ensures var known := KeysOf(list[..done]);
      var again := if end < done then end else done;
      && KeepFirst(list[offset..end], ContractKey, known)
           == KeepFirst(list[offset..again], ContractKey, known) + KeepFirst(list[again..end], ContractKey, known)
      && |KeepFirst(list[offset..again], ContractKey, known)| == Unkeyed(list[offset..again])
      && known + KeysOf(list[offset..end]) == KeysOf(list[..Max(end, done)])
  {
    var known := KeysOf(list[..done]);
    var again := if end < done then end else done;
    SliceKeys(list, offset, again, done);
    SeenAgain(list[offset..again], known);
    assert list[offset..end] == list[offset..again] + list[again..end];
    KeepFirstAppend(list[offset..again], list[again..end], ContractKey, known);
    KeysAppend(list[offset..again], list[again..end], ContractKey);
    if done <= end {
      SliceKeys(list, done, done, end);
    } else {
      assert list[again..end] == [];
    }
  }

  /** `served` is `rest` with `repeats` more items. */
  ghost predicate Kept(served: seq<Item>, rest: seq<Item>, repeats: nat) {
    |served| == |rest| + repeats && (repeats == 0 ==> served == rest)
  }

  lemma {:induction false} KeptAfter(seen: seq<Item>, added: seq<Item>, later: seq<Item>, rest: seq<Item>, repeats: nat)
    requires Kept(later, rest, repeats)
    ensures Kept(seen + added + later, added + rest, |seen| + repeats)
  {
  }

  /** When everything before `done` is known, `pages`, de-duplicated, are the
      rest of the list de-duplicated, plus `repeats` items without an id. */
  ghost predicate ServedKept(list: seq<Item>, pages: seq<Item>, done: nat, repeats: nat)
    requires done <= |list|
  {
    var known := KeysOf(list[..done]);
    Kept(KeepFirst(pages, ContractKey, known), KeepFirst(list[done..], ContractKey, known), repeats)
  }

  /** One page up to `end`, when the pages after it are known to do right. */
  lemma {:induction false} PageThenLater(list: seq<Item>, offset: nat, end: nat, done: nat, pages: seq<Item>, repeats: nat)
    requires offset <= end <= |list| && offset <= done <= |list|
    requires ServedKept(list, pages, Max(end, done), repeats)
    ensures ServedKept(list, list[offset..end] + pages, done,
                       Unkeyed(list[offset..if end < done then end else done]) + repeats)
  {
    var known, known' := KeysOf(list[..done]), KeysOf(list[..Max(end, done)]);
    var again := if end < done then end else done;
    var seen, added := KeepFirst(list[offset..again], ContractKey, known), KeepFirst(list[again..end], ContractKey, known);
    var later := KeepFirst(pages, ContractKey, known');
    var page := list[offset..end];
    assert |seen| == Unkeyed(list[offset..again]) && KeepFirst(page + pages, ContractKey, known) == seen + added + later by {
      PageContribution(list, offset, end, done);
      KeepFirstAppend(page, pages, ContractKey, known);
    }
    RestSplit(list, again, end, done);
    KeptAfter(seen, added, later, KeepFirst(list[Max(end, done)..], ContractKey, known'), repeats);
  }

  lemma {:induction false} NothingLater(list: seq<Item>)
    ensures ServedKept(list, [], |list|, 0)
  {
    assert list[|list|..] == [];
  }

  lemma {:induction false} PagesFrom(serve: Server, list: seq<Item>, offset: nat, end: nat, next: nat)
    requires Honest(serve, list) && offset <= |list| && PageAt(serve, list, offset, end, next)
    ensures Pages(serve, list, offset) == list[offset..end] + (if end < |list| then Pages(serve, list, next) else [])
  {
  }

  lemma {:induction false} RepeatsFrom(serve: Server, list: seq<Item>, offset: nat, done: nat, end: nat, next: nat)
    requires Honest(serve, list) && offset <= done <= |list| && PageAt(serve, list, offset, end, next)
    ensures Repeats(serve, list, offset, done) == Unkeyed(list[offset..if end < done then end else done])
              + (if end < |list| then Repeats(serve, list, next, Max(end, done)) else 0)
  {
  }

  /** The served items, de-duplicated, are the rest of the list de-duplicated
      plus the repeated items without an id. */
  lemma {:induction false} PagesKept(serve: Server, list: seq<Item>, offset: nat, done: nat)
    requires Honest(serve, list) && offset <= done <= |list|
    ensures ServedKept(list, Pages(serve, list, offset), done, Repeats(serve, list, offset, done))
    decreases |list| - offset
  {
    var end, next := HonestPageAt(serve, list, offset);
    PagesFrom(serve, list, offset, end, next);
    RepeatsFrom(serve, list, offset, done, end, next);
    if end < |list| {
      PagesKept(serve, list, next, Max(end, done));
      PageThenLater(list, offset, end, done, Pages(serve, list, next), Repeats(serve, list, next, Max(end, done)));
    } else {
      NothingLater(list);
      PageThenLater(list, offset, end, done, [], 0);
    }
  }

  lemma {:induction false} RestSplit(list: seq<Item>, again: nat, end: nat, done: nat)
    requires done <= |list| && end <= |list| && again == if end < done then end else done
    ensures var known := KeysOf(list[..done]);
      KeepFirst(list[done..], ContractKey, known)
        == KeepFirst(list[again..end], ContractKey, known)
           + KeepFirst(list[Max(end, done)..], ContractKey, KeysOf(list[..Max(end, done)]))
  {
    var known := KeysOf(list[..done]);
    if done <= end {
      assert list[done..] == list[done..end] + list[end..];
      KeepFirstAppend(list[done..end], list[end..], ContractKey, known);
      SliceKeys(list, done, done, end);
    } else {
      assert list[again..end] == [];
    }
  }

  /** The export of an honest server is the list with repeated ids dropped,
      each item at its first place, if and only if no item without an id lies
      where two pages overlap. */
  lemma {:induction false} ExportsWholeList(serve: Server, list: seq<Item>, requests: nat)
    requires Honest(serve, list) && requests > |list|
    ensures FetchFrom(serve, 0, [], {}, requests).Ok?
    ensures FetchFrom(serve, 0, [], {}, requests).value == KeepFirst(list, ContractKey, {})
       <==> Repeats(serve, list, 0, 0) == 0
    ensures |FetchFrom(serve, 0, [], {}, requests).value|
         == |KeepFirst(list, ContractKey, {})| + Repeats(serve, list, 0, 0)
  {
    FetchesAll(serve, list, 0, [], {}, requests);
    assert list[..0] == [] && list[0..] == list && KeysOf(list[..0]) == {};
    PagesKept(serve, list, 0, 0);
  }

  lemma {:induction false} KeyedNeverRepeats(serve: Server, list: seq<Item>, offset: nat, done: nat)
    requires Honest(serve, list) && offset <= done <= |list|
    requires forall i :: 0 <= i < |list| ==> ContractKey(list[i]).Some?
    ensures Repeats(serve, list, offset, done) == 0
    decreases |list| - offset
  {
    var end, next := HonestPageAt(serve, list, offset);
    RepeatsFrom(serve, list, offset, done, end, next);
    NoneUnkeyed(list[offset..if end < done then end else done]);
    if end < |list| {
      KeyedNeverRepeats(serve, list, next, Max(end, done));
    }
  }

  lemma {:induction false} NoneUnkeyed(items: seq<Item>)
    requires forall i :: 0 <= i < |items| ==> ContractKey(items[i]).Some?
    ensures Unkeyed(items) == 0
  {
    if items != [] { NoneUnkeyed(items[1..]); }
  }

  /** When every item has an id, overlapping pages do no harm: the export is the
      items of the list at the positions, in order, that are the first of their id. */
  lemma {:induction false} ExportsKeyedList(serve: Server, list: seq<Item>, requests: nat) returns (at: seq<nat>)
    requires Honest(serve, list) && requests > |list|
    requires forall i :: 0 <= i < |list| ==> list[i].id.Some? || list[i].contractId.Some?
    ensures FetchFrom(serve, 0, [], {}, requests) == Ok(KeepFirst(list, ContractKey, {}))
    ensures SelectsFirsts(list, ContractKey, at) && PickedAt(KeepFirst(list, ContractKey, {}), list, at)
  {
    KeyedNeverRepeats(serve, list, 0, 0);
    ExportsWholeList(serve, list, requests);
    at := KeepFirstSelects(list, ContractKey);
  }

  const ANONYMOUS: seq<Item> := [Item(None, None, "a"), Item(None, None, "b"), Item(None, None, "c")]

  /** Serves `ANONYMOUS` two items at a time, each page starting with the last
      item of the one before. */
  function Overlapping(offset: nat): Result<Page, string> {
    var start := if offset < 3 then offset else 3;
    var end := if start + 2 < 3 then start + 2 else 3;
    Ok(Page(Some(ANONYMOUS[start..end]), None, Paging(Some(end < 3), None, Some(start + 1), None),
            Paging(None, None, None, None)))
  }

  /** Items without an id that lie where pages overlap are exported twice. */
  lemma {:induction false} AnonymousTwice()
    ensures Honest(Overlapping, ANONYMOUS)
    ensures FetchFrom(Overlapping, 0, [], {}, 4) != Ok(KeepFirst(ANONYMOUS, ContractKey, {}))
  {
    forall offset: nat | offset <= 3 ensures HonestPage(Overlapping(offset).value, ANONYMOUS, offset) {
      var page := Overlapping(offset).value;
      var end := if offset + 2 < 3 then offset + 2 else 3;
      assert end < 3 ==> SaysNext(page, offset + 1);
      assert HonestUpTo(page, ANONYMOUS, offset, end);
    }
    assert Repeats(Overlapping, ANONYMOUS, 0, 0) == Unkeyed(ANONYMOUS[0..0]) + Repeats(Overlapping, ANONYMOUS, 1, 2);
    assert ANONYMOUS[1..2] == [ANONYMOUS[1]] && [ANONYMOUS[1]][1..] == [];
    assert Repeats(Overlapping, ANONYMOUS, 1, 2) == Unkeyed(ANONYMOUS[1..2]) == 1;
    ExportsWholeList(Overlapping, ANONYMOUS, 4);
  }
}
