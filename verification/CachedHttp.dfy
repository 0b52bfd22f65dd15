/** Read-through GET requests: the cache key of a request, and `cached_get`. */
module CachedHttp {
  import opened Wrappers
  import opened Sequences
  import opened Sorting
  import opened DiskCache
  import CacheRuns
  import Text

  const OK_STATUS: nat := 200

  datatype Param = Param(name: string, value: string)

  datatype Error = RequestFailed(reason: string) | UnreadableEntry(file: FileName)

  /** A response of the registry: status code and body. */
  datatype Response = Response(status: nat, body: string)

  predicate NameLe(a: Param, b: Param) {
    Text.LexLe(a.name, b.name)
  }

  function Render(p: Param): string {
    p.name + "=" + p.value
  }

  function Rendered(pairs: seq<Param>): string {
    Text.Join(Apply(Render, pairs), "&")
  }

  function HttpCacheKey(url: string, query: seq<Param>): string {
    var queryStr := Rendered(Sort(query, NameLe));
    if queryStr == "" then "GET:" + url else "GET:" + url + "?" + queryStr
  }

  lemma {:induction false} NameOrder()
    ensures TotalPreorder(NameLe)
  {
    forall a, b ensures NameLe(a, b) || NameLe(b, a) {
      Text.LexTotal(a.name, b.name);
    }
    forall a, b, c | NameLe(a, b) && NameLe(b, c) ensures NameLe(a, c) {
      Text.LexTransitive(a.name, b.name, c.name);
    }
  }

  /** It does not matter which of two parameters is written first. */
  predicate Commute(p: Param, q: Param) {
    Render(p) + "&" + Render(q) == Render(q) + "&" + Render(p)
  }

  /** Parameters of the same name may be written in either order. */
  ghost predicate TiesCommute(query: seq<Param>) {
    forall p, q :: p in query && q in query && p.name == q.name ==> Commute(p, q)
  }

  // ---- what a key tells apart ------------------------------------------------------

  lemma {:induction false} UrlOf(url: string, query: seq<Param>)
    requires '?' !in url
    ensures var rest := Rendered(Sort(query, NameLe));
      Text.SplitFirst(HttpCacheKey(url, query), '?') == if rest == "" then None else Some(("GET:" + url, rest))
  {
    var rest := Rendered(Sort(query, NameLe));
    var start := "GET:" + url;
    assert '?' !in start;
    if rest == "" {
      Text.SplitFirstParts(start, '?');
    } else {
      Text.SplitFirstBack(start, rest, '?');
      assert start + "?" + rest == start + ['?'] + rest;
    }
  }

  /** Requests to URLs without '?' have the same key if and only if the URLs are
      the same and the sorted parameters read the same. */
  lemma {:induction false} KeyTellsApart(u: string, a: seq<Param>, v: string, b: seq<Param>)
    requires '?' !in u && '?' !in v
    ensures HttpCacheKey(u, a) == HttpCacheKey(v, b)
       <==> u == v && Rendered(Sort(a, NameLe)) == Rendered(Sort(b, NameLe))
  {
    if HttpCacheKey(u, a) == HttpCacheKey(v, b) {
      UrlOf(u, a);
      UrlOf(v, b);
      var s, t := "GET:" + u, "GET:" + v;
      assert s == t;
      assert s[4..] == u && t[4..] == v;
    }
  }

  /** A URL that brings its own '?' can share the key of a request with a parameter. */
  lemma {:induction false} QueryInUrl(url: string, p: Param)
    ensures HttpCacheKey(url + "?" + Render(p), []) == HttpCacheKey(url, [p])
  {
    assert [p][1..] == [] && Sort([p], NameLe) == [p];
    RenderedFirst(p, []);
    assert [p] + [] == [p];
    assert "GET:" + (url + "?" + Render(p)) == "GET:" + url + "?" + Render(p);
  }

  /** How the parameters of a request read: one alone, and one before others. */
  lemma {:induction false} ReadsAs(p: Param, q: Param)
    requires !NameLe(q, p)
    ensures Rendered(Sort([], NameLe)) == ""
    ensures Rendered(Sort([p], NameLe)) == p.name + "=" + p.value
    ensures Rendered(Sort([q, p], NameLe)) == p.name + "=" + p.value + "&" + q.name + "=" + q.value
  {
    assert [p][1..] == [] && Sort([p], NameLe) == [p] && [p] + [] == [p] && [q] + [] == [q];
    RenderedFirst(p, []);
    RenderedFirst(q, []);
    assert [q, p][1..] == [p];
    assert Sort([q, p], NameLe) == Insert(q, [p], NameLe) == [p] + Insert(q, [], NameLe) == [p] + [q];
    RenderedFirst(p, [q]);
  }

  // ---- parameters whose order does not matter --------------------------------------

  lemma {:induction false} RenderedFirst(p: Param, rest: seq<Param>)
    ensures Rendered([p] + rest) == if rest == [] then Render(p) else Render(p) + "&" + Rendered(rest)
  {
    assert Apply(Render, [p] + rest) == [Render(p)] + Apply(Render, rest);
    assert ([Render(p)] + Apply(Render, rest))[1..] == Apply(Render, rest);
  }

  lemma {:induction false} RenderedTwo(p: Param, q: Param, rest: seq<Param>)
    ensures Rendered([p, q] + rest)
         == Render(p) + "&" + Render(q) + if rest == [] then "" else "&" + Rendered(rest)
  {
    assert [p, q] + rest == [p] + ([q] + rest);
    RenderedFirst(p, [q] + rest);
    RenderedFirst(q, rest);
    if rest == [] {
      assert Render(p) + "&" + Render(q) + "" == Render(p) + "&" + Render(q);
    } else {
      assert Render(p) + "&" + (Render(q) + "&" + Rendered(rest)) == Render(p) + "&" + Render(q) + ("&" + Rendered(rest));
    }
  }

  /** A parameter moves to the front past parameters it commutes with. */
  lemma {:induction false} MoveToFront(before: seq<Param>, p: Param, after: seq<Param>)
    requires forall q :: q in before ==> Commute(p, q)
    ensures Rendered(before + [p] + after) == Rendered([p] + before + after)
  {
    if before == [] {
      assert [] + [p] + after == [p] + [] + after;
    } else {
      var q, rest := before[0], before[1..] + after;
      assert before == [q] + before[1..] && q in before;
      assert before + [p] + after == [q] + (before[1..] + [p] + after);
      assert [p] + before + after == [p, q] + rest;
      assert [q] + ([p] + before[1..] + after) == [q, p] + rest;
      MoveToFront(before[1..], p, after);
      RenderedFirst(q, before[1..] + [p] + after);
      RenderedFirst(q, [p] + before[1..] + after);
      RenderedTwo(p, q, rest);
      RenderedTwo(q, p, rest);
    }
  }

  lemma {:induction false} FirstAmongTies(a: seq<Param>, b: seq<Param>, k: nat)
    requires a != [] && k < |b| && b[k] == a[0] && IsPermutation(a, b)
    requires SortedBy(a, NameLe) && SortedBy(b, NameLe) && TiesCommute(a)
    ensures forall q :: q in b[..k] ==> Commute(a[0], q)
  {
    forall q | q in b[..k] ensures Commute(a[0], q) {
      var j :| 0 <= j < k && b[j] == q;
      assert NameLe(b[j], b[k]);
      assert q in multiset(b) && q in multiset(a);
      var i :| 0 <= i < |a| && a[i] == q;
      Text.LexTotal(q.name, q.name);
      assert NameLe(a[0], a[i]);
      Text.LexAntisymmetric(a[0].name, q.name);
    }
  }

  lemma {:induction false} WithoutStaysSorted(b: seq<Param>, k: nat)
    requires k < |b| && SortedBy(b, NameLe)
    ensures SortedBy(b[..k] + b[k + 1..], NameLe)
  {
  }

  lemma {:induction false} PulledRendered(a: seq<Param>, b: seq<Param>, k: nat)
    requires a != [] && k < |b| && b[k] == a[0] && IsPermutation(a, b)
    requires SortedBy(a, NameLe) && SortedBy(b, NameLe) && TiesCommute(a)
    ensures Rendered(b) == Rendered([a[0]] + (b[..k] + b[k + 1..]))
  {
    FirstAmongTies(a, b, k);
    MoveToFront(b[..k], a[0], b[k + 1..]);
    assert b == b[..k] + [a[0]] + b[k + 1..];
    assert [a[0]] + b[..k] + b[k + 1..] == [a[0]] + (b[..k] + b[k + 1..]);
  }

  /** Two sorted arrangements of the same parameters read the same. */
  lemma {:induction false} SortedRendered(a: seq<Param>, b: seq<Param>)
    requires SortedBy(a, NameLe) && SortedBy(b, NameLe) && IsPermutation(a, b) && TiesCommute(a)
    ensures Rendered(a) == Rendered(b)
    decreases |a|
  {
    PermutationLength(a, b);
    if a != [] {
      var k := PullToFront(a, b);
      var rest := b[..k] + b[k + 1..];
      PulledRendered(a, b, k);
      WithoutStaysSorted(b, k);
      SortedRendered(a[1..], rest);
      assert a == [a[0]] + a[1..];
      RenderedFirst(a[0], a[1..]);
      RenderedFirst(a[0], rest);
    }
  }

  lemma {:induction false} TiesCommutePermuted(a: seq<Param>, b: seq<Param>)
    requires TiesCommute(a) && IsPermutation(a, b)
    ensures TiesCommute(b)
  {
    forall p, q | p in b && q in b && p.name == q.name ensures Commute(p, q) {
      assert p in multiset(b) && q in multiset(b);
      assert p in multiset(a) && q in multiset(a);
    }
  }

  lemma {:induction false} SameKey(url: string, query: seq<Param>, reordered: seq<Param>)
    requires IsPermutation(query, reordered) && TiesCommute(query)
    ensures HttpCacheKey(url, query) == HttpCacheKey(url, reordered)
  {
    NameOrder();
    SortSorts(query, NameLe);
    SortSorts(reordered, NameLe);
    SortPermutes(query, NameLe);
    SortPermutes(reordered, NameLe);
    TiesCommutePermuted(query, Sort(query, NameLe));
    SortedRendered(Sort(query, NameLe), Sort(reordered, NameLe));
  }

  // ---- parameters whose order does matter -------------------------------------------

  /** Inserting two parameters of one name puts them side by side, in the order
      in which they came. */
  lemma {:induction false} InsertTies(p: Param, q: Param, s: seq<Param>) returns (before: seq<Param>, after: seq<Param>)
    requires p.name == q.name
    ensures Insert(p, Insert(q, s, NameLe), NameLe) == before + [p, q] + after
    ensures Insert(q, Insert(p, s, NameLe), NameLe) == before + [q, p] + after
  {
    Text.LexTotal(p.name, q.name);
    if s == [] || NameLe(q, s[0]) {
      before, after := [], s;
      assert [p] + ([q] + s) == [] + [p, q] + s && [q] + ([p] + s) == [] + [q, p] + s;
      assert ([q] + s)[0] == q && ([p] + s)[0] == p;
    } else {
      before, after := InsertTies(p, q, s[1..]);
      InsertLater(p, q, s);
      InsertLater(q, p, s);
      before := [s[0]] + before;
      assert [s[0]] + (before[1..] + [p, q] + after) == before + [p, q] + after;
      assert [s[0]] + (before[1..] + [q, p] + after) == before + [q, p] + after;
    }
  }

  lemma {:induction false} InsertLater(p: Param, q: Param, s: seq<Param>)
    requires p.name == q.name && s != [] && !NameLe(q, s[0])
    ensures Insert(p, Insert(q, s, NameLe), NameLe) == [s[0]] + Insert(p, Insert(q, s[1..], NameLe), NameLe)
  {
    var once := Insert(q, s, NameLe);
    assert once == [s[0]] + Insert(q, s[1..], NameLe);
    assert once[0] == s[0] && once[1..] == Insert(q, s[1..], NameLe);
  }

  lemma {:induction false} CancelFront(prefix: string, s: string, t: string)
    requires prefix + s == prefix + t
    ensures s == t
  {
    assert s == (prefix + s)[|prefix|..] && t == (prefix + t)[|prefix|..];
  }

  lemma {:induction false} CancelBack(s: string, t: string, suffix: string)
    requires s + suffix == t + suffix
    ensures s == t
  {
    assert |s| == |t|;
    assert s == (s + suffix)[..|s|] && t == (t + suffix)[..|t|];
  }

  /** Parameters that read the same in both orders somewhere always do. */
  lemma {:induction false} CommuteInContext(before: seq<Param>, p: Param, q: Param, after: seq<Param>)
    requires Rendered(before + [p, q] + after) == Rendered(before + [q, p] + after)
    ensures Commute(p, q)
  {
    if before == [] {
      assert [] + [p, q] + after == [p, q] + after && [] + [q, p] + after == [q, p] + after;
      RenderedTwo(p, q, after);
      RenderedTwo(q, p, after);
      CancelBack(Render(p) + "&" + Render(q), Render(q) + "&" + Render(p), if after == [] then "" else "&" + Rendered(after));
    } else {
      var first, rest := before[0], before[1..];
      assert before + [p, q] + after == [first] + (rest + [p, q] + after);
      assert before + [q, p] + after == [first] + (rest + [q, p] + after);
      RenderedFirst(first, rest + [p, q] + after);
      RenderedFirst(first, rest + [q, p] + after);
      CancelFront(Render(first) + "&", Rendered(rest + [p, q] + after), Rendered(rest + [q, p] + after));
      CommuteInContext(rest, p, q, after);
    }
  }

  lemma {:induction false} KeyShowsQuery(url: string, a: seq<Param>, b: seq<Param>)
    requires a != [] && b != [] && HttpCacheKey(url, a) == HttpCacheKey(url, b)
    ensures Rendered(Sort(a, NameLe)) == Rendered(Sort(b, NameLe))
  {
    NonEmptyRendered(a);
    NonEmptyRendered(b);
    CancelFront("GET:" + url + "?", Rendered(Sort(a, NameLe)), Rendered(Sort(b, NameLe)));
  }

  lemma {:induction false} NonEmptyRendered(a: seq<Param>)
    requires a != []
    ensures Rendered(Sort(a, NameLe)) != ""
  {
    SortPermutes(a, NameLe);
    var s := Sort(a, NameLe);
    assert |s| == |multiset(s)| == |multiset(a)| == |a|;
    assert s == [s[0]] + s[1..];
    RenderedFirst(s[0], s[1..]);
  }

  /** Two parameters of one name that do not commute, at the front of a query in
      either order, give different keys. */
  lemma {:induction false} FrontMatters(url: string, p: Param, q: Param, rest: seq<Param>)
    requires p.name == q.name && !Commute(p, q)
    ensures HttpCacheKey(url, [p, q] + rest) != HttpCacheKey(url, [q, p] + rest)
  {
    if HttpCacheKey(url, [p, q] + rest) == HttpCacheKey(url, [q, p] + rest) {
      KeyShowsQuery(url, [p, q] + rest, [q, p] + rest);
      SortFront(p, q, rest);
      SortFront(q, p, rest);
      var before, after := InsertTies(p, q, Sort(rest, NameLe));
      CommuteInContext(before, p, q, after);
    }
  }

  lemma {:induction false} SortFront(p: Param, q: Param, rest: seq<Param>)
    ensures Sort([p, q] + rest, NameLe) == Insert(p, Insert(q, Sort(rest, NameLe), NameLe), NameLe)
  {
    assert ([p, q] + rest)[1..] == [q] + rest && ([q] + rest)[1..] == rest;
    assert Sort([q] + rest, NameLe) == Insert(q, Sort(rest, NameLe), NameLe);
  }

  lemma {:induction false} BringOne(query: seq<Param>, p: Param) returns (rest: seq<Param>)
    requires p in query
    ensures multiset(query) == multiset{p} + multiset(rest)
  {
    var i :| 0 <= i < |query| && query[i] == p;
    rest := query[..i] + query[i + 1..];
    assert query == query[..i] + [p] + query[i + 1..];
  }

  /** Two parameters of a query can both be brought to the front, in either order. */
  lemma {:induction false} BringForward(query: seq<Param>, p: Param, q: Param) returns (rest: seq<Param>)
    requires p in query && q in query && p != q
    ensures IsPermutation(query, [p, q] + rest) && IsPermutation(query, [q, p] + rest)
  {
    var others := BringOne(query, p);
    assert q in multiset(query) && q in multiset(others);
    rest := BringOne(others, q);
  }

  // ---- exactly when the order does not matter ----------------------------------------

  ghost predicate OneKeyForAllOrders(url: string, query: seq<Param>) {
    forall reordered :: IsPermutation(query, reordered) ==> HttpCacheKey(url, reordered) == HttpCacheKey(url, query)
  }

  lemma {:induction false} TwoKeys(url: string, query: seq<Param>) returns (a: seq<Param>, b: seq<Param>)
    requires !TiesCommute(query)
    ensures IsPermutation(query, a) && IsPermutation(query, b)
    ensures HttpCacheKey(url, a) != HttpCacheKey(url, b)
  {
    var p, q :| p in query && q in query && p.name == q.name && !Commute(p, q);
    var rest := BringForward(query, p, q);
    FrontMatters(url, p, q, rest);
    a, b := [p, q] + rest, [q, p] + rest;
  }

  /** All orders of the parameters have the same key if and only if parameters
      of the same name read the same in either order. */
  lemma {:induction false} KeyIgnoresOrder(url: string, query: seq<Param>)
    ensures OneKeyForAllOrders(url, query) <==> TiesCommute(query)
  {
    if TiesCommute(query) {
      forall reordered | IsPermutation(query, reordered)
        ensures HttpCacheKey(url, reordered) == HttpCacheKey(url, query)
      {
        SameKey(url, query, reordered);
      }
    } else {
      var a, b := TwoKeys(url, query);
      assert HttpCacheKey(url, a) != HttpCacheKey(url, query) || HttpCacheKey(url, b) != HttpCacheKey(url, query);
    }
  }

  /** No name is given two different values. */
  ghost predicate OneValuePerName(query: seq<Param>) {
    forall p, q :: p in query && q in query && p.name == q.name ==> p == q
  }

  /** Which covers queries with distinct names.  A name with two values of equal
      length does make the order matter. */
  lemma {:induction false} RepeatedNameKeepsOrder(query: seq<Param>)
    ensures OneValuePerName(query) ==> TiesCommute(query)
    ensures forall p, q :: p in query && q in query && p.name == q.name && |p.value| == |q.value| && p != q ==>
      !TiesCommute(query)
  {
    forall p, q | p in query && q in query && p.name == q.name && |p.value| == |q.value| && p != q
      ensures !Commute(p, q)
    {
      DifferentValues(p, q);
    }
  }

  lemma {:induction false} DifferentValues(p: Param, q: Param)
    requires p.name == q.name && |p.value| == |q.value| && p != q
    ensures !Commute(p, q)
  {
    if Commute(p, q) {
      var s, t := Render(p) + "&" + Render(q), Render(q) + "&" + Render(p);
      assert Render(p) == s[..|Render(p)|] && Render(q) == t[..|Render(q)|];
      CancelFront(p.name + "=", p.value, q.value);
    }
  }

  /** Values of different length may not: here either order reads "a=1&a=1&a=1". */
  lemma {:induction false} RepeatedNameHarmless()
    ensures var p, q := Param("a", "1"), Param("a", "1&a=1");
      !OneValuePerName([p, q]) && TiesCommute([p, q])
  {
    var p, q := Param("a", "1"), Param("a", "1&a=1");
    assert [p, q][0] == p && [p, q][1] == q;
    assert Render(p) == "a=1" && Render(q) == "a=1&a=1";
    assert Commute(p, q);
  }

  /** One call: what it was asked, what the registry would answer, which cache
      entries could not be read, and what it did to the cache and returned. */
  datatype Call = Call(
    url: string, query: seq<Param>, noCache: bool, ttl: nat, max: nat, reply: Result<Response, string>, broken: set<FileName>,
    ops: seq<Op>, result: Result<Response, Error>)
  {
    function Key(): string {
      HttpCacheKey(url, query)
    }
  }

  function Relayed(reply: Result<Response, string>): Result<Response, Error> {
    match reply
    case Ok(response) => Ok(response)
    case Err(reason) => Err(RequestFailed(reason))
  }

  predicate IsSuccess(reply: Result<Response, string>) {
    reply.Ok? && 200 <= reply.value.status < 300
  }

  /** What a `cached_get` does to the cache and returns; `ops` are its cache
      operations in order. */
  ghost predicate Fetched(files: Directory, after: Directory, c: Call) {
    if c.noCache then
      c.ops == [] && after == files && c.result == Relayed(c.reply)
    else
      && |c.ops| >= 1 && c.ops[0].Get? && c.ops[0].key == c.Key()
      && var hit := Served(files, c.Key(), c.ops[0].now);
         var looked := Step(files, c.ops[0]);
         if KeyToFilename(c.Key()) in c.broken then
           |c.ops| == 1 && after == looked && c.result == Err(UnreadableEntry(KeyToFilename(c.Key())))
         else if hit.Some? then
           |c.ops| == 1 && after == looked && c.result == Ok(Response(OK_STATUS, hit.value.body))
         else if IsSuccess(c.reply) then
           && |c.ops| == 2 && c.ops[1].Set? && c.ops[1].key == c.Key() && c.ops[1].body == c.reply.value.body
           && c.ops[1].ttl == c.ttl && c.ops[1].max == c.max
           && Legal(looked, c.ops[1]) && after == Step(looked, c.ops[1]) && c.result == Relayed(c.reply)
         else
           |c.ops| == 1 && after == looked && c.result == Relayed(c.reply)
  }

  method CachedGet(cache: Cache, noCache: bool, ttl: nat, max: nat, url: string, query: seq<Param>,
                   reply: Result<Response, string>) returns (result: Result<Response, Error>, ghost ops: seq<Op>)
    requires cache.Valid()
    modifies cache
    ensures cache.Valid()
    ensures Fetched(old(cache.files), cache.files,
                    Call(url, query, noCache, ttl, max, reply, old(cache.broken), ops, result))
    ensures noCache ==> cache.files == old(cache.files)
    ensures noCache && reply.Ok? ==> result == Ok(reply.value)
    ensures result.Ok? ==>
      || (reply.Ok? && result.value == reply.value)
      || (!noCache && result.value.status == 200 && KeyToFilename(HttpCacheKey(url, query)) in old(cache.files)
          && old(cache.files)[KeyToFilename(HttpCacheKey(url, query))].body == result.value.body)
    ensures !noCache && reply.Ok? && 200 <= reply.value.status < 300 && result.Ok? ==>
      var n := KeyToFilename(HttpCacheKey(url, query));
      n in cache.files && cache.files[n].body == result.value.body
    ensures result.Err? ==> reply.Err? || (!noCache && KeyToFilename(HttpCacheKey(url, query)) in old(cache.broken))
  {
    var key := HttpCacheKey(url, query);
    ops := [];
    if !noCache {
      ghost var op;
      var entry;
      entry, op := cache.GetHttpEntry(key);
      ops := [op];
      if entry.Err? {
        return Err(UnreadableEntry(entry.error)), ops;
      }
      if entry.value.Some? {
        return Ok(Response(OK_STATUS, entry.value.value.body)), ops;
      }
    }
    if reply.Err? {
      return Err(RequestFailed(reply.error)), ops;
    }
    if !noCache && 200 <= reply.value.status < 300 {
      ghost var op := cache.SetHttpEntry(key, reply.value.body, ttl, max);
      ops := ops + [op];
    }
    result := Ok(reply.value);
  }

  lemma {:induction false} LastIsStored(before: seq<Op>, stored: Op, between: seq<Op>, i: nat)
    requires stored.Set? && CacheRuns.LastWrite(before + [stored] + between, KeyToFilename(stored.key), i)
    requires forall j :: 0 <= j < |between| ==> !CacheRuns.Writes(between[j], KeyToFilename(stored.key))
    ensures i == |before| && (before + [stored] + between)[i] == stored
  {
    var run := before + [stored] + between;
    assert run[|before|] == stored && CacheRuns.Writes(run[|before|], KeyToFilename(stored.key));
    forall j | |before| < j < |run| ensures !CacheRuns.Writes(run[j], KeyToFilename(stored.key)) {
      assert run[j] == between[j - |before| - 1];
    }
  }

  /** A request repeated with its parameters in another order is served the body
      that the first one stored, as long as nothing else was written under that
      file name and the file is still there and not stale. */
  lemma {:induction false} ServedAfterReorder(before: seq<Op>, stored: Op, between: seq<Op>, url: string,
                                              query: seq<Param>, reordered: seq<Param>, now: nat)
    requires IsPermutation(query, reordered) && TiesCommute(query)
    requires stored.Set? && stored.key == HttpCacheKey(url, query)
    requires CacheRuns.Exec(before + [stored] + between).Some?
    requires forall i :: 0 <= i < |between| ==> !CacheRuns.Writes(between[i], KeyToFilename(stored.key))
    requires var files := CacheRuns.Exec(before + [stored] + between).value;
      KeyToFilename(stored.key) in files && !IsStale(files[KeyToFilename(stored.key)], now)
    ensures var hit := Served(CacheRuns.Exec(before + [stored] + between).value, HttpCacheKey(url, reordered), now);
      hit.Some? && hit.value.body == stored.body
  {
    SameKey(url, query, reordered);
    var run := before + [stored] + between;
    var i := CacheRuns.HitIsLastWritten(run, stored.key, now);
    LastIsStored(before, stored, between, i);
  }

  // ---- whole sessions ------------------------------------------------------------------

  /** A call, or another cache command, and the directory after it.  A file that
      stops being readable counts as cleared. */
  datatype Event =
    | Fetch(call: Call, after: Directory)
    | Manage(op: Op, after: Directory)

  function Ops(e: Event): seq<Op> {
    if e.Fetch? then e.call.ops else [e.op]
  }

  function AllOps(events: seq<Event>): seq<Op> {
    if events == [] then [] else AllOps(events[..|events| - 1]) + Ops(events[|events| - 1])
  }

  ghost function DirAfter(events: seq<Event>): Directory {
    if events == [] then map[] else events[|events| - 1].after
  }

  ghost predicate Happens(before: Directory, e: Event) {
    match e
    case Fetch(call, after) => Fetched(before, after, call)
    case Manage(op, after) => !op.Set? && Legal(before, op) && after == Step(before, op)
  }

  /** A run from an empty cache in which only calls write to it. */
  ghost predicate Session(events: seq<Event>) {
    events == [] ||
    (Session(events[..|events| - 1]) && Happens(DirAfter(events[..|events| - 1]), events[|events| - 1]))
  }

  lemma {:induction false} ExecEvent(ops: seq<Op>, e: Event)
    requires CacheRuns.Exec(ops).Some? && Happens(CacheRuns.Exec(ops).value, e)
    ensures CacheRuns.Exec(ops + Ops(e)) == Some(e.after)
  {
    var files := CacheRuns.Exec(ops).value;
    if Ops(e) == [] {
      assert ops + [] == ops;
    } else if |Ops(e)| == 1 {
      assert Ops(e) == [Ops(e)[0]];
      CacheRuns.ExecSnoc(ops, Ops(e)[0]);
    } else {
      var get, set_ := e.call.ops[0], e.call.ops[1];
      assert ops + Ops(e) == ops + [get] + [set_];
      CacheRuns.ExecSnoc(ops, get);
      CacheRuns.ExecSnoc(ops + [get], set_);
    }
  }

  lemma {:induction false} SessionRuns(events: seq<Event>)
    requires Session(events)
    ensures CacheRuns.Exec(AllOps(events)) == Some(DirAfter(events))
  {
    if events != [] {
      SessionRuns(events[..|events| - 1]);
      ExecEvent(AllOps(events[..|events| - 1]), events[|events| - 1]);
    }
  }

  /** The event stores a response under a file name. */
  predicate Stores(e: Event, n: FileName) {
    e.Fetch? && |e.call.ops| == 2 && KeyToFilename(e.call.Key()) == n
  }

  /** The last event that did. */
  ghost predicate LastStore(events: seq<Event>, n: FileName, j: nat) {
    j < |events| && Stores(events[j], n) && forall l :: j < l < |events| ==> !Stores(events[l], n)
  }

  /** An entry holds what an event got from the registry and stored. */
  ghost predicate StoredBy(entry: CacheEntry, e: Event) {
    && e.Fetch? && !e.call.noCache && |e.call.ops| == 2 && IsSuccess(e.call.reply)
    && entry.body == e.call.reply.value.body && entry.ttlSeconds == e.call.ttl
    && e.call.ops[1].Set? && entry.createdAt == e.call.ops[1].now
  }

  lemma {:induction false} LatestSnoc(ops: seq<Op>, op: Op, n: FileName)
    ensures CacheRuns.Latest(ops + [op], n)
         == if CacheRuns.Writes(op, n) then Some(NewEntry(op.key, op.body, op.now, op.ttl))
            else if CacheRuns.Reads(op, n) && CacheRuns.Latest(ops, n).Some? then Some(Touched(CacheRuns.Latest(ops, n).value))
            else CacheRuns.Latest(ops, n)
  {
    assert (ops + [op])[..|ops|] == ops;
  }

  lemma {:induction false} LatestNotStored(ops: seq<Op>, e: Event, before: Directory, n: FileName)
    requires Happens(before, e) && !Stores(e, n)
    ensures var earlier, later := CacheRuns.Latest(ops, n), CacheRuns.Latest(ops + Ops(e), n);
      && later.Some? == earlier.Some?
      && (later.Some? ==> later.value.(hits := 0) == earlier.value.(hits := 0))
  {
    if Ops(e) == [] {
      assert ops + [] == ops;
    } else if |Ops(e)| == 1 {
      assert Ops(e) == [Ops(e)[0]];
      LatestSnoc(ops, Ops(e)[0], n);
    } else {
      var get, set_ := e.call.ops[0], e.call.ops[1];
      assert ops + Ops(e) == ops + [get] + [set_];
      LatestSnoc(ops, get, n);
      LatestSnoc(ops + [get], set_, n);
    }
  }

  lemma {:induction false} LatestStored(ops: seq<Op>, e: Event, before: Directory, n: FileName)
    requires Happens(before, e) && Stores(e, n)
    ensures CacheRuns.Latest(ops + Ops(e), n).Some? && StoredBy(CacheRuns.Latest(ops + Ops(e), n).value, e)
  {
    var get, set_ := e.call.ops[0], e.call.ops[1];
    assert ops + Ops(e) == ops + [get] + [set_];
    LatestSnoc(ops + [get], set_, n);
  }

  lemma {:induction false} StillLast(front: seq<Event>, e: Event, n: FileName, j: nat)
    requires LastStore(front, n, j) && !Stores(e, n)
    ensures LastStore(front + [e], n, j)
  {
  }

  /** What a never-forgetting cache holds comes from the last event that stored it. */
  lemma {:induction false} LatestFromRegistry(events: seq<Event>, n: FileName) returns (j: nat)
    requires Session(events) && CacheRuns.Latest(AllOps(events), n).Some?
    ensures LastStore(events, n, j) && StoredBy(CacheRuns.Latest(AllOps(events), n).value, events[j])
  {
    var front, e := events[..|events| - 1], events[|events| - 1];
    assert events == front + [e];
    var earlier := AllOps(front);
    assert AllOps(events) == earlier + Ops(e);
    if Stores(e, n) {
      j := |events| - 1;
      LatestStored(earlier, e, DirAfter(front), n);
    } else {
      LatestNotStored(earlier, e, DirAfter(front), n);
      j := LatestFromRegistry(front, n);
      StillLast(front, e, n, j);
      assert events[j] == front[j];
    }
  }

  /** A call is answered from the cache. */
  ghost predicate FromCache(files: Directory, c: Call) {
    && !c.noCache && KeyToFilename(c.Key()) !in c.broken
    && |c.ops| >= 1 && c.ops[0].Get? && Served(files, c.Key(), c.ops[0].now).Some?
  }

  /** Whatever else happened in between: a body served from the cache is the one
      that the registry last gave for the same file name, in a success less than
      its time-to-live ago. */
  lemma {:induction false} ServedFromRegistry(events: seq<Event>, c: Call, after: Directory) returns (j: nat)
    requires Session(events) && Fetched(DirAfter(events), after, c) && FromCache(DirAfter(events), c)
    ensures LastStore(events, KeyToFilename(c.Key()), j)
    ensures var source := events[j].call;
      && !source.noCache && source.reply.Ok? && 200 <= source.reply.value.status < 300 && c.result == Ok(Response(OK_STATUS, source.reply.value.body))
      && source.ops[1].Set? && (source.ttl > 0 && c.ops[0].now < source.ops[1].now + source.ttl)
  {
    SessionRuns(events);
    CacheRuns.Refines(AllOps(events));
    j := LatestFromRegistry(events, KeyToFilename(c.Key()));
  }

  /** No call of the run stored, under the file name of a call, for another key. */
  ghost predicate FileNotShared(events: seq<Event>, c: Call) {
    forall i :: 0 <= i < |events| && Stores(events[i], KeyToFilename(c.Key())) ==> events[i].call.Key() == c.Key()
  }

  /** While no request with another key shares the file name, a body served from
      the cache came from the same URL and the same parameters. */
  lemma {:induction false} ServedToSameRequest(events: seq<Event>, c: Call, after: Directory) returns (j: nat)
    requires Session(events) && Fetched(DirAfter(events), after, c) && FromCache(DirAfter(events), c)
    requires FileNotShared(events, c)
    requires '?' !in c.url && forall i :: 0 <= i < |events| && events[i].Fetch? ==> '?' !in events[i].call.url
    ensures j < |events| && events[j].Fetch?
    ensures var source := events[j].call;
      && source.url == c.url && Rendered(Sort(source.query, NameLe)) == Rendered(Sort(c.query, NameLe))
      && source.reply.Ok? && 200 <= source.reply.value.status < 300
      && c.result == Ok(Response(200, source.reply.value.body))
  {
    j := ServedFromRegistry(events, c, after);
    var source := events[j].call;
    KeyTellsApart(source.url, source.query, c.url, c.query);
  }
}
