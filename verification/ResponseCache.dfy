/**
  The response cache (internal/middleware/cache.go): which responses are stored, the LRU list with
  its index by key and its Vary hints by base key, and what a request may be served from it. Parsing
  of the Cache-Control header is not part of this model; times are integers of one unit.
*/
module ResponseCache {
  import opened CacheKeys
  import opened Options

  datatype CacheControl = CacheControl(noStore: bool, noCache: bool, isPrivate: bool, isPublic: bool,
                                       maxAgeSet: bool, maxAge: int, swr: nat)

  datatype Entry = Entry(key: string, baseKey: string, body: string, storedAt: int, ttl: int, swr: nat,
                         varyNames: seq<string>, isPublic: bool)

  /** A response as the capturing writer saw it; `shared` when its Cache-Control mentions s-maxage. */
  datatype Capture = Capture(hijacked: bool, streamed: bool, overflow: bool, status: int, control: CacheControl,
                             shared: bool, setCookie: string, vary: seq<string>, body: string)

  const SECOND := 1_000_000_000

  predicate Authed(r: Request) { Get(r, "Authorization") != "" }

  predicate ExplicitlyPublic(w: Capture) { w.control.isPublic || (w.control.maxAgeSet && w.shared) }

  function EntryFromCapture(defaultTtl: int, r: Request, w: Capture, now: int): Option<Entry> {
    if w.hijacked || w.streamed || w.overflow || w.status != 200 then None
    else if w.control.noStore || w.control.isPrivate || w.control.noCache || w.setCookie != "" then None
    else if Authed(r) && !ExplicitlyPublic(w) then None
    else if "*" in w.vary || (w.control.maxAgeSet && w.control.maxAge <= 0) then None
    else
      var ttl := if w.control.maxAgeSet then w.control.maxAge * SECOND else defaultTtl;
      Some(Entry(BaseKey(r) + VaryKey(w.vary, r), BaseKey(r), w.body, now, ttl, w.control.swr * SECOND,
                 w.vary, ExplicitlyPublic(w)))
  }

  // ----- The list and its hints --------------------------------------------------------------

  /** Most recently used first. */
  datatype Contents = Contents(lru: seq<Entry>, hints: map<string, seq<string>>)

  function Hint(hints: map<string, seq<string>>, base: string): seq<string> {
    if base in hints then hints[base] else []
  }

  /** Every entry but those under a key. */
  function Without(l: seq<Entry>, key: string): seq<Entry> {
    if l == [] then []
    else if l[0].key == key then Without(l[1..], key)
    else [l[0]] + Without(l[1..], key)
  }

  /** Every entry but the variants of a base key. */
  function WithoutBase(l: seq<Entry>, base: string): seq<Entry> {
    if l == [] then []
    else if l[0].baseKey == base then WithoutBase(l[1..], base)
    else [l[0]] + WithoutBase(l[1..], base)
  }

  lemma {:induction false} WithoutMembers(l: seq<Entry>, key: string)
    ensures forall e :: e in Without(l, key) <==> e in l && e.key != key
    ensures |Without(l, key)| <= |l|
  {
    if l != [] {
      WithoutMembers(l[1..], key);
      assert forall e :: e in l <==> e == l[0] || e in l[1..];
    }
  }

  lemma {:induction false} WithoutBaseMembers(l: seq<Entry>, base: string)
    ensures forall e :: e in WithoutBase(l, base) <==> e in l && e.baseKey != base
    ensures |WithoutBase(l, base)| <= |l|
  {
    if l != [] {
      WithoutBaseMembers(l[1..], base);
      assert forall e :: e in l <==> e == l[0] || e in l[1..];
    }
  }

  ghost predicate DistinctKeys(l: seq<Entry>) {
    forall i, j :: 0 <= i < j < |l| ==> l[i].key != l[j].key
  }

  lemma OneMore(e: Entry, l: seq<Entry>)
    requires DistinctKeys(l) && forall x :: x in l ==> x.key != e.key
    ensures DistinctKeys([e] + l)
  {
    assert forall i :: 0 <= i < |l| ==> l[i] in l;
  }

  lemma {:induction false} WithoutDistinct(l: seq<Entry>, key: string)
    requires DistinctKeys(l)
    ensures DistinctKeys(Without(l, key))
  {
    if l != [] {
      WithoutDistinct(l[1..], key);
      WithoutMembers(l[1..], key);
      OneMore(l[0], Without(l[1..], key));
    }
  }

  lemma {:induction false} WithoutBaseDistinct(l: seq<Entry>, base: string)
    requires DistinctKeys(l)
    ensures DistinctKeys(WithoutBase(l, base))
  {
    if l != [] {
      WithoutBaseDistinct(l[1..], base);
      WithoutBaseMembers(l[1..], base);
      OneMore(l[0], WithoutBase(l[1..], base));
    }
  }

  lemma OnlyOne(l: seq<Entry>, e: Entry)
    requires DistinctKeys(l) && e in l
    ensures forall x :: x in l && x.key == e.key ==> x == e
  {
  }

  lemma {:induction false} WithoutShrinks(l: seq<Entry>, e: Entry)
    requires e in l
    ensures |Without(l, e.key)| < |l|
  {
    WithoutMembers(l[1..], e.key);
    if l[0].key != e.key { WithoutShrinks(l[1..], e); }
  }

  /** The request's key under the recorded hint. */
  function LookupKey(c: Contents, r: Request): string { BaseKey(r) + VaryKey(Hint(c.hints, BaseKey(r)), r) }

  function Find(l: seq<Entry>, key: string, n: nat): (r: Option<Entry>)
    requires n <= |l|
    ensures r.Some? ==> r.value in l && r.value.key == key
    ensures r.None? ==> forall i :: 0 <= i < n ==> l[i].key != key
  {
    if n == 0 then None else if l[n - 1].key == key then Some(l[n - 1]) else Find(l, key, n - 1)
  }

  function Found(c: Contents, r: Request): Option<Entry> { Find(c.lru, LookupKey(c, r), |c.lru|) }

  /** The entry found moves to the front. */
  function Touched(c: Contents, r: Request): Contents {
    match Found(c, r)
    case None => c
    case Some(e) => c.(lru := [e] + Without(c.lru, e.key))
  }

  /** A changed Vary list replaces the hint and drops all variants stored under the old one. */
  function Rehinted(c: Contents, base: string, names: seq<string>): Contents {
    if Hint(c.hints, base) == names then c
    else Contents(WithoutBase(c.lru, base),
                  if names != [] then c.hints[base := names] else c.hints - {base})
  }

  function Clipped(l: seq<Entry>, max: nat): seq<Entry> { if |l| > max then l[..max] else l }

  /** The new entry stands in front, and the least recently used go once there are too many. */
  function Stored(max: nat, c: Contents, e: Entry): Contents {
    var d := Rehinted(c, e.baseKey, e.varyNames);
    d.(lru := Clipped([e] + Without(d.lru, e.key), max))
  }

  ghost predicate Hinted(l: seq<Entry>, hints: map<string, seq<string>>) {
    forall e :: e in l ==> e.varyNames == Hint(hints, e.baseKey)
  }

  ghost predicate Inv(max: nat, c: Contents) {
    |c.lru| <= max && DistinctKeys(c.lru) && Hinted(c.lru, c.hints)
  }

  lemma InFront(l: seq<Entry>, e: Entry, max: nat)
    requires DistinctKeys(l)
    ensures DistinctKeys(Clipped([e] + Without(l, e.key), max))
    ensures forall x :: x in Clipped([e] + Without(l, e.key), max) ==> x == e || x in l
  {
    WithoutDistinct(l, e.key);
    WithoutMembers(l, e.key);
    OneMore(e, Without(l, e.key));
  }

  lemma TouchedKeepsInv(max: nat, c: Contents, r: Request)
    requires Inv(max, c)
    ensures Inv(max, Touched(c, r)) && forall e :: e in Touched(c, r).lru <==> e in c.lru
  {
    var f := Found(c, r);
    if f.Some? {
      InFront(c.lru, f.value, |c.lru| + 1);
      WithoutShrinks(c.lru, f.value);
      WithoutMembers(c.lru, f.value.key);
      OnlyOne(c.lru, f.value);
      assert Clipped([f.value] + Without(c.lru, f.value.key), |c.lru| + 1) == Touched(c, r).lru;
    }
  }

  lemma RehintedKeepsInv(max: nat, c: Contents, base: string, names: seq<string>)
    requires Inv(max, c)
    ensures var d := Rehinted(c, base, names);
            Inv(max, d) && Hint(d.hints, base) == names && forall e :: e in d.lru ==> e in c.lru
  {
    if Hint(c.hints, base) != names {
      var d := Rehinted(c, base, names);
      WithoutBaseDistinct(c.lru, base);
      WithoutBaseMembers(c.lru, base);
    }
  }

  lemma StoredKeepsInv(max: nat, c: Contents, e: Entry)
    requires Inv(max, c)
    ensures Inv(max, Stored(max, c, e))
    ensures forall x :: x in Stored(max, c, e).lru ==> x == e || x in c.lru
  {
    RehintedKeepsInv(max, c, e.baseKey, e.varyNames);
    var d := Rehinted(c, e.baseKey, e.varyNames);
    InFront(d.lru, e, max);
  }

  /** A stored response is found by the request it was fetched for, and by every one with equal keys. */
  lemma StoredIsFound(max: nat, ttl: int, c: Contents, q: Request, w: Capture, now: int, r: Request)
    requires Inv(max, c) && max >= 1 && EntryFromCapture(ttl, q, w, now).Some?
    requires BaseKey(r) == BaseKey(q) && VaryKey(w.vary, r) == VaryKey(w.vary, q)
    ensures var e := EntryFromCapture(ttl, q, w, now).value;
            Found(Stored(max, c, e), r) == Some(e)
  {
    var e := EntryFromCapture(ttl, q, w, now).value;
    var d := Stored(max, c, e);
    StoredKeepsInv(max, c, e);
    RehintedKeepsInv(max, c, e.baseKey, e.varyNames);
    assert d.lru[0] == e && LookupKey(d, r) == e.key;
    OnlyOne(d.lru, e);
  }

  // ----- Runs --------------------------------------------------------------------------------

  datatype Op = Lookup(r: Request) | Store(r: Request, w: Capture, now: int)

  /** Any sequence of lookups and completed fetches, by any requests; the latest is outermost. */
  datatype Run = Start | Then(past: Run, op: Op)

  function After(max: nat, ttl: int, run: Run): Contents {
    match run
    case Start => Contents([], map[])
    case Then(past, op) =>
      var c := After(max, ttl, past);
      match op
      case Lookup(r) => Touched(c, r)
      case Store(r, w, now) =>
        var e := EntryFromCapture(ttl, r, w, now);
        if e.Some? then Stored(max, c, e.value) else c
  }

  /** Every request is well formed, and every Vary list was parsed. */
  predicate AllWellFormed(run: Run) {
    run.Then? ==>
      AllWellFormed(run.past) && WellFormed(run.op.r) && (run.op.Store? ==> Parsed(run.op.w.vary))
  }

  predicate Fetched(run: Run, r: Request, w: Capture, now: int) {
    run.Then? && (run.op == Store(r, w, now) || Fetched(run.past, r, w, now))
  }

  ghost predicate From(ttl: int, run: Run, e: Entry, q: Request, w: Capture, t: int) {
    Fetched(run, q, w, t) && EntryFromCapture(ttl, q, w, t) == Some(e)
  }

  ghost predicate Captured(ttl: int, run: Run, e: Entry) { exists q, w, t :: From(ttl, run, e, q, w, t) }

  lemma CapturedLater(ttl: int, run: Run, op: Op, e: Entry)
    requires Captured(ttl, run, e)
    ensures Captured(ttl, Then(run, op), e)
  {
    var q, w, t :| From(ttl, run, e, q, w, t);
    assert From(ttl, Then(run, op), e, q, w, t);
  }

  /** Over every run: bounded, one entry a key, every Vary list the recorded one, every entry captured. */
  lemma {:induction false} RunKeepsInv(max: nat, ttl: int, run: Run)
    ensures Inv(max, After(max, ttl, run))
    ensures forall e :: e in After(max, ttl, run).lru ==> Captured(ttl, run, e)
  {
    if run.Then? {
      RunKeepsInv(max, ttl, run.past);
      var c := After(max, ttl, run.past);
      forall e | e in c.lru ensures Captured(ttl, run, e) { CapturedLater(ttl, run.past, run.op, e); }
      match run.op {
        case Lookup(r) => TouchedKeepsInv(max, c, r);
        case Store(r, w, now) =>
          var e := EntryFromCapture(ttl, r, w, now);
          if e.Some? {
            StoredKeepsInv(max, c, e.value);
            assert From(ttl, run, e.value, r, w, now);
          }
      }
    }
  }

  lemma {:induction false} FetchedIsWellFormed(run: Run, q: Request, w: Capture, t: int)
    requires AllWellFormed(run) && Fetched(run, q, w, t)
    ensures WellFormed(q) && Parsed(w.vary)
  {
    if run.op != Store(q, w, t) { FetchedIsWellFormed(run.past, q, w, t); }
  }

  lemma {:induction false} HintsAreUsable(max: nat, ttl: int, run: Run, base: string)
    requires AllWellFormed(run)
    ensures Usable(Hint(After(max, ttl, run).hints, base))
  {
    if run.Then? { HintsAreUsable(max, ttl, run.past, base); }
  }

  // ----- What a request is served ------------------------------------------------------------

  predicate Fresh(e: Entry, now: int) { now - e.storedAt < e.ttl }

  predicate ServeableStale(e: Entry, now: int) {
    e.swr > 0 && e.ttl <= now - e.storedAt < e.ttl + e.swr
  }

  datatype Outcome = Hit(e: Entry) | Stale(e: Entry) | Miss

  function Serve(c: Contents, r: Request, now: int): Outcome {
    match Found(c, r)
    case None => Miss
    case Some(e) =>
      if Authed(r) && !e.isPublic then Miss
      else if Fresh(e, now) then Hit(e)
      else if ServeableStale(e, now) then Stale(e)
      else Miss
  }

  /** Marked public, or given a lifetime in shared caches. */
  predicate IsForAll(w: Capture) { w.control.isPublic || (w.control.maxAgeSet && w.shared) }

  /** The response w to request q, captured at t, may answer r at time now. */
  ghost predicate MayAnswer(ttl: int, q: Request, w: Capture, t: int, r: Request, now: int) {
    && q.verb == r.verb && q.host == r.host
    && (!Confusable(q.uri, r.uri) ==> q.uri == r.uri)
    && (q.uri == r.uri && Separable(w.vary, q) && Separable(w.vary, r) ==> Agree(w.vary, q, r, 0))
    && now - t < (if w.control.maxAgeSet then w.control.maxAge * SECOND else ttl) + w.control.swr * SECOND
    && (Get(q, "Authorization") != "" || Get(r, "Authorization") != "" ==> IsForAll(w))
    && w.status == 200 && w.setCookie == "" && !w.hijacked && !w.streamed && !w.overflow
    && !w.control.noStore && !w.control.noCache && !w.control.isPrivate && "*" !in w.vary
  }

  /** What is found was captured for the same method, host and URI, unless the URIs are confusable. */
  lemma FoundIsKin(max: nat, ttl: int, run: Run, r: Request, q: Request, w: Capture, t: int)
    requires AllWellFormed(run) && WellFormed(r) && Found(After(max, ttl, run), r).Some?
    requires From(ttl, run, Found(After(max, ttl, run), r).value, q, w, t)
    ensures q.verb == r.verb && q.host == r.host && (Confusable(q.uri, r.uri) || q.uri == r.uri)
    ensures q.uri == r.uri ==> VaryKey(w.vary, q) == VaryKey(w.vary, r)
  {
    RunKeepsInv(max, ttl, run);
    var c := After(max, ttl, run);
    var names := Hint(c.hints, BaseKey(r));
    FetchedIsWellFormed(run, q, w, t);
    KeyParts(q, VaryKey(w.vary, q), r, VaryKey(names, r));
    HintsAreUsable(max, ttl, run, BaseKey(r));
    UriParts(q.uri, w.vary, q, r.uri, names, r);
    assert q.uri == r.uri ==> w.vary == names;
  }

  /** Whatever is served from the cache, in any run, is a captured response that may answer the request. */
  lemma ServedIsLegal(max: nat, ttl: int, run: Run, r: Request, now: int)
    requires AllWellFormed(run) && WellFormed(r)
    requires !Serve(After(max, ttl, run), r, now).Miss?
    ensures var e := Serve(After(max, ttl, run), r, now).e;
            exists q, w, t :: From(ttl, run, e, q, w, t) && e.body == w.body && MayAnswer(ttl, q, w, t, r, now)
  {
    RunKeepsInv(max, ttl, run);
    var c := After(max, ttl, run);
    var e := Found(c, r).value;
    assert Captured(ttl, run, e);
    var q, w, t :| From(ttl, run, e, q, w, t);
    FoundIsKin(max, ttl, run, r, q, w, t);
    if q.uri == r.uri && Separable(w.vary, q) && Separable(w.vary, r) { VaryKeyTellsValues(w.vary, q, r); }
    assert MayAnswer(ttl, q, w, t, r, now);
  }

  // ----- The least recently used go first ----------------------------------------------------

  /** Less than n entries stand before e. */
  ghost predicate Within(l: seq<Entry>, e: Entry, n: nat) { exists i :: 0 <= i < |l| && i < n && l[i] == e }

  lemma {:induction false} WithoutWithin(l: seq<Entry>, key: string, e: Entry, n: nat)
    requires Within(l, e, n) && e.key != key
    ensures Within(Without(l, key), e, n)
  {
    var i :| 0 <= i < |l| && i < n && l[i] == e;
    if i == 0 {
      assert Without(l, key)[0] == e;
    } else {
      assert l[1..][i - 1] == e;
      WithoutWithin(l[1..], key, e, n - 1);
      var j :| 0 <= j < |Without(l[1..], key)| && j < n - 1 && Without(l[1..], key)[j] == e;
      assert l[0].key != key ==> Without(l, key)[j + 1] == e;
    }
  }

  lemma {:induction false} WithoutBaseWithin(l: seq<Entry>, base: string, e: Entry, n: nat)
    requires Within(l, e, n) && e.baseKey != base
    ensures Within(WithoutBase(l, base), e, n)
  {
    var i :| 0 <= i < |l| && i < n && l[i] == e;
    if i == 0 {
      assert WithoutBase(l, base)[0] == e;
    } else {
      assert l[1..][i - 1] == e;
      WithoutBaseWithin(l[1..], base, e, n - 1);
      var j :| 0 <= j < |WithoutBase(l[1..], base)| && j < n - 1 && WithoutBase(l[1..], base)[j] == e;
      assert l[0].baseKey != base ==> WithoutBase(l, base)[j + 1] == e;
    }
  }

  lemma InFrontWithin(l: seq<Entry>, f: Entry, e: Entry, n: nat)
    requires Within(l, e, n) && f.key != e.key
    ensures Within([f] + Without(l, f.key), e, n + 1)
  {
    WithoutWithin(l, f.key, e, n);
    var rest := Without(l, f.key);
    var i :| 0 <= i < |rest| && i < n && rest[i] == e;
    assert ([f] + rest)[i + 1] == e;
  }

  /** The call neither replaces this entry nor changes the Vary list of its variants. */
  ghost predicate Spares(ttl: int, op: Op, e: Entry) {
    op.Store? ==>
      var f := EntryFromCapture(ttl, op.r, op.w, op.now);
      f.Some? ==> f.value.key != e.key && (f.value.baseKey == e.baseKey ==> f.value.varyNames == e.varyNames)
  }

  /** Any call that spares an entry lets it fall back by one place at most. */
  lemma FallsByOne(max: nat, ttl: int, run: Run, op: Op, e: Entry, n: nat)
    requires Within(After(max, ttl, run).lru, e, n) && n < max && Spares(ttl, op, e)
    ensures Within(After(max, ttl, Then(run, op)).lru, e, n + 1)
  {
    RunKeepsInv(max, ttl, run);
    var c := After(max, ttl, run);
    if op.Lookup? {
      var f := Found(c, op.r);
      if f.Some? {
        OnlyOne(c.lru, e);
        if f.value == e {
          assert ([e] + Without(c.lru, e.key))[0] == e;
        } else {
          InFrontWithin(c.lru, f.value, e, n);
        }
      }
    } else {
      var f := EntryFromCapture(ttl, op.r, op.w, op.now);
      if f.Some? {
        var d := Rehinted(c, f.value.baseKey, f.value.varyNames);
        if d != c { WithoutBaseWithin(c.lru, f.value.baseKey, e, n); }
        InFrontWithin(d.lru, f.value, e, n);
        ClippedWithin([f.value] + Without(d.lru, f.value.key), max, e, n + 1);
      }
    }
  }

  lemma ClippedWithin(l: seq<Entry>, max: nat, e: Entry, n: nat)
    requires Within(l, e, n) && n <= max
    ensures Within(Clipped(l, max), e, n)
  {
    var i :| 0 <= i < |l| && i < n && l[i] == e;
    assert Clipped(l, max)[i] == e;
  }

  /** The calls of `later`, the latest outermost, come after a run. */
  function Continued(run: Run, later: Run): Run {
    if later.Start? then run else Then(Continued(run, later.past), later.op)
  }

  function Calls(run: Run): nat { if run.Start? then 0 else Calls(run.past) + 1 }

  ghost predicate AllSpare(ttl: int, run: Run, e: Entry) {
    run.Then? ==> AllSpare(ttl, run.past, e) && Spares(ttl, run.op, e)
  }

  lemma {:induction false} RecentStays(max: nat, ttl: int, run: Run, later: Run, e: Entry)
    requires Within(After(max, ttl, run).lru, e, 1) && Calls(later) < max && AllSpare(ttl, later, e)
    ensures Within(After(max, ttl, Continued(run, later)).lru, e, 1 + Calls(later))
  {
    if later.Then? {
      RecentStays(max, ttl, run, later.past, e);
      FallsByOne(max, ttl, Continued(run, later.past), later.op, e, 1 + Calls(later.past));
    }
  }

  /**
    A response that was just looked up survives any calls that spare it, as long as they are fewer
    than the cache has places.
  */
  lemma LookedUpStays(max: nat, ttl: int, run: Run, r: Request, later: Run)
    requires Found(After(max, ttl, run), r).Some? && Calls(later) < max
    requires AllSpare(ttl, later, Found(After(max, ttl, run), r).value)
    ensures Found(After(max, ttl, run), r).value in After(max, ttl, Continued(Then(run, Lookup(r)), later)).lru
  {
    var e := Found(After(max, ttl, run), r).value;
    assert After(max, ttl, Then(run, Lookup(r))).lru[0] == e;
    RecentStays(max, ttl, Then(run, Lookup(r)), later, e);
  }

  // ----- How long a response is served -------------------------------------------------------

  /** Everything that storing asks of a response and of the request it answers. */
  predicate Cacheable(q: Request, w: Capture) {
    && w.status == 200 && w.setCookie == "" && !w.hijacked && !w.streamed && !w.overflow
    && !w.control.noStore && !w.control.noCache && !w.control.isPrivate && "*" !in w.vary
    && (w.control.maxAgeSet ==> 0 < w.control.maxAge) && (Get(q, "Authorization") != "" ==> IsForAll(w))
  }

  /** An entry in the list is what its request, and every one with equal keys, finds. */
  lemma HeldIsFound(max: nat, ttl: int, run: Run, e: Entry, r: Request)
    requires e in After(max, ttl, run).lru && e.baseKey == BaseKey(r) && e.key == BaseKey(r) + VaryKey(e.varyNames, r)
    ensures Found(After(max, ttl, run), r) == Some(e)
  {
    RunKeepsInv(max, ttl, run);
    OnlyOne(After(max, ttl, run).lru, e);
  }

  lemma {:induction false} FetchedLater(run: Run, later: Run, q: Request, w: Capture, t: int)
    requires Fetched(run, q, w, t)
    ensures Fetched(Continued(run, later), q, w, t)
  {
    if later.Then? { FetchedLater(run, later.past, q, w, t); }
  }

  lemma Uncacheable(max: nat, ttl: int, run: Run, q: Request, w: Capture, t: int)
    requires !Cacheable(q, w)
    ensures After(max, ttl, Then(run, Store(q, w, t))) == After(max, ttl, run)
  {
  }

  /** Fresh for its lifetime, stale for the window after it, and then no more, as far as Authorization allows. */
  ghost predicate Timetable(ttl: int, w: Capture, t: int, r: Request, now: int, o: Outcome) {
    var life := if w.control.maxAgeSet then w.control.maxAge * 1_000_000_000 else ttl;
    var age, window := now - t, w.control.swr * 1_000_000_000;
    var allowed := Get(r, "Authorization") != "" ==> IsForAll(w);
    (o.Hit? <==> allowed && age < life) && (o.Stale? <==> allowed && life <= age < life + window)
  }

  lemma FoundOnTime(ttl: int, c: Contents, q: Request, w: Capture, t: int, r: Request, now: int)
    requires Cacheable(q, w) && Found(c, r) == EntryFromCapture(ttl, q, w, t)
    ensures Timetable(ttl, w, t, r, now, Serve(c, r, now))
    ensures !Serve(c, r, now).Miss? ==> Some(Serve(c, r, now).e) == EntryFromCapture(ttl, q, w, t)
  {
  }

  /**
    A cacheable response answers every request with equal keys by its timetable. This is so from the
    moment it is stored, through any calls that spare it and are fewer than the cache has places.
  */
  lemma ServedOnTime(max: nat, ttl: int, run: Run, q: Request, w: Capture, t: int, later: Run, r: Request, now: int)
    requires Cacheable(q, w) && BaseKey(r) == BaseKey(q) && VaryKey(w.vary, r) == VaryKey(w.vary, q)
    requires Calls(later) < max && AllSpare(ttl, later, EntryFromCapture(ttl, q, w, t).value)
    ensures var all := Continued(Then(run, Store(q, w, t)), later);
            var o := Serve(After(max, ttl, all), r, now);
            && Timetable(ttl, w, t, r, now, o)
            && (!o.Miss? ==> From(ttl, all, o.e, q, w, t) && o.e.body == w.body)
  {
    var e, stored := EntryFromCapture(ttl, q, w, t).value, Then(run, Store(q, w, t));
    assert After(max, ttl, stored).lru[0] == e;
    RecentStays(max, ttl, stored, later, e);
    HeldIsFound(max, ttl, Continued(stored, later), e, r);
    FetchedLater(stored, later, q, w, t);
    FoundOnTime(ttl, After(max, ttl, Continued(stored, later)), q, w, t, r, now);
  }

  // ----- Responses to another URI ------------------------------------------------------------

  /** After this run r is served, at time now, the response w to q, captured at t. */
  ghost predicate Answers(max: nat, ttl: int, run: Run, r: Request, now: int, q: Request, w: Capture, t: int) {
    && AllWellFormed(run) && WellFormed(r) && !Serve(After(max, ttl, run), r, now).Miss?
    && From(ttl, run, Serve(After(max, ttl, run), r, now).e, q, w, t)
  }

  /** Some run serves a request for u with a response that was captured for v. */
  ghost predicate Misserved(max: nat, ttl: int, u: string, v: string) {
    exists run, r, now, q, w, t :: Answers(max, ttl, run, r, now, q, w, t) && r.uri == u && q.uri == v
  }

  function Plain(names: seq<string>): Capture {
    Capture(false, false, false, 200, CacheControl(false, false, false, true, true, 1, 0), false, "", names, "")
  }

  lemma HintOfStored(max: nat, c: Contents, e: Entry, base: string)
    ensures Hint(Stored(max, c, e).hints, base) == if base == e.baseKey then e.varyNames else Hint(c.hints, base)
  {
  }

  /** A response stored for r, and then one for q under the same key: the second answers r. */
  lemma SecondAnswers(max: nat, ttl: int, r: Request, names: seq<string>, q: Request, others: seq<string>, t: int)
    requires max >= 1 && SameKey(r, names, q, others) && r.uri != q.uri
    ensures Answers(max, ttl, Then(Then(Start, Store(r, Plain(names), t)), Store(q, Plain(others), t)),
                    r, t, q, Plain(others), t)
  {
    BaseKeyTellsUri(r, q);
    var first := Then(Start, Store(r, Plain(names), t));
    var run := Then(first, Store(q, Plain(others), t));
    var d, e := EntryFromCapture(ttl, r, Plain(names), t).value, EntryFromCapture(ttl, q, Plain(others), t).value;
    var c, after := After(max, ttl, first), After(max, ttl, run);
    RunKeepsInv(max, ttl, first);
    RunKeepsInv(max, ttl, run);
    HintOfStored(max, After(max, ttl, Start), d, BaseKey(r));
    HintOfStored(max, c, e, BaseKey(r));
    assert after.lru[0] == e && LookupKey(after, r) == e.key;
    OnlyOne(after.lru, e);
    assert From(ttl, run, e, q, Plain(others), t);
  }

  lemma SharedIsMisserved(max: nat, ttl: int, u: string, v: string)
    requires max >= 1 && u != v && CanShare(u, v)
    ensures Misserved(max, ttl, u, v)
  {
    var names, others, r, q :| SameKey(r, names, q, others) && r.uri == u && q.uri == v;
    SecondAnswers(max, ttl, r, names, q, others, 0);
  }

  /** A response captured for another URI can be served exactly when the two URIs are confusable. */
  lemma MisservedIff(max: nat, ttl: int, u: string, v: string)
    requires max >= 1 && u != v
    ensures Misserved(max, ttl, u, v) <==> Confusable(u, v)
  {
    if Misserved(max, ttl, u, v) {
      var run, r, now, q, w, t :| Answers(max, ttl, run, r, now, q, w, t) && r.uri == u && q.uri == v;
      FoundIsKin(max, ttl, run, r, q, w, t);
    }
    CanShareIff(u, v);
    if Confusable(u, v) { SharedIsMisserved(max, ttl, u, v); }
  }

  /** "/x?q" sent with A: 1 is answered by what was fetched for the URI "/x?q vary:A=1;". */
  lemma BlankInQueryIsMisserved(max: nat, ttl: int, host: string)
    requires max >= 1 && ' ' !in host
    ensures var r := Request("GET", host, "/x?q", map["A" := ["1"]]);
            var q := Request("GET", host, "/x?q vary:A=1;", map[]);
            Answers(max, ttl, Then(Then(Start, Store(r, Plain(["A"]), 0)), Store(q, Plain([]), 0)),
                    r, 0, q, Plain([]), 0)
  {
    var r := Request("GET", host, "/x?q", map["A" := ["1"]]);
    var q := Request("GET", host, "/x?q vary:A=1;", map[]);
    assert Pairs(["A"], r, 1) == "";
    assert VaryKey(["A"], r) == " vary:" + ("A" + "=" + ("1" + ";" + "")) == " vary:A=1;";
    assert r.uri + VaryKey(["A"], r) == q.uri + VaryKey([], q);
    KeyText(r, VaryKey(["A"], r));
    KeyText(q, VaryKey([], q));
    SecondAnswers(max, ttl, r, ["A"], q, [], 0);
  }

  // ----- The cache itself --------------------------------------------------------------------

  /** The index by key and the list hold the same entries. */
  ghost predicate Indexed(entries: map<string, Entry>, l: seq<Entry>) {
    && (forall e :: e in l ==> e.key in entries && entries[e.key] == e)
    && (forall k :: k in entries ==> entries[k] in l && entries[k].key == k)
  }

  lemma {:induction false} FindIsIndex(entries: map<string, Entry>, l: seq<Entry>, key: string)
    requires Indexed(entries, l)
    ensures Find(l, key, |l|) == if key in entries then Some(entries[key]) else None
  {
    var f := Find(l, key, |l|);
    if key in entries {
      var i :| 0 <= i < |l| && l[i] == entries[key];
    }
  }

  lemma IndexWithout(entries: map<string, Entry>, l: seq<Entry>, key: string)
    requires Indexed(entries, l)
    ensures Indexed(entries - {key}, Without(l, key))
  {
    WithoutMembers(l, key);
  }

  /** Removing, one key after the other, every key of a base key. */
  lemma {:induction false} WithoutAll(l: seq<Entry>, base: string, key: string)
    requires forall e :: e in l && e.key == key ==> e.baseKey == base
    ensures WithoutBase(Without(l, key), base) == WithoutBase(l, base)
  {
    if l != [] {
      assert forall e :: e in l[1..] ==> e in l;
      assert l[0] in l;
      WithoutAll(l[1..], base, key);
      if l[0].key != key { assert Without(l, key)[1..] == Without(l[1..], key); }
    }
  }

  lemma {:induction false} NoneUnder(l: seq<Entry>, base: string)
    requires forall e :: e in l ==> e.baseKey != base
    ensures WithoutBase(l, base) == l
  {
    if l != [] {
      assert l[0] in l && forall e :: e in l[1..] ==> e in l;
      NoneUnder(l[1..], base);
    }
  }

  /** Removes every variant of a base key, going through the index in any order. */
  method PurgeBase(lru: seq<Entry>, entries: map<string, Entry>, base: string)
    returns (l: seq<Entry>, index: map<string, Entry>)
    requires Indexed(entries, lru)
    ensures l == WithoutBase(lru, base) && Indexed(index, l)
  {
    l, index := lru, entries;
    var todo := entries.Keys;
    while todo != {}
      invariant Indexed(index, l) && todo <= index.Keys
      invariant WithoutBase(l, base) == WithoutBase(lru, base)
      invariant forall k :: k in index && k !in todo ==> index[k].baseKey != base
      decreases |todo|
    {
      var k :| k in todo;
      todo := todo - {k};
      if index[k].baseKey == base {
        WithoutAll(l, base, k);
        IndexWithout(index, l, k);
        l, index := Without(l, k), index - {k};
      }
    }
    NoneUnder(l, base);
  }

  lemma LastIsOnce(l: seq<Entry>, e: Entry)
    requires DistinctKeys(l + [e])
    ensures DistinctKeys(l) && forall x :: x in l ==> x.key != e.key
  {
    var all := l + [e];
    forall x | x in l ensures x.key != e.key {
      var i :| 0 <= i < |l| && l[i] == x;
      assert all[i] == x && all[|l|] == e;
    }
    assert forall i, j :: 0 <= i < j < |l| ==> all[i] == l[i] && all[j] == l[j];
  }

  lemma DropLast(index: map<string, Entry>, l: seq<Entry>, e: Entry)
    requires Indexed(index, l + [e]) && DistinctKeys(l + [e])
    ensures Indexed(index - {e.key}, l) && DistinctKeys(l)
  {
    LastIsOnce(l, e);
    assert forall x :: x in l + [e] <==> x in l || x == e;
  }

  /** The least recently used entries leave the list and the index together. */
  method Evict(lru: seq<Entry>, entries: map<string, Entry>, max: nat)
    returns (l: seq<Entry>, index: map<string, Entry>)
    requires Indexed(entries, lru) && DistinctKeys(lru)
    ensures l == Clipped(lru, max) && Indexed(index, l)
  {
    l, index := lru, entries;
    while |l| > max
      invariant Clipped(l, max) == Clipped(lru, max) && Indexed(index, l) && DistinctKeys(l)
    {
      var oldest := l[|l| - 1];
      DropOldest(index, l, max);
      l, index := l[..|l| - 1], index - {oldest.key};
    }
  }

  lemma DropOldest(index: map<string, Entry>, l: seq<Entry>, max: nat)
    requires Indexed(index, l) && DistinctKeys(l) && |l| > max
    ensures var rest, oldest := l[..|l| - 1], l[|l| - 1];
            Indexed(index - {oldest.key}, rest) && DistinctKeys(rest) && Clipped(rest, max) == Clipped(l, max)
  {
    var rest, oldest := l[..|l| - 1], l[|l| - 1];
    assert l == rest + [oldest];
    DropLast(index, rest, oldest);
    assert rest[..max] == l[..max];
  }

  lemma {:induction false} NotThere(l: seq<Entry>, key: string)
    requires forall e :: e in l ==> e.key != key
    ensures Without(l, key) == l
  {
    if l != [] {
      assert l[0] in l && forall e :: e in l[1..] ==> e in l;
      NotThere(l[1..], key);
    }
  }

  lemma IndexPut(index: map<string, Entry>, l: seq<Entry>, e: Entry)
    requires Indexed(index, l)
    ensures Indexed(index[e.key := e], [e] + Without(l, e.key))
  {
    WithoutMembers(l, e.key);
  }

  /** An entry under a known key replaces the old one; a new key may push out the oldest. */
  method Put(lru: seq<Entry>, entries: map<string, Entry>, e: Entry, max: nat)
    returns (l: seq<Entry>, index: map<string, Entry>)
    requires Indexed(entries, lru) && DistinctKeys(lru) && |lru| <= max
    ensures l == Clipped([e] + Without(lru, e.key), max) && Indexed(index, l)
  {
    IndexPut(entries, lru, e);
    if e.key in entries {
      WithoutShrinks(lru, entries[e.key]);
      return [e] + Without(lru, e.key), entries[e.key := e];
    }
    NotThere(lru, e.key);
    OneMore(e, lru);
    l, index := Evict([e] + lru, entries[e.key := e], max);
  }

  class Cache {
    const maxEntries: nat
    const defaultTtl: int
    var entries: map<string, Entry>
    var lru: seq<Entry>
    var hints: map<string, seq<string>>
    var refreshing: set<string>
    /** The background refreshes now under way, by key. */
    ghost var running: multiset<string>

    ghost function View(): Contents reads this { Contents(lru, hints) }

    ghost predicate Valid() reads this {
      maxEntries >= 1 && Inv(maxEntries, View()) && Indexed(entries, lru) && running == multiset(refreshing)
    }

    constructor (max: int, ttl: int)
      ensures Valid() && View() == Contents([], map[]) && running == multiset{}
      ensures maxEntries == if max <= 0 then 1000 else max
      ensures defaultTtl == if ttl <= 0 then 60 * SECOND else ttl
    {
      maxEntries := if max <= 0 then 1000 else max;
      defaultTtl := if ttl <= 0 then 60 * SECOND else ttl;
      entries, lru, hints, refreshing, running := map[], [], map[], {}, multiset{};
    }

    method Lookup(r: Request) returns (hit: Option<Entry>)
      requires Valid()
      modifies `lru
      ensures Valid() && View() == Touched(old(View()), r) && hit == Found(old(View()), r)
    {
      var base := BaseKey(r);
      var key := base;
      if base in hints { key := base + VaryKey(hints[base], r); }
      assert key == LookupKey(View(), r) by { assert base + "" == base; }
      FindIsIndex(entries, lru, key);
      TouchedKeepsInv(maxEntries, View(), r);
      hit := None;
      if key in entries {
        hit := Some(entries[key]);
        lru := [entries[key]] + Without(lru, key);
      }
    }

    /** Stores an entry; variants kept under another Vary list go first. */
    method Insert(e: Entry)
      requires Valid()
      modifies `lru, `entries, `hints
      ensures Valid() && View() == Stored(maxEntries, old(View()), e)
    {
      StoredKeepsInv(maxEntries, View(), e);
      RehintedKeepsInv(maxEntries, View(), e.baseKey, e.varyNames);
      var prev := if e.baseKey in hints then hints[e.baseKey] else [];
      if (e.baseKey in hints || |e.varyNames| > 0) && prev != e.varyNames {
        lru, entries := PurgeBase(lru, entries, e.baseKey);
        hints := if |e.varyNames| > 0 then hints[e.baseKey := e.varyNames] else hints - {e.baseKey};
      }
      assert View() == Rehinted(old(View()), e.baseKey, e.varyNames);
      lru, entries := Put(lru, entries, e, maxEntries);
    }

    /** At most one background refresh a key. */
    method TriggerRefresh(key: string) returns (launched: bool)
      requires Valid()
      modifies `refreshing, `running
      ensures Valid() && launched == (key !in old(refreshing))
      ensures running == old(running) + (if launched then multiset{key} else multiset{})
      ensures running[key] == 1
    {
      launched := key !in refreshing;
      if launched {
        refreshing, running := refreshing + {key}, running + multiset{key};
      }
    }

    /** A refresh ends, whatever came of it. */
    method FinishRefresh(key: string)
      requires Valid() && key in running
      modifies `refreshing, `running
      ensures Valid() && running == old(running) - multiset{key} && key !in refreshing
    {
      refreshing, running := refreshing - {key}, running - multiset{key};
    }
  }
}
