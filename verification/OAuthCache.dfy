/** The OAuth token fetcher's expiring cache (provider/aws_sm_oauth/fetcher.go). */
module OAuthCache {
  import opened Text
  import opened Lru

  datatype Request = Request(certificate: string, backend: string, client: string, privateKey: string)

  /** `getCacheKey` */
  function CacheKey(r: Request): string {
    r.certificate + "_" + (r.backend + "_" + (r.client + "_" + r.privateKey))
  }

  // ----- when the key tells requests apart

  /** Which components may hold an underscore. */
  datatype Allowed = Allowed(certificate: bool, backend: bool, client: bool, privateKey: bool)

  predicate Admits(c: Allowed, r: Request) {
    && (c.certificate || '_' !in r.certificate)
    && (c.backend || '_' !in r.backend)
    && (c.client || '_' !in r.client)
    && (c.privateKey || '_' !in r.privateKey)
  }

  function Count(c: Allowed): nat {
    (if c.certificate then 1 else 0) + (if c.backend then 1 else 0)
    + (if c.client then 1 else 0) + (if c.privateKey then 1 else 0)
  }

  ghost predicate KeyInjective(c: Allowed) {
    forall a, b :: Admits(c, a) && Admits(c, b) && CacheKey(a) == CacheKey(b) ==> a == b
  }

  lemma TwoPartsFreeFirst(a: string, x: string, b: string, y: string)
    requires a + "_" + x == b + "_" + y && '_' !in x && '_' !in y
    ensures a == b && x == y
  {
    CutAtLast(a, x, b, y, '_');
  }

  lemma TwoPartsFreeLast(a: string, x: string, b: string, y: string)
    requires a + "_" + x == b + "_" + y && '_' !in a && '_' !in b
    ensures a == b && x == y
  {
    CutAtFirst(a, x, b, y, '_');
  }

  lemma ThreePartsJoined(a1: string, a2: string, a3: string, b1: string, b2: string, b3: string, free: nat)
    requires a1 + "_" + (a2 + "_" + a3) == b1 + "_" + (b2 + "_" + b3)
    requires free != 0 ==> '_' !in a1 && '_' !in b1
    requires free != 1 ==> '_' !in a2 && '_' !in b2
    requires free != 2 ==> '_' !in a3 && '_' !in b3
    ensures a1 == b1 && a2 == b2 && a3 == b3
  {
    if free == 0 {
      assert a1 + "_" + (a2 + "_" + a3) == (a1 + "_" + a2) + "_" + a3;
      assert b1 + "_" + (b2 + "_" + b3) == (b1 + "_" + b2) + "_" + b3;
      TwoPartsFreeFirst(a1 + "_" + a2, a3, b1 + "_" + b2, b3);
      TwoPartsFreeFirst(a1, a2, b1, b2);
    } else {
      TwoPartsFreeLast(a1, a2 + "_" + a3, b1, b2 + "_" + b3);
      if free == 1 { TwoPartsFreeFirst(a2, a3, b2, b3); } else { TwoPartsFreeLast(a2, a3, b2, b3); }
    }
  }

  lemma FreeOnceInjective(c: Allowed, a: Request, b: Request)
    requires Count(c) <= 1 && Admits(c, a) && Admits(c, b) && CacheKey(a) == CacheKey(b)
    ensures a == b
  {
    if c.certificate {
      assert CacheKey(a) == (a.certificate + "_" + (a.backend + "_" + a.client)) + "_" + a.privateKey;
      assert CacheKey(b) == (b.certificate + "_" + (b.backend + "_" + b.client)) + "_" + b.privateKey;
      TwoPartsFreeFirst(a.certificate + "_" + (a.backend + "_" + a.client), a.privateKey,
                        b.certificate + "_" + (b.backend + "_" + b.client), b.privateKey);
      ThreePartsJoined(a.certificate, a.backend, a.client, b.certificate, b.backend, b.client, 0);
    } else {
      TwoPartsFreeLast(a.certificate, a.backend + "_" + (a.client + "_" + a.privateKey),
                       b.certificate, b.backend + "_" + (b.client + "_" + b.privateKey));
      ThreePartsJoined(a.backend, a.client, a.privateKey, b.backend, b.client, b.privateKey,
                       if c.backend then 0 else if c.client then 1 else 2);
    }
  }

  /** "a" everywhere, but "a_a" in one component. */
  function Doubled(i: nat): Request {
    Request(if i == 0 then "a_a" else "a", if i == 1 then "a_a" else "a",
            if i == 2 then "a_a" else "a", if i == 3 then "a_a" else "a")
  }

  lemma DoubledCollide(i: nat)
    requires i < 4
    ensures CacheKey(Doubled(i)) == "a_a_a_a_a"
  {}

  /** The underscore-joined key tells the requests of a class apart exactly when at
      most one fixed component may hold an underscore. */
  lemma KeyInjectiveIff(c: Allowed)
    ensures KeyInjective(c) <==> Count(c) <= 1
  {
    if Count(c) <= 1 {
      forall a, b | Admits(c, a) && Admits(c, b) && CacheKey(a) == CacheKey(b) ensures a == b {
        FreeOnceInjective(c, a, b);
      }
    } else {
      var i := if c.certificate then 0 else if c.backend then 1 else 2;
      var j := if c.privateKey then 3 else if c.client then 2 else 1;
      DoubledCollide(i);
      DoubledCollide(j);
      assert Admits(c, Doubled(i)) && Admits(c, Doubled(j)) && Doubled(i) != Doubled(j);
    }
  }

  // ----- one fetch

  /** A token and the instant after which it is no longer served. */
  datatype Cached = Cached(token: string, expires: int)

  type Cache = seq<Entry<Cached>>

  /** A positive size and time to live. */
  datatype Config = Config(size: nat, ttl: nat)

  /** `expirable.LRU.Get`: an expired entry is not found, though still held. */
  function Live(cache: Cache, key: string, now: int): Option<Cached> {
    match Peek(cache, key)
    case Some(cached) => if now > cached.expires then None else Some(cached)
    case None => None
  }

  /** The cache after looking a request up. */
  function LookedUp(cache: Cache, config: Config, now: int, r: Request): Cache {
    match Live(cache, CacheKey(r), now)
    case Some(cached) => Put(cache, CacheKey(r), cached, config.size)
    case None => cache
  }

  /** The cache after the token service issued a token for the request. */
  function Stored(cache: Cache, config: Config, now: int, r: Request, token: string): Cache {
    Put(cache, CacheKey(r), Cached(token, now + config.ttl), config.size)
  }

  class Fetcher {
    const config: Config
    var cache: Cache

    constructor (config: Config)
      requires config.size > 0 && config.ttl > 0
      ensures this.config == config && cache == []
    {
      this.config := config;
      cache := [];
    }

    /** `expirable.LRU.Get` */
    method Get(now: int, r: Request) returns (token: Option<string>)
      modifies this
      ensures cache == LookedUp(old(cache), config, now, r)
      ensures token == match Live(old(cache), CacheKey(r), now)
                       case Some(cached) => Some(cached.token)
                       case None => None
    {
      var cached := Live(cache, CacheKey(r), now);
      if cached.Some? {
        cache := Put(cache, CacheKey(r), cached.value, config.size);
        return Some(cached.value.token);
      }
      return None;
    }

    /** `FetchSecret`: on a miss `issued` is what the JWT and OAuth calls give, at `later`. */
    method FetchSecret(now: int, later: int, r: Request, issued: Option<string>) returns (token: Option<string>)
      requires now <= later
      modifies this
      ensures var live := Live(old(cache), CacheKey(r), now);
              && token == (if live.Some? then Some(live.value.token) else issued)
              && cache == if live.Some? || issued.None? then LookedUp(old(cache), config, now, r)
                          else Stored(LookedUp(old(cache), config, now, r), config, later, r, issued.value)
    {
      token := Get(now, r);
      if token.None? {
        token := issued;
        if token.Some? {
          cache := Put(cache, CacheKey(r), Cached(token.value, later + config.ttl), config.size);
        }
      }
    }
  }

  // ----- whole histories, fetches overlapping freely

  /** The cache's atomic operations; a sweep removes one expired entry in the background. */
  datatype Event =
    | Lookup(now: int, request: Request)
    | Store(now: int, request: Request, token: string)
    | Sweep(now: int, key: string)

  function Step(cache: Cache, config: Config, event: Event): Cache {
    match event
    case Lookup(now, r) => LookedUp(cache, config, now, r)
    case Store(now, r, token) => Stored(cache, config, now, r, token)
    case Sweep(now, key) => if Live(cache, key, now).None? then Without(cache, key) else cache
  }

  function CacheAfter(history: seq<Event>, config: Config): Cache {
    if history == [] then [] else Step(CacheAfter(history[..|history| - 1], config), config, history[|history| - 1])
  }

  /** The j-th event stored the entry. */
  ghost predicate StoredBy(history: seq<Event>, config: Config, j: int, e: Entry<Cached>) {
    && 0 <= j < |history| && history[j].Store? && CacheKey(history[j].request) == e.key
    && e.value == Cached(history[j].token, history[j].now + config.ttl)
  }

  lemma {:induction false} EntriesStored(history: seq<Event>, config: Config, e: Entry<Cached>)
    requires e in CacheAfter(history, config)
    ensures exists j :: StoredBy(history, config, j, e)
  {
    var n := |history| - 1;
    var front, last := history[..n], history[n];
    var before := CacheAfter(front, config);
    if last.Lookup? && Live(before, CacheKey(last.request), last.now).Some? {
      PutMembers(before, CacheKey(last.request), Live(before, CacheKey(last.request), last.now).value, config.size);
    }
    if last.Store? {
      PutMembers(before, CacheKey(last.request), Cached(last.token, last.now + config.ttl), config.size);
    }
    if e in before {
      EntriesStored(front, config, e);
      var j :| StoredBy(front, config, j, e);
      assert StoredBy(history, config, j, e);
    } else {
      assert StoredBy(history, config, n, e);
    }
  }

  /** The j-th event stored this token under the key, and its time has not run out. */
  ghost predicate StoredWithin(history: seq<Event>, config: Config, j: int, key: string, token: string, now: int) {
    && 0 <= j < |history| && history[j].Store? && CacheKey(history[j].request) == key
    && history[j].token == token && now <= history[j].now + config.ttl
  }

  /** The requests of a history and one more all belong to the class. */
  ghost predicate AllAdmitted(c: Allowed, history: seq<Event>, r: Request) {
    Admits(c, r) && forall k :: 0 <= k < |history| && !history[k].Sweep? ==> Admits(c, history[k].request)
  }

  /** After every interleaving of fetches and sweeps, a token served was stored at most
      the TTL before under the same key; when at most one fixed component may hold an
      underscore, for the same four identifiers. */
  lemma ServedTokenIssued(history: seq<Event>, config: Config, now: int, r: Request, c: Allowed)
    requires Live(CacheAfter(history, config), CacheKey(r), now).Some?
    ensures var token := Live(CacheAfter(history, config), CacheKey(r), now).value.token;
            && (exists j :: StoredWithin(history, config, j, CacheKey(r), token, now))
            && (Count(c) <= 1 && AllAdmitted(c, history, r) ==>
                  exists j :: StoredWithin(history, config, j, CacheKey(r), token, now) && history[j].request == r)
  {
    hide CacheAfter, CacheKey, Admits, Count;
    var cached := Live(CacheAfter(history, config), CacheKey(r), now).value;
    EntriesStored(history, config, Entry(CacheKey(r), cached));
    var j :| StoredBy(history, config, j, Entry(CacheKey(r), cached));
    assert StoredWithin(history, config, j, CacheKey(r), cached.token, now);
    if Count(c) <= 1 && AllAdmitted(c, history, r) {
      FreeOnceInjective(c, history[j].request, r);
    }
  }

  // ----- what the cache serves

  /** The token last stored under the key, and when. */
  function LatestStored(history: seq<Event>, key: string): Option<(string, int)> {
    if history == [] then None
    else
      var last := history[|history| - 1];
      if last.Store? && CacheKey(last.request) == key then Some((last.token, last.now))
      else LatestStored(history[..|history| - 1], key)
  }

  /** A step changes what a key holds only by storing under it or losing it. */
  lemma StepPeek(cache: Cache, config: Config, event: Event, key: string)
    requires config.size > 0
    ensures Peek(Step(cache, config, event), key).Some? ==>
              Peek(Step(cache, config, event), key)
              == if event.Store? && CacheKey(event.request) == key then
                   Some(Cached(event.token, event.now + config.ttl))
                 else Peek(cache, key)
  {
    hide Put, Peek, Without, CacheKey;
    match event
    case Lookup(now, r) =>
      var live := Live(cache, CacheKey(r), now);
      if live.Some? { PeekPut(cache, CacheKey(r), live.value, config.size, key); }
    case Store(now, r, token) =>
      PeekPut(cache, CacheKey(r), Cached(token, now + config.ttl), config.size, key);
    case Sweep(now, swept) =>
      if swept == key { WithoutGone(cache, key); } else { PeekWithout(cache, swept, key); }
  }

  /** A key that is held holds the token last stored under it. */
  lemma {:induction false} HeldIsLatest(history: seq<Event>, config: Config, key: string)
    requires config.size > 0
    ensures Peek(CacheAfter(history, config), key).Some? ==>
              && LatestStored(history, key).Some?
              && var (token, at) := LatestStored(history, key).value;
                 Peek(CacheAfter(history, config), key) == Some(Cached(token, at + config.ttl))
  {
    hide Step, Peek, CacheKey;
    if history == [] {
      EmptyPeek(key);
    } else {
      var front, last := history[..|history| - 1], history[|history| - 1];
      HeldIsLatest(front, config, key);
      StepPeek(CacheAfter(front, config), config, last, key);
    }
  }

  lemma EmptyPeek(key: string)
    ensures Peek<Cached>([], key) == None
  {}

  lemma {:induction false} WithoutGone(entries: Cache, key: string)
    ensures Peek(Without(entries, key), key) == None
  {
    if entries != [] { WithoutGone(entries[1..], key); }
    if entries != [] && entries[0].key != key { PeekBehind(entries[0], Without(entries[1..], key), key); }
  }

  /** While a key is held, the token last stored under it is served exactly until the
      TTL has run out. */
  lemma ServedUntilExpiry(history: seq<Event>, config: Config, key: string, t: int)
    requires config.size > 0 && Peek(CacheAfter(history, config), key).Some?
    ensures LatestStored(history, key).Some?
    ensures var (token, at) := LatestStored(history, key).value;
            Live(CacheAfter(history, config), key, t)
            == if t <= at + config.ttl then Some(Cached(token, at + config.ttl)) else None
  {
    HeldIsLatest(history, config, key);
    hide CacheAfter;
  }

  /** The other keys that these events look up or store. */
  function OtherKeys(events: seq<Event>, key: string): set<string> {
    set i | 0 <= i < |events| && !events[i].Sweep? && CacheKey(events[i].request) != key :: CacheKey(events[i].request)
  }

  /** No event stores under the key, and none sweeps it away after `until`. */
  ghost predicate LeavesAlone(events: seq<Event>, key: string, until: int) {
    forall i :: 0 <= i < |events| ==>
      && (events[i].Store? ==> CacheKey(events[i].request) != key)
      && (events[i].Sweep? && events[i].key == key ==> events[i].now <= until)
  }

  lemma StepDistinct(cache: Cache, config: Config, event: Event)
    requires config.size > 0 && Distinct(Keys(cache))
    ensures Distinct(Keys(Step(cache, config, event)))
  {
    hide Put, Without, Distinct, Keys, Peek, CacheKey;
    match event
    case Lookup(now, r) =>
      var live := Live(cache, CacheKey(r), now);
      if live.Some? { PutDistinct(cache, CacheKey(r), live.value, config.size); }
    case Store(now, r, token) =>
      PutDistinct(cache, CacheKey(r), Cached(token, now + config.ttl), config.size);
    case Sweep(now, swept) =>
      KeysWithout(cache, swept);
      RemoveMembers(Keys(cache), swept);
  }

  lemma {:induction false} HistoryDistinct(history: seq<Event>, config: Config)
    requires config.size > 0
    ensures Distinct(Keys(CacheAfter(history, config)))
  {
    if history != [] {
      HistoryDistinct(history[..|history| - 1], config);
      hide Distinct, Keys, Step;
      StepDistinct(CacheAfter(history[..|history| - 1], config), config, history[|history| - 1]);
    }
  }

  lemma StepAhead(cache: Cache, config: Config, event: Event, key: string, others: set<string>, until: int)
    requires config.size > 0 && |others| < config.size
    requires Distinct(Keys(cache)) && Ahead(Keys(cache), key, others)
    requires Peek(cache, key).Some? && Peek(cache, key).value.expires == until
    requires event.Store? ==> CacheKey(event.request) != key
    requires !event.Sweep? && CacheKey(event.request) != key ==> CacheKey(event.request) in others
    requires event.Sweep? && event.key == key ==> event.now <= until
    ensures Ahead(Keys(Step(cache, config, event)), key, others)
  {
    hide Put, Without, Keys, Distinct, CacheKey, Peek;
    match event
    case Lookup(now, r) =>
      var live := Live(cache, CacheKey(r), now);
      if live.Some? { PutAhead(cache, CacheKey(r), live.value, config.size, key, others); }
    case Store(now, r, token) =>
      PutAhead(cache, CacheKey(r), Cached(token, now + config.ttl), config.size, key, others);
    case Sweep(now, swept) =>
      if swept != key {
        KeysWithout(cache, swept);
        AheadRemove(Keys(cache), swept, key, others);
      }
  }

  lemma StoreAhead(past: seq<Event>, config: Config, at: int, r: Request, token: string)
    requires config.size > 0
    ensures Ahead(Keys(CacheAfter(past + [Store(at, r, token)], config)), CacheKey(r), {})
  {
    var all := past + [Store(at, r, token)];
    assert all[..|all| - 1] == past;
    hide Put, Keys, CacheKey;
    KeysPut(CacheAfter(past, config), CacheKey(r), Cached(token, at + config.ttl), config.size);
  }

  lemma LatestBehind(past: seq<Event>, at: int, r: Request, token: string, later: seq<Event>, until: int)
    requires LeavesAlone(later, CacheKey(r), until)
    ensures LatestStored(past + [Store(at, r, token)] + later, CacheKey(r)) == Some((token, at))
    decreases |later|
  {
    hide CacheKey;
    var all := past + [Store(at, r, token)] + later;
    if later == [] {
      assert all == past + [Store(at, r, token)];
    } else {
      var front := later[..|later| - 1];
      assert all[..|all| - 1] == past + [Store(at, r, token)] + front;
      assert all[|all| - 1] == later[|later| - 1];
      LatestBehind(past, at, r, token, front, until);
    }
  }

  /** One more event that leaves the key alone, on a history after which it is held. */
  lemma NextAhead(history: seq<Event>, config: Config, last: Event, key: string, others: set<string>, token: string, at: int)
    requires config.size > 0 && |others| < config.size
    requires Ahead(Keys(CacheAfter(history, config)), key, others) && LatestStored(history, key) == Some((token, at))
    requires LeavesAlone([last], key, at + config.ttl) && OtherKeys([last], key) <= others
    ensures Ahead(Keys(CacheAfter(history + [last], config)), key, others)
  {
    var all, before := history + [last], CacheAfter(history, config);
    assert all[..|all| - 1] == history && [last][0] == last;
    assert !last.Sweep? && CacheKey(last.request) != key ==> CacheKey(last.request) in OtherKeys([last], key);
    HistoryDistinct(history, config);
    AheadHeld(Keys(before), key, others);
    HeldIsLatest(history, config, key);
    hide Keys, Distinct, CacheKey, OtherKeys, LatestStored, Step, Ahead;
    StepAhead(before, config, last, key, others, at + config.ttl);
  }

  lemma OneMoreEvent(front: seq<Event>, last: Event, key: string, until: int)
    requires LeavesAlone(front + [last], key, until)
    ensures LeavesAlone(front, key, until) && LeavesAlone([last], key, until)
    ensures OtherKeys(front, key) <= OtherKeys(front + [last], key)
    ensures OtherKeys([last], key) <= OtherKeys(front + [last], key)
  {
    hide CacheKey;
    var all := front + [last];
    assert all[|front|] == last;
    assert forall i :: 0 <= i < |front| ==> all[i] == front[i];
  }

  lemma {:induction false} StaysAhead(past: seq<Event>, config: Config, at: int, r: Request, token: string,
                                      later: seq<Event>, others: set<string>)
    requires config.size > 0 && |others| < config.size && OtherKeys(later, CacheKey(r)) <= others
    requires LeavesAlone(later, CacheKey(r), at + config.ttl)
    ensures Ahead(Keys(CacheAfter(past + [Store(at, r, token)] + later, config)), CacheKey(r), others)
    decreases |later|
  {
    var stored := past + [Store(at, r, token)];
    hide Keys, CacheKey, OtherKeys, LatestStored, Ahead, LeavesAlone, CacheAfter;
    if later == [] {
      assert stored + later == stored;
      StoreAhead(past, config, at, r, token);
      AheadMore(Keys(CacheAfter(stored, config)), CacheKey(r), {}, others);
    } else {
      var front, last := later[..|later| - 1], later[|later| - 1];
      assert later == front + [last] && stored + later == (stored + front) + [last];
      OneMoreEvent(front, last, CacheKey(r), at + config.ttl);
      StaysAhead(past, config, at, r, token, front, others);
      LatestBehind(past, at, r, token, front, at + config.ttl);
      NextAhead(stored + front, config, last, CacheKey(r), others, token, at);
    }
  }

  /** A token once stored is served until its TTL has run out, and never after, whatever
      else is fetched or swept, as long as fewer than `size` other keys are used and no
      newer token is stored. */
  lemma StoredTokenServed(past: seq<Event>, config: Config, at: int, r: Request, token: string, later: seq<Event>,
                          t: int)
    requires config.size > 0 && |OtherKeys(later, CacheKey(r))| < config.size
    requires LeavesAlone(later, CacheKey(r), at + config.ttl)
    ensures Live(CacheAfter(past + [Store(at, r, token)] + later, config), CacheKey(r), t)
            == if t <= at + config.ttl then Some(Cached(token, at + config.ttl)) else None
  {
    var all := past + [Store(at, r, token)] + later;
    hide CacheAfter, CacheKey, OtherKeys, LeavesAlone, LatestStored, Keys;
    StaysAhead(past, config, at, r, token, later, OtherKeys(later, CacheKey(r)));
    AheadHeld(Keys(CacheAfter(all, config)), CacheKey(r), OtherKeys(later, CacheKey(r)));
    LatestBehind(past, at, r, token, later, at + config.ttl);
    ServedUntilExpiry(all, config, CacheKey(r), t);
  }

  /** The cache never outgrows its size. */
  lemma {:induction false} SizeBounded(history: seq<Event>, config: Config)
    requires config.size > 0
    ensures |CacheAfter(history, config)| <= config.size
  {
    if history != [] {
      SizeBounded(history[..|history| - 1], config);
    }
  }

  // ----- eviction order

  /** The key an event served or stored. */
  function Used(history: seq<Event>, config: Config): Option<string>
    requires history != []
  {
    var front, last := history[..|history| - 1], history[|history| - 1];
    match last
    case Lookup(now, r) => if Live(CacheAfter(front, config), CacheKey(r), now).Some? then Some(CacheKey(r)) else None
    case Store(_, r, _) => Some(CacheKey(r))
    case Sweep(_, _) => None
  }

  /** When a key was last served or stored, or -1. */
  function LastUse(history: seq<Event>, config: Config, key: string): (n: int)
    ensures -1 <= n < |history|
  {
    if history == [] then -1
    else if Used(history, config) == Some(key) then |history| - 1
    else LastUse(history[..|history| - 1], config, key)
  }

  /** Entries stand in descending rank. */
  ghost predicate Descending(entries: Cache, rank: string -> int) {
    forall i, j :: 0 <= i < j < |entries| ==> rank(entries[i].key) > rank(entries[j].key)
  }

  lemma DescendingCons(e: Entry<Cached>, rest: Cache, rank: string -> int)
    ensures Descending([e] + rest, rank)
            <==> Descending(rest, rank) && forall x :: x in rest ==> rank(e.key) > rank(x.key)
  {
    var all := [e] + rest;
    if Descending(all, rank) {
      forall i, j | 0 <= i < j < |rest| ensures rank(rest[i].key) > rank(rest[j].key) {
        assert rest[i] == all[i + 1] && rest[j] == all[j + 1];
      }
      forall x | x in rest ensures rank(e.key) > rank(x.key) {
        var i :| 0 <= i < |rest| && rest[i] == x;
        assert all[0] == e && all[i + 1] == x;
      }
    }
    if Descending(rest, rank) && forall x :: x in rest ==> rank(e.key) > rank(x.key) {
      forall i, j | 0 <= i < j < |all| ensures rank(all[i].key) > rank(all[j].key) {
        assert all[j] == rest[j - 1] && rest[j - 1] in rest;
        if i > 0 { assert all[i] == rest[i - 1]; }
      }
    }
  }

  lemma {:induction false} WithoutDescending(entries: Cache, key: string, rank: string -> int)
    requires Descending(entries, rank)
    ensures Descending(Without(entries, key), rank)
  {
    if entries != [] {
      var head, tail := entries[0], entries[1..];
      assert entries == [head] + tail;
      DescendingCons(head, tail, rank);
      WithoutDescending(tail, key, rank);
      DescendingCons(head, Without(tail, key), rank);
    }
  }

  /** An entry put in front with the highest rank keeps the order, whatever is cut off. */
  lemma PutDescending(entries: Cache, key: string, value: Cached, size: nat, rank: string -> int)
    requires Descending(Without(entries, key), rank)
    requires forall e :: e in Without(entries, key) ==> rank(key) > rank(e.key)
    ensures Descending(Put(entries, key, value, size), rank)
  {
    hide Without;
    var rest := Without(entries, key);
    DescendingCons(Entry(key, value), rest, rank);
  }

  function ByLastUse(history: seq<Event>, config: Config): string -> int {
    key => LastUse(history, config, key)
  }

  lemma DescendingCongruent(entries: Cache, rank1: string -> int, rank2: string -> int)
    requires Descending(entries, rank1)
    requires forall e :: e in entries ==> rank1(e.key) == rank2(e.key)
    ensures Descending(entries, rank2)
  {}

  /** A used key ranks above all others, which keep their rank. */
  lemma UsedRanks(history: seq<Event>, config: Config, before: Cache, key: string, value: Cached)
    requires history != [] && Used(history, config) == Some(key)
    requires Descending(before, ByLastUse(history[..|history| - 1], config))
    ensures Descending(Put(before, key, value, config.size), ByLastUse(history, config))
  {
    var front := history[..|history| - 1];
    hide Put, Used;
    WithoutDescending(before, key, ByLastUse(front, config));
    DescendingCongruent(Without(before, key), ByLastUse(front, config), ByLastUse(history, config));
    PutDescending(before, key, value, config.size, ByLastUse(history, config));
  }

  lemma UnusedRanks(history: seq<Event>, config: Config, entries: Cache)
    requires history != [] && Used(history, config).None?
    requires Descending(entries, ByLastUse(history[..|history| - 1], config))
    ensures Descending(entries, ByLastUse(history, config))
  {}

  /** In every history the entries stand by last use, latest first: what the size
      cuts off is the least recently used. */
  lemma {:induction false} CacheByLastUse(history: seq<Event>, config: Config)
    ensures Descending(CacheAfter(history, config), ByLastUse(history, config))
  {
    hide Put, Without, Peek, CacheKey, LastUse, ByLastUse, Descending;
    if history == [] {
      EmptyDescending(ByLastUse(history, config));
    } else {
      var front, last := history[..|history| - 1], history[|history| - 1];
      var before := CacheAfter(front, config);
      CacheByLastUse(front, config);
      match last
      case Lookup(now, r) =>
        var live := Live(before, CacheKey(r), now);
        if live.Some? {
          UsedRanks(history, config, before, CacheKey(r), live.value);
        } else {
          UnusedRanks(history, config, before);
        }
      case Store(now, r, token) =>
        UsedRanks(history, config, before, CacheKey(r), Cached(token, now + config.ttl));
      case Sweep(now, key) =>
        UnusedRanks(history, config, before);
        WithoutDescending(before, key, ByLastUse(front, config));
        UnusedRanks(history, config, Without(before, key));
    }
  }

  lemma EmptyDescending(rank: string -> int)
    ensures Descending([], rank)
  {}
}
