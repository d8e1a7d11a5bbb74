/** The Vault fetcher's cache-aside (provider/hashicorp_vault/fetcher.go). */
module VaultCache {
  import opened Text
  import opened Json
  import opened Kv
  import opened Lru

  datatype Request = Request(mount: string, path: string, version: string, field: string)

  /** `cacheKey` */
  function CacheKey(r: Request): string {
    r.mount + "/" + (r.path + "@" + (r.version + "#" + r.field))
  }

  // ----- when the key tells requests apart

  predicate IsSeparator(x: char) { x == '/' || x == '@' || x == '#' }

  /** Which of the three separators each component may hold. */
  datatype Allowed = Allowed(mount: set<char>, path: set<char>, version: set<char>, field: set<char>)

  predicate Within(s: string, allowed: set<char>) {
    forall i :: 0 <= i < |s| && IsSeparator(s[i]) ==> s[i] in allowed
  }

  predicate Admits(c: Allowed, r: Request) {
    Within(r.mount, c.mount) && Within(r.path, c.path) && Within(r.version, c.version) && Within(r.field, c.field)
  }

  ghost predicate KeyInjective(c: Allowed) {
    forall a, b :: Admits(c, a) && Admits(c, b) && CacheKey(a) == CacheKey(b) ==> a == b
  }

  /** The ways in which the three separators of one request can be read at other places
      as those of another. */
  predicate Confusable(c: Allowed) {
    || ('#' in c.version && '#' in c.field)
    || ('@' in c.path && '@' in c.version)
    || ({'@', '#'} <= c.path && {'@', '#'} <= c.field)
    || ('/' in c.mount && '/' in c.path)
    || ({'/', '@'} <= c.mount && {'/', '@'} <= c.version)
    || ({'/', '@'} <= c.mount && '/' in c.version && '#' in c.path && {'@', '#'} <= c.field)
    || ({'/', '@', '#'} <= c.mount && {'/', '@', '#'} <= c.field)
  }

  // where the separators stand in the key

  function SlashAt(r: Request): nat { |r.mount| }

  function AtAt(r: Request): nat { |r.mount| + 1 + |r.path| }

  function HashAt(r: Request): nat { |r.mount| + 1 + |r.path| + 1 + |r.version| }

  lemma SeparatorsStand(r: Request)
    ensures HashAt(r) < |CacheKey(r)|
    ensures CacheKey(r)[SlashAt(r)] == '/' && CacheKey(r)[AtAt(r)] == '@' && CacheKey(r)[HashAt(r)] == '#'
  {}

  lemma ComponentsOf(r: Request)
    ensures HashAt(r) < |CacheKey(r)|
    ensures r.mount == CacheKey(r)[..SlashAt(r)] && r.path == CacheKey(r)[SlashAt(r) + 1..AtAt(r)]
    ensures r.version == CacheKey(r)[AtAt(r) + 1..HashAt(r)] && r.field == CacheKey(r)[HashAt(r) + 1..]
  {}

  /** A separator elsewhere in the key is one that the component there may hold. */
  lemma SeparatorWithin(c: Allowed, r: Request, k: nat)
    requires Admits(c, r) && k < |CacheKey(r)| && IsSeparator(CacheKey(r)[k])
    ensures k < SlashAt(r) ==> CacheKey(r)[k] in c.mount
    ensures SlashAt(r) < k < AtAt(r) ==> CacheKey(r)[k] in c.path
    ensures AtAt(r) < k < HashAt(r) ==> CacheKey(r)[k] in c.version
    ensures HashAt(r) < k ==> CacheKey(r)[k] in c.field
  {
    ComponentsOf(r);
    var key := CacheKey(r);
    hide CacheKey;
    if k < SlashAt(r) {
      assert r.mount[k] == key[k];
    } else if SlashAt(r) < k < AtAt(r) {
      assert r.path[k - SlashAt(r) - 1] == key[k];
    } else if AtAt(r) < k < HashAt(r) {
      assert r.version[k - AtAt(r) - 1] == key[k];
    } else if HashAt(r) < k {
      assert r.field[k - HashAt(r) - 1] == key[k];
    }
  }

  /** The first separator that stands earlier in a than in b. */
  predicate Earlier(a: Request, b: Request) {
    || SlashAt(a) < SlashAt(b)
    || (SlashAt(a) == SlashAt(b) && AtAt(a) < AtAt(b))
    || (SlashAt(a) == SlashAt(b) && AtAt(a) == AtAt(b) && HashAt(a) < HashAt(b))
  }

  lemma EarlierConfuses(c: Allowed, a: Request, b: Request)
    requires Admits(c, a) && Admits(c, b) && CacheKey(a) == CacheKey(b) && Earlier(a, b)
    ensures Confusable(c)
  {
    SeparatorsStand(a);
    SeparatorsStand(b);
    hide CacheKey, Admits;
    SeparatorWithin(c, b, SlashAt(a));
    SeparatorWithin(c, b, AtAt(a));
    SeparatorWithin(c, b, HashAt(a));
    SeparatorWithin(c, a, SlashAt(b));
    SeparatorWithin(c, a, AtAt(b));
    SeparatorWithin(c, a, HashAt(b));
  }

  lemma SameKeySameRequest(c: Allowed, a: Request, b: Request)
    requires !Confusable(c) && Admits(c, a) && Admits(c, b) && CacheKey(a) == CacheKey(b)
    ensures a == b
  {
    hide CacheKey, Confusable, Admits;
    if Earlier(a, b) {
      EarlierConfuses(c, a, b);
    } else if Earlier(b, a) {
      EarlierConfuses(c, b, a);
    } else {
      ComponentsOf(a);
      ComponentsOf(b);
    }
  }

  lemma Collisions()
    ensures CacheKey(Request("", "", "", "#")) == CacheKey(Request("", "", "#", ""))
    ensures CacheKey(Request("", "", "@", "")) == CacheKey(Request("", "@", "", ""))
    ensures CacheKey(Request("", "", "", "@#")) == CacheKey(Request("", "@#", "", ""))
    ensures CacheKey(Request("", "/", "", "")) == CacheKey(Request("/", "", "", ""))
    ensures CacheKey(Request("", "", "/@", "")) == CacheKey(Request("/@", "", "", ""))
    ensures CacheKey(Request("", "", "/", "@#")) == CacheKey(Request("/@", "#", "", ""))
    ensures CacheKey(Request("", "", "", "/@#")) == CacheKey(Request("/@#", "", "", ""))
  {}

  /** In a confusable class two requests share a key. */
  lemma ConfusablesCollide(c: Allowed) returns (a: Request, b: Request)
    requires Confusable(c)
    ensures Admits(c, a) && Admits(c, b) && a != b && CacheKey(a) == CacheKey(b)
  {
    Collisions();
    hide CacheKey;
    if '#' in c.version && '#' in c.field {
      a, b := Request("", "", "", "#"), Request("", "", "#", "");
    } else if '@' in c.path && '@' in c.version {
      a, b := Request("", "", "@", ""), Request("", "@", "", "");
    } else if {'@', '#'} <= c.path && {'@', '#'} <= c.field {
      a, b := Request("", "", "", "@#"), Request("", "@#", "", "");
    } else if '/' in c.mount && '/' in c.path {
      a, b := Request("", "/", "", ""), Request("/", "", "", "");
    } else if {'/', '@'} <= c.mount && {'/', '@'} <= c.version {
      a, b := Request("", "", "/@", ""), Request("/@", "", "", "");
    } else if {'/', '@'} <= c.mount && '/' in c.version && '#' in c.path && {'@', '#'} <= c.field {
      a, b := Request("", "", "/", "@#"), Request("/@", "#", "", "");
    } else {
      a, b := Request("", "", "", "/@#"), Request("/@#", "", "", "");
    }
  }

  /** For every choice of the separators each component may hold, the key tells the
      requests of the class apart exactly when the class is not confusable. */
  lemma KeyInjectiveIff(c: Allowed)
    ensures KeyInjective(c) <==> !Confusable(c)
  {
    hide CacheKey, Confusable, Admits;
    if Confusable(c) {
      var a, b := ConfusablesCollide(c);
    } else {
      forall a, b | Admits(c, a) && Admits(c, b) && CacheKey(a) == CacheKey(b) ensures a == b {
        SameKeySameRequest(c, a, b);
      }
    }
  }

  // ----- one fetch

  /** What Vault itself gives for the request: read, then extract. */
  function Direct(r: Request, answer: Answer): Result<string> {
    match ReadKv(answer)
    case Err(error) => Err(error)
    case Ok(data) => ExtractField(data, r.field)
  }

  type Cache = seq<Entry<string>>

  /** The cache after looking a request up: a hit becomes the most recently used entry. */
  function LookedUp(cache: Cache, size: nat, r: Request): Cache {
    match Peek(cache, CacheKey(r))
    case Some(value) => Put(cache, CacheKey(r), value, size)
    case None => cache
  }

  /** The cache after Vault answered a request: only a value is stored. */
  function Stored(cache: Cache, size: nat, r: Request, answer: Answer): Cache {
    match Direct(r, answer)
    case Ok(value) => Put(cache, CacheKey(r), value, size)
    case Err(_) => cache
  }

  /** What a fetch returns, given what the cache held and what Vault answers on a miss. */
  function ResultOf(cache: Cache, r: Request, answer: Answer): Result<string> {
    match Peek(cache, CacheKey(r))
    case Some(value) => Ok(value)
    case None => Direct(r, answer)
  }

  class Fetcher {
    const size: nat
    var cache: Cache

    constructor (size: nat)
      requires size > 0
      ensures this.size == size && cache == []
    {
      this.size := size;
      cache := [];
    }

    /** `lru.Cache.Get` */
    method Get(r: Request) returns (value: Option<string>)
      modifies this
      ensures value == Peek(old(cache), CacheKey(r)) && cache == LookedUp(old(cache), size, r)
    {
      value := Peek(cache, CacheKey(r));
      if value.Some? {
        cache := Put(cache, CacheKey(r), value.value, size);
      }
    }

    /** `FetchSecret`; `answer` is what Vault would say if it were asked now. */
    method FetchSecret(r: Request, answer: Answer) returns (result: Result<string>)
      modifies this
      ensures result == ResultOf(old(cache), r, answer)
      ensures Peek(old(cache), CacheKey(r)).Some? ==> result == Ok(Peek(old(cache), CacheKey(r)).value)
      ensures Peek(old(cache), CacheKey(r)).None? ==>
                if answer.Data? then result == ExtractField(answer.data, r.field) else result.Err?
      ensures cache == if Peek(old(cache), CacheKey(r)).Some? then LookedUp(old(cache), size, r)
                       else Stored(LookedUp(old(cache), size, r), size, r, answer)
    {
      var cached := Get(r);
      if cached.Some? {
        return Ok(cached.value);
      }
      var data := ReadKv(answer);
      if data.Err? {
        return Err(data.error);
      }
      var value := ExtractField(data.value, r.field);
      if value.Err? {
        return Err(value.error);
      }
      cache := Put(cache, CacheKey(r), value.value, size);
      return Ok(value.value);
    }
  }

  // ----- whole histories, fetches overlapping freely

  /** The cache's two atomic operations.  A fetch looks up and, on a miss, stores
      some time later what Vault then answered; other fetches act in between. */
  datatype Event = Lookup(request: Request) | Store(request: Request, answer: Answer)

  function Step(cache: Cache, size: nat, event: Event): Cache {
    match event
    case Lookup(r) => LookedUp(cache, size, r)
    case Store(r, answer) => Stored(cache, size, r, answer)
  }

  /** The cache after a history, from an empty one. */
  function CacheAfter(history: seq<Event>, size: nat): Cache {
    if history == [] then [] else Step(CacheAfter(history[..|history| - 1], size), size, history[|history| - 1])
  }

  /** The j-th event stored the entry: Vault answered it with this value. */
  ghost predicate StoredBy(history: seq<Event>, j: int, e: Entry<string>) {
    && 0 <= j < |history| && history[j].Store? && CacheKey(history[j].request) == e.key
    && Direct(history[j].request, history[j].answer) == Ok(e.value)
  }

  /** Every entry holds a value that Vault returned earlier under its key; errors are
      never cached. */
  lemma {:induction false} EntriesStored(history: seq<Event>, size: nat, e: Entry<string>)
    requires e in CacheAfter(history, size)
    ensures exists j :: StoredBy(history, j, e)
  {
    var n := |history| - 1;
    var front, last := history[..n], history[n];
    var before, key := CacheAfter(front, size), CacheKey(last.request);
    if last.Lookup? && Peek(before, key).Some? {
      PutMembers(before, key, Peek(before, key).value, size);
    }
    if last.Store? && Direct(last.request, last.answer).Ok? {
      PutMembers(before, key, Direct(last.request, last.answer).value, size);
    }
    if e in before {
      EntriesStored(front, size, e);
      var j :| StoredBy(front, j, e);
      assert StoredBy(history, j, e);
    } else {
      assert StoredBy(history, n, e);
    }
  }

  /** The requests of a history and one more all belong to the class. */
  ghost predicate AllAdmitted(c: Allowed, history: seq<Event>, r: Request) {
    Admits(c, r) && forall k :: 0 <= k < |history| ==> Admits(c, history[k].request)
  }

  /** After every interleaving of any number of fetches and any evictions, a value
      served from the cache is one that Vault returned for a request with the same
      key, and, in a class that is not confusable, for that very request. */
  lemma ServedValueReturned(history: seq<Event>, size: nat, r: Request, c: Allowed)
    requires Peek(CacheAfter(history, size), CacheKey(r)).Some?
    ensures var value := Peek(CacheAfter(history, size), CacheKey(r)).value;
            && (exists j :: StoredBy(history, j, Entry(CacheKey(r), value)))
            && (!Confusable(c) && AllAdmitted(c, history, r) ==>
                  exists j :: 0 <= j < |history| && history[j].Store? && history[j].request == r
                              && Direct(r, history[j].answer) == Ok(value))
  {
    hide CacheAfter, CacheKey, Confusable, Admits, Direct;
    var e := Entry(CacheKey(r), Peek(CacheAfter(history, size), CacheKey(r)).value);
    EntriesStored(history, size, e);
    var j :| StoredBy(history, j, e);
    if !Confusable(c) && AllAdmitted(c, history, r) {
      SameKeySameRequest(c, history[j].request, r);
      assert Direct(r, history[j].answer) == Ok(e.value);
    }
  }

  /** Over a Vault that does not change, every fetch of such requests equals reading and
      extracting directly, whatever was cached or evicted before. */
  lemma UnchangingVaultTransparent(history: seq<Event>, size: nat, r: Request, c: Allowed, vault: Request -> Answer)
    requires forall k :: 0 <= k < |history| && history[k].Store? ==> history[k].answer == vault(history[k].request)
    requires !Confusable(c) && AllAdmitted(c, history, r)
    ensures ResultOf(CacheAfter(history, size), r, vault(r)) == Direct(r, vault(r))
  {
    hide CacheAfter, CacheKey, Direct;
    if Peek(CacheAfter(history, size), CacheKey(r)).Some? {
      ServedValueReturned(history, size, r, c);
    }
  }

  // ----- what the cache serves

  /** The keys served or stored, in order: a lookup counts when its key is among the
      `size` used last. */
  function Uses(history: seq<Event>, size: nat): seq<string> {
    if history == [] then []
    else
      var n := |history| - 1;
      var front, last := history[..n], history[n];
      var used := if last.Lookup? then CacheKey(last.request) in Take(Recency(Uses(front, size)), size)
                  else Direct(last.request, last.answer).Ok?;
      Uses(front, size) + if used then [CacheKey(last.request)] else []
  }

  /** The cache holds exactly the `size` keys used most recently, latest first, so
      Vault is asked again exactly for the others. */
  lemma {:induction false} CacheHoldsMostRecent(history: seq<Event>, size: nat)
    requires size > 0
    ensures Keys(CacheAfter(history, size)) == Take(Recency(Uses(history, size)), size)
  {
    if history != [] {
      var n := |history| - 1;
      var front, last := history[..n], history[n];
      var before, key := CacheAfter(front, size), CacheKey(last.request);
      CacheHoldsMostRecent(front, size);
      hide Put, Recency, CacheKey, Direct;
      if last.Lookup? && Peek(before, key).Some? {
        PutKeepsRecency(before, Uses(front, size), key, Peek(before, key).value, size);
      } else if last.Store? && Direct(last.request, last.answer).Ok? {
        PutKeepsRecency(before, Uses(front, size), key, Direct(last.request, last.answer).value, size);
      } else {
        assert Uses(front, size) + [] == Uses(front, size);
      }
    }
  }

  /** What Vault last returned for the key, errors aside. */
  function LatestStored(history: seq<Event>, key: string): Option<string> {
    if history == [] then None
    else
      var last := history[|history| - 1];
      if last.Store? && CacheKey(last.request) == key && Direct(last.request, last.answer).Ok? then
        Some(Direct(last.request, last.answer).value)
      else LatestStored(history[..|history| - 1], key)
  }

  /** A key that is held holds what Vault last returned for it. */
  lemma {:induction false} HeldIsLatest(history: seq<Event>, size: nat, key: string)
    requires size > 0
    ensures Peek(CacheAfter(history, size), key).Some? ==>
              Peek(CacheAfter(history, size), key) == LatestStored(history, key)
  {
    if history != [] {
      var n := |history| - 1;
      var front, last := history[..n], history[n];
      var before, used := CacheAfter(front, size), CacheKey(last.request);
      HeldIsLatest(front, size, key);
      hide Put, Peek, CacheKey, Direct;
      if last.Lookup? && Peek(before, used).Some? {
        PeekPut(before, used, Peek(before, used).value, size, key);
      } else if last.Store? && Direct(last.request, last.answer).Ok? {
        PeekPut(before, used, Direct(last.request, last.answer).value, size, key);
      }
    }
  }

  /** What a fetch returns after any history: what Vault last returned for the key while
      that is among the `size` keys used last, otherwise what Vault says now. */
  lemma FetchReturns(history: seq<Event>, size: nat, r: Request, answer: Answer)
    requires size > 0
    ensures var held := CacheKey(r) in Take(Recency(Uses(history, size)), size);
            && (held ==> LatestStored(history, CacheKey(r)).Some?)
            && ResultOf(CacheAfter(history, size), r, answer)
               == if held then Ok(LatestStored(history, CacheKey(r)).value) else Direct(r, answer)
  {
    CacheHoldsMostRecent(history, size);
    HeldIsLatest(history, size, CacheKey(r));
    hide CacheAfter, Keys, Recency, Uses, LatestStored, CacheKey, Direct;
  }

  /** What was just stored is served next, whatever Vault would say. */
  lemma StoredIsServed(history: seq<Event>, size: nat, r: Request, answer: Answer, later: Answer)
    requires size > 0 && Direct(r, answer).Ok?
    ensures ResultOf(CacheAfter(history + [Store(r, answer)], size), r, later) == Direct(r, answer)
  {
    hide Direct, CacheKey, Put, Peek;
    var all := history + [Store(r, answer)];
    assert all[..|all| - 1] == history;
    PeekPut(CacheAfter(history, size), CacheKey(r), Direct(r, answer).value, size, "");
  }

  /** With a slash in a mount two requests that read different places share a key,
      and the second is served the first one's value. */
  lemma SharedKeyServesOther(size: nat, data1: Object, data2: Object) returns (r1: Request, r2: Request)
    requires size > 0
    ensures QueryFor(r1.mount, r1.path, r1.version) != QueryFor(r2.mount, r2.path, r2.version)
    ensures var history := [Lookup(r1), Store(r1, Data(data1))];
            && ResultOf(CacheAfter(history, size), r2, Data(data2)) == Ok(Marshal(data1))
            && Direct(r2, Data(data2)) == Ok(Marshal(data2))
  {
    r1, r2 := Request("a", "a/a", "", ""), Request("a/a", "a", "", "");
    SlashCollides();
    SlashPathsDiffer();
    hide CacheKey, Marshal, BuildPath;
    var first, both := [Lookup(r1)], [Lookup(r1), Store(r1, Data(data1))];
    assert first[..0] == [] && both[..1] == first;
    assert CacheAfter(first, size) == [];
    assert Put([], CacheKey(r1), Marshal(data1), size) == [Entry(CacheKey(r1), Marshal(data1))];
    assert CacheAfter(both, size) == [Entry(CacheKey(r1), Marshal(data1))];
  }

  lemma SlashCollides()
    ensures CacheKey(Request("a", "a/a", "", "")) == CacheKey(Request("a/a", "a", "", ""))
  {}

  lemma SlashPathsDiffer()
    ensures BuildPath("a", "a/a") != BuildPath("a/a", "a")
  {
    TrimLeftAt("a", IsSlash, 0);
    TrimRightAt("a", IsSlash, 1);
    TrimLeftAt("a/a", IsSlash, 0);
    TrimRightAt("a/a", IsSlash, 3);
    PathNormalForm("a", "a/a");
    PathNormalForm("a/a", "a");
    assert BuildPath("a", "a/a")[2] == 'd';
    assert BuildPath("a/a", "a")[2] == 'a';
  }
}
