/** The two fixed-window limiters and the expiring Redis counter they share.

    Time is counted in milliseconds. A client reads the clock and increments in one step. */
module RateLimit {
  import opened Options
  import opened Text
  import opened TextLaws

  // ---------------------------------------------------------------- the expiring counter

  datatype Entry = Entry(count: nat, expiresAt: Option<nat>)

  type Entries = map<string, Entry>

  predicate Alive(entries: Entries, key: string, now: nat) {
    key in entries && (entries[key].expiresAt.None? || now < entries[key].expiresAt.value)
  }

  function Live(entries: Entries, key: string, now: nat): nat {
    if Alive(entries, key, now) then entries[key].count else 0
  }

  function Incremented(entries: Entries, key: string, now: nat): Entries {
    entries[key := Entry(Live(entries, key, now) + 1,
                         if Alive(entries, key, now) then entries[key].expiresAt else None)]
  }

  function WithExpiry(entries: Entries, key: string, seconds: nat, now: nat): Entries {
    if Alive(entries, key, now) then entries[key := entries[key].(expiresAt := Some(now + 1000 * seconds))] else entries
  }

  /** One limiter hit: the counter goes up, and the first hit sets the expiry. */
  function HitEntries(entries: Entries, key: string, seconds: nat, now: nat): Entries {
    var after := Incremented(entries, key, now);
    if after[key].count == 1 then WithExpiry(after, key, seconds, now) else after
  }

  class Redis {
    var entries: Entries

    constructor ()
      ensures entries == map[]
    {
      entries := map[];
    }

    method Incr(key: string, now: nat) returns (count: nat)
      modifies this
      ensures entries == Incremented(old(entries), key, now)
      ensures count == Live(entries, key, now) == Live(old(entries), key, now) + 1
    {
      count := Live(entries, key, now) + 1;
      var expiry := if Alive(entries, key, now) then entries[key].expiresAt else None;
      entries := entries[key := Entry(count, expiry)];
    }

    method Expire(key: string, seconds: nat, now: nat)
      modifies this
      ensures entries == WithExpiry(old(entries), key, seconds, now)
    {
      if Alive(entries, key, now) {
        entries := entries[key := entries[key].(expiresAt := Some(now + 1000 * seconds))];
      }
    }
  }

  // ---------------------------------------------------------------- scopes, buckets and keys

  /** Who is being counted: a caller of the whole application, or an organization using greetings. */
  datatype Scope = Http(client: string) | Greeting(org: nat)

  /** `window` is in seconds. */
  datatype Limit = Limit(window: nat, requests: int)

  const GREETING_LIMIT := Limit(3600, 1000)

  /** The settings of the application-wide limiter; a window below one second counts as one. */
  datatype Settings = Settings(windowSeconds: int, requests: int) {
    function HttpLimit(): (l: Limit)
      ensures l.window >= 1
    {
      Limit(if windowSeconds < 1 then 1 else windowSeconds, requests)
    }

    function LimitOf(scope: Scope): (l: Limit)
      ensures l.window >= 1
    {
      if scope.Http? then HttpLimit() else GREETING_LIMIT
    }
  }

  function Bucket(window: nat, now: nat): nat
    requires window >= 1
  {
    now / 1000 / window
  }

  function BucketStart(window: nat, bucket: nat): nat {
    1000 * (window * bucket)
  }

  lemma BucketBounds(window: nat, now: nat)
    requires window >= 1
    ensures BucketStart(window, Bucket(window, now)) <= now < BucketStart(window, Bucket(window, now) + 1)
  {
    var seconds := now / 1000;
    assert seconds == window * (seconds / window) + seconds % window;
    assert window * (seconds / window + 1) == window * (seconds / window) + window;
  }

  lemma StartMonotone(window: nat, low: nat, high: nat)
    requires low <= high
    ensures BucketStart(window, low) <= BucketStart(window, high)
  {
    assert window * high == window * low + window * (high - low);
  }

  lemma NextStart(window: nat, bucket: nat)
    ensures BucketStart(window, bucket + 1) == BucketStart(window, bucket) + 1000 * window
  {
    assert window * (bucket + 1) == window * bucket + window;
  }

  /** An instant lies before the end of a bucket exactly when its own bucket is no later. */
  lemma BucketOrder(window: nat, now: nat, bucket: nat)
    requires window >= 1
    ensures now < BucketStart(window, bucket + 1) <==> Bucket(window, now) <= bucket
  {
    BucketBounds(window, now);
    if Bucket(window, now) <= bucket {
      StartMonotone(window, Bucket(window, now) + 1, bucket + 1);
    } else {
      StartMonotone(window, bucket + 1, Bucket(window, now));
    }
  }

  function Key(scope: Scope, bucket: nat): string {
    match scope
    case Http(client) => "ratelimit:" + client + ":" + Decimal(bucket)
    case Greeting(org) => "greeting_ratelimit:" + Decimal(org) + ":" + Decimal(bucket)
  }

  lemma NoLaterColon(a: string, x: string, i: nat)
    requires ':' !in x && |a| < i < |a| + 1 + |x|
    ensures (a + ":" + x)[i] != ':'
  {
    assert (a + ":" + x)[i] == x[i - |a| - 1];
  }

  lemma LastColon(a: string, b: string, x: string, y: string)
    requires a + ":" + x == b + ":" + y && ':' !in x && ':' !in y
    ensures a == b && x == y
  {
    var whole := a + ":" + x;
    if |a| < |b| {
      NoLaterColon(a, x, |b|);
      assert false;
    }
    if |b| < |a| {
      NoLaterColon(b, y, |a|);
      assert false;
    }
    assert whole[..|a|] == a && whole[|a| + 1..] == x && whole[..|b|] == b && whole[|b| + 1..] == y;
  }

  lemma KeyStart(s: Scope, b: nat)
    ensures Key(s, b) != "" && Key(s, b)[0] == if s.Http? then 'r' else 'g'
  {
  }

  /** Whatever a client calls itself, colons and digits included, no two counters share a key. */
  lemma KeyInjective(s: Scope, b: nat, s': Scope, b': nat)
    requires Key(s, b) == Key(s', b')
    ensures s == s' && b == b'
  {
    KeyStart(s, b);
    KeyStart(s', b');
    var p := if s.Http? then "ratelimit:" else "greeting_ratelimit:";
    var body := if s.Http? then s.client else Decimal(s.org);
    var body' := if s'.Http? then s'.client else Decimal(s'.org);
    LastColon(p + body, p + body', Decimal(b), Decimal(b'));
    assert body == (p + body)[|p|..] == (p + body')[|p|..] == body';
    DecimalInjective(b, b');
    if s.Greeting? {
      DecimalInjective(s.org, s'.org);
    }
  }

  // ---------------------------------------------------------------- the limiters

  /** The answer to the TTL query that a rejected request makes; None when that query failed. */
  function RetryAfter(reply: Option<int>, window: nat): int {
    if reply.None? then window else if reply.value < 1 then 1 else reply.value
  }

  datatype Decision = Passed | Rejected(retryAfterSeconds: int)

  predicate Exempt(path: string) {
    "/healthz" <= path || "/readyz" <= path || "/version" <= path || "/static" <= path || "/metrics" <= path
  }

  /** The first forwarded address, else the socket peer, else a constant. */
  function ClientId(forwardedFor: Option<string>, peer: Option<string>): string {
    if forwardedFor.Some? && forwardedFor.value != "" then Strip(Split(forwardedFor.value, ',')[0])
    else if peer.Some? then peer.value
    else "unknown"
  }

  /** The text before the first comma of the header, or all of it, without the white space at its ends. */
  ghost predicate FirstAddress(header: string, address: string) {
    exists first, rest :: SplitsAtComma(header, first, rest) && Trims(first, address)
  }

  predicate SplitsAtComma(header: string, first: string, rest: string) {
    header == first + rest && ',' !in first && (rest == "" || rest[0] == ',')
  }

  /** Who is counted: the first forwarded address whatever the peer; without a header the peer; without
      both `unknown`. */
  lemma ClientExact(forwardedFor: Option<string>, peer: Option<string>, client: string)
    ensures ClientId(forwardedFor, peer) == client <==>
            if forwardedFor.Some? && forwardedFor.value != "" then FirstAddress(forwardedFor.value, client)
            else if peer.Some? then client == peer.value
            else client == "unknown"
  {
    hide Strip, Split, Trims, SplitsAtComma;
    if forwardedFor.Some? && forwardedFor.value != "" {
      var header := forwardedFor.value;
      var first := Split(header, ',')[0];
      var rest := FirstPart(header);
      StripExact(first, client);
      if FirstAddress(header, client) {
        var first', rest' :| SplitsAtComma(header, first', rest') && Trims(first', client);
        OneFirstPart(header, first, rest, first', rest');
      }
    }
  }

  lemma FirstPart(header: string) returns (rest: string)
    ensures SplitsAtComma(header, Split(header, ',')[0], rest)
  {
    hide IndexOf;
    var i := IndexOf(header, ',');
    rest := header[i..];
  }

  lemma OneFirstPart(header: string, a: string, x: string, b: string, y: string)
    requires SplitsAtComma(header, a, x) && SplitsAtComma(header, b, y)
    ensures a == b
  {
    assert forall k :: 0 <= k < |a| ==> header[k] == a[k];
    assert forall k :: 0 <= k < |b| ==> header[k] == b[k];
    assert x != "" ==> header[|a|] == x[0];
    assert y != "" ==> header[|b|] == y[0];
    assert |a| == |b|;
    assert a == header[..|a|] && b == header[..|b|];
  }

  /** Within a bucket two forwarded requests share a counter exactly if their first addresses agree,
      whatever their peers. */
  lemma SharedCounter(header: string, peer: Option<string>, header': string, peer': Option<string>, bucket: nat)
    requires header != "" && header' != ""
    ensures Key(Http(ClientId(Some(header), peer)), bucket) == Key(Http(ClientId(Some(header'), peer')), bucket)
            <==> exists address :: FirstAddress(header, address) && FirstAddress(header', address)
  {
    hide Key, ClientId, FirstAddress;
    var client, client' := ClientId(Some(header), peer), ClientId(Some(header'), peer');
    ClientExact(Some(header), peer, client);
    ClientExact(Some(header'), peer', client');
    ClientExact(Some(header), peer, client');
    ClientExact(Some(header'), peer', client);
    if Key(Http(client), bucket) == Key(Http(client'), bucket) {
      KeyInjective(Http(client), bucket, Http(client'), bucket);
    }
    if address :| FirstAddress(header, address) && FirstAddress(header', address) {
      ClientExact(Some(header), peer, address);
      ClientExact(Some(header'), peer', address);
    }
  }

  const EXEMPT_PREFIXES := ["/healthz", "/readyz", "/version", "/static", "/metrics"]

  lemma ExemptExact(path: string)
    ensures Exempt(path) <==> exists k :: 0 <= k < 5 && EXEMPT_PREFIXES[k] <= path
  {
    var p := EXEMPT_PREFIXES;
    assert p[0] == "/healthz" && p[1] == "/readyz" && p[2] == "/version" && p[3] == "/static" && p[4] == "/metrics";
    assert Exempt(path) <==> p[0] <= path || p[1] <= path || p[2] <= path || p[3] <= path || p[4] <= path;
  }

  /** The limits in force: the settings for callers of the application, with a window of at least a
      second, and 1000 an hour for an organisation's greetings. */
  lemma LimitsInForce(s: Settings, client: string, org: nat)
    ensures s.LimitOf(Http(client)).requests == s.requests
    ensures s.LimitOf(Http(client)).window >= 1 && s.LimitOf(Http(client)).window >= s.windowSeconds
    ensures s.LimitOf(Http(client)).window == 1 || s.LimitOf(Http(client)).window == s.windowSeconds
    ensures s.LimitOf(Greeting(org)).window == 60 * 60 && s.LimitOf(Greeting(org)).requests == 1000
  {
  }

  method Dispatch(redis: Redis, settings: Settings, path: string, forwardedFor: Option<string>, peer: Option<string>,
                  now: nat, ttlReply: Option<int>)
    returns (decision: Decision)
    modifies redis
    ensures Exempt(path) ==> decision == Passed && redis.entries == old(redis.entries)
    ensures !Exempt(path) ==>
              var l := settings.HttpLimit();
              var key := Key(Http(ClientId(forwardedFor, peer)), Bucket(l.window, now));
              && redis.entries == HitEntries(old(redis.entries), key, l.window, now)
              && decision == (if Live(old(redis.entries), key, now) < l.requests then Passed
                              else Rejected(RetryAfter(ttlReply, l.window)))
  {
    hide Exempt, Decimal, Strip, Split, Incremented, WithExpiry;
    if Exempt(path) {
      return Passed;
    }
    var window := if settings.windowSeconds < 1 then 1 else settings.windowSeconds;
    var bucket := now / 1000 / window;
    var key := "ratelimit:" + ClientId(forwardedFor, peer) + ":" + Decimal(bucket);
    var count := redis.Incr(key, now);
    if count == 1 {
      redis.Expire(key, window, now);
    }
    if count > settings.requests {
      var ttl: int := window;
      if ttlReply.Some? {
        ttl := if ttlReply.value < 1 then 1 else ttlReply.value;
      }
      return Rejected(ttl);
    }
    return Passed;
  }

  method Check(redis: Redis, org: nat, now: nat, ttlReply: Option<int>) returns (decision: Decision)
    modifies redis
    ensures var key := Key(Greeting(org), Bucket(3600, now));
            && redis.entries == HitEntries(old(redis.entries), key, 3600, now)
            && decision == (if Live(old(redis.entries), key, now) < 1000 then Passed
                            else Rejected(RetryAfter(ttlReply, 3600)))
  {
    var bucket := now / 1000 / 3600;
    var key := "greeting_ratelimit:" + Decimal(org) + ":" + Decimal(bucket);
    var count := redis.Incr(key, now);
    if count == 1 {
      redis.Expire(key, 3600, now);
    }
    if count > 1000 {
      var ttl := 3600;
      if ttlReply.Some? {
        ttl := if ttlReply.value < 1 then 1 else ttlReply.value;
      }
      return Rejected(ttl);
    }
    return Passed;
  }

  // ---------------------------------------------------------------- runs over one shared store

  datatype Hit = Hit(scope: Scope, at: nat)

  predicate Ordered(hits: seq<Hit>) {
    forall i, j :: 0 <= i < j < |hits| ==> hits[i].at <= hits[j].at
  }

  function BucketOf(s: Settings, h: Hit): nat {
    Bucket(s.LimitOf(h.scope).window, h.at)
  }

  function StoreAfter(s: Settings, hits: seq<Hit>): Entries {
    if hits == [] then map[]
    else
      var h := hits[|hits| - 1];
      HitEntries(StoreAfter(s, hits[..|hits| - 1]), Key(h.scope, BucketOf(s, h)), s.LimitOf(h.scope).window, h.at)
  }

  /** What the store decides about a hit after a run; the limiters above decide the same. */
  predicate Admitted(s: Settings, hits: seq<Hit>, h: Hit) {
    Live(StoreAfter(s, hits), Key(h.scope, BucketOf(s, h)), h.at) < s.LimitOf(h.scope).requests
  }

  /** The full request history the counter stands in for. */
  function Count(s: Settings, hits: seq<Hit>, scope: Scope, bucket: nat): nat {
    if hits == [] then 0
    else
      var h := hits[|hits| - 1];
      Count(s, hits[..|hits| - 1], scope, bucket) + if h.scope == scope && BucketOf(s, h) == bucket then 1 else 0
  }

  /** When the first hit of a scope in a bucket happened. */
  function FirstHit(s: Settings, hits: seq<Hit>, scope: Scope, bucket: nat): nat
    requires Count(s, hits, scope, bucket) > 0
  {
    var before := hits[..|hits| - 1];
    if Count(s, before, scope, bucket) > 0 then FirstHit(s, before, scope, bucket) else hits[|hits| - 1].at
  }

  /** What the store knows about one bucket of one scope. */
  predicate Tracks(s: Settings, hits: seq<Hit>, entries: Entries, scope: Scope, bucket: nat) {
    var key := Key(scope, bucket);
    if Count(s, hits, scope, bucket) == 0 then key !in entries
    else
      var first := FirstHit(s, hits, scope, bucket);
      var window := s.LimitOf(scope).window;
      && key in entries
      && entries[key] == Entry(Count(s, hits, scope, bucket), Some(first + 1000 * window))
      && Bucket(window, first) == bucket
  }

  lemma OutlivesBucket(window: nat, first: nat, now: nat)
    requires window >= 1 && Bucket(window, first) == Bucket(window, now)
    ensures now < first + 1000 * window
  {
    BucketBounds(window, first);
    BucketBounds(window, now);
    NextStart(window, Bucket(window, now));
  }

  lemma HitTracked(entries: Entries, key: string, seconds: nat, now: nat)
    ensures HitEntries(entries, key, seconds, now).Keys == entries.Keys + {key}
    ensures forall k :: k in entries && k != key ==> HitEntries(entries, key, seconds, now)[k] == entries[k]
    ensures key !in entries ==> HitEntries(entries, key, seconds, now)[key] == Entry(1, Some(now + 1000 * seconds))
    ensures Alive(entries, key, now) && entries[key].count > 0 ==>
              HitEntries(entries, key, seconds, now)[key] == entries[key].(count := entries[key].count + 1)
  {
  }

  /** The counter of every bucket a client has hit is in the store, holds the number of those hits,
      and lives for one window from the first of them. */
  lemma {:induction false} StoreRefinesHistory(s: Settings, hits: seq<Hit>, scope: Scope, bucket: nat)
    requires Ordered(hits)
    ensures Tracks(s, hits, StoreAfter(s, hits), scope, bucket)
  {
    hide Bucket, Key, HitEntries;
    if hits != [] {
      var before := hits[..|hits| - 1];
      var h := hits[|hits| - 1];
      var key := Key(h.scope, BucketOf(s, h));
      var window := s.LimitOf(h.scope).window;
      StoreRefinesHistory(s, before, scope, bucket);
      HitTracked(StoreAfter(s, before), key, window, h.at);
      if h.scope == scope && BucketOf(s, h) == bucket {
        if Count(s, before, scope, bucket) > 0 {
          OutlivesBucket(window, FirstHit(s, before, scope, bucket), h.at);
        }
      } else if Key(scope, bucket) == key {
        KeyInjective(scope, bucket, h.scope, BucketOf(s, h));
      }
    }
  }

  lemma OrderedBefore(hits: seq<Hit>, h: Hit)
    requires Ordered(hits + [h])
    ensures Ordered(hits) && forall i :: 0 <= i < |hits| ==> hits[i].at <= h.at
  {
    var whole := hits + [h];
    forall i, j | 0 <= i < j < |hits| ensures hits[i].at <= hits[j].at {
      assert hits[i] == whole[i] && hits[j] == whole[j];
    }
    forall i | 0 <= i < |hits| ensures hits[i].at <= h.at {
      assert hits[i] == whole[i] && h == whole[|hits|];
    }
  }

  lemma LiveIsCount(s: Settings, hits: seq<Hit>, h: Hit)
    requires Ordered(hits + [h])
    ensures Live(StoreAfter(s, hits), Key(h.scope, BucketOf(s, h)), h.at) == Count(s, hits, h.scope, BucketOf(s, h))
  {
    OrderedBefore(hits, h);
    StoreRefinesHistory(s, hits, h.scope, BucketOf(s, h));
    if Count(s, hits, h.scope, BucketOf(s, h)) > 0 {
      OutlivesBucket(s.LimitOf(h.scope).window, FirstHit(s, hits, h.scope, BucketOf(s, h)), h.at);
    }
  }

  /** A request passes exactly when fewer than the limit of earlier requests of the same scope fall
      into its bucket. Expiry never loses a count that matters, and no other scope is involved. */
  lemma AdmissionIsHistorical(s: Settings, hits: seq<Hit>, h: Hit)
    requires Ordered(hits + [h])
    ensures Admitted(s, hits, h) <==> Count(s, hits, h.scope, BucketOf(s, h)) < s.LimitOf(h.scope).requests
  {
    LiveIsCount(s, hits, h);
  }

  /** The sub-run of one scope. */
  function Only(hits: seq<Hit>, scope: Scope): seq<Hit> {
    if hits == [] then []
    else
      var before := Only(hits[..|hits| - 1], scope);
      if hits[|hits| - 1].scope == scope then before + [hits[|hits| - 1]] else before
  }

  lemma CountAppend(s: Settings, hits: seq<Hit>, h: Hit, scope: Scope, bucket: nat)
    ensures Count(s, hits + [h], scope, bucket) ==
            Count(s, hits, scope, bucket) + if h.scope == scope && BucketOf(s, h) == bucket then 1 else 0
  {
    hide BucketOf;
    assert (hits + [h])[..|hits|] == hits;
  }

  lemma {:induction false} OnlyKeepsCount(s: Settings, hits: seq<Hit>, scope: Scope, bucket: nat)
    ensures Count(s, Only(hits, scope), scope, bucket) == Count(s, hits, scope, bucket)
  {
    hide BucketOf;
    if hits != [] {
      var before := hits[..|hits| - 1];
      OnlyKeepsCount(s, before, scope, bucket);
      if hits[|hits| - 1].scope == scope {
        CountAppend(s, Only(before, scope), hits[|hits| - 1], scope, bucket);
      }
    }
  }

  lemma {:induction false} OnlyOrdered(hits: seq<Hit>, scope: Scope, h: Hit)
    requires Ordered(hits + [h])
    ensures Ordered(Only(hits, scope) + [h])
  {
    OrderedBefore(hits, h);
    if hits != [] {
      var before := hits[..|hits| - 1];
      var last := hits[|hits| - 1];
      assert before + [last] == hits;
      assert Ordered(before + [last]);
      OnlyOrdered(before, scope, last);
      assert last.at <= h.at;
      if last.scope == scope {
        OrderedBefore(Only(before, scope), last);
        OrderedAppend(Only(before, scope) + [last], h);
      } else {
        OrderedBefore(Only(before, scope), last);
        OrderedAppend(Only(before, scope), h);
      }
    }
  }

  lemma OrderedAppend(hits: seq<Hit>, h: Hit)
    requires Ordered(hits) && forall i :: 0 <= i < |hits| ==> hits[i].at <= h.at
    ensures Ordered(hits + [h])
  {
  }

  lemma {:induction false} OnlyExact(hits: seq<Hit>, scope: Scope)
    ensures forall i :: 0 <= i < |Only(hits, scope)| ==> Only(hits, scope)[i].scope == scope
  {
    if hits != [] {
      OnlyExact(hits[..|hits| - 1], scope);
    }
  }

  /** Isolation: deleting every other client's requests from the run changes no decision of this one's. */
  lemma ScopesDoNotInterfere(s: Settings, hits: seq<Hit>, h: Hit)
    requires Ordered(hits + [h])
    ensures Admitted(s, hits, h) <==> Admitted(s, Only(hits, h.scope), h)
    ensures forall i :: 0 <= i < |Only(hits, h.scope)| ==> Only(hits, h.scope)[i].scope == h.scope
  {
    OnlyExact(hits, h.scope);
    OnlyKeepsCount(s, hits, h.scope, BucketOf(s, h));
    OnlyOrdered(hits, h.scope, h);
    LiveIsCount(s, hits, h);
    LiveIsCount(s, Only(hits, h.scope), h);
  }

  // ---------------------------------------------------------------- how much gets through

  function AdmittedIn(s: Settings, hits: seq<Hit>, scope: Scope, bucket: nat): nat {
    if hits == [] then 0
    else
      var before := hits[..|hits| - 1];
      var h := hits[|hits| - 1];
      AdmittedIn(s, before, scope, bucket)
      + if h.scope == scope && BucketOf(s, h) == bucket && Admitted(s, before, h) then 1 else 0
  }

  /** Admissions of one scope within one window length from `start`. */
  function AdmittedFrom(s: Settings, hits: seq<Hit>, scope: Scope, start: nat): nat {
    if hits == [] then 0
    else
      var before := hits[..|hits| - 1];
      var h := hits[|hits| - 1];
      AdmittedFrom(s, before, scope, start)
      + if h.scope == scope && start <= h.at < start + 1000 * s.LimitOf(scope).window && Admitted(s, before, h)
        then 1 else 0
  }

  function Capped(n: nat, limit: int): nat {
    if limit <= 0 then 0 else if n < limit then n else limit
  }

  lemma PrefixOrdered(hits: seq<Hit>)
    requires hits != [] && Ordered(hits)
    ensures Ordered(hits[..|hits| - 1]) && hits[..|hits| - 1] + [hits[|hits| - 1]] == hits
  {
  }

  /** Each bucket lets through all its requests up to the limit and not one more. */
  lemma {:induction false} AdmittedPerBucket(s: Settings, hits: seq<Hit>, scope: Scope, bucket: nat)
    requires Ordered(hits)
    ensures AdmittedIn(s, hits, scope, bucket) == Capped(Count(s, hits, scope, bucket), s.LimitOf(scope).requests)
  {
    if hits != [] {
      PrefixOrdered(hits);
      AdmittedPerBucket(s, hits[..|hits| - 1], scope, bucket);
      LiveIsCount(s, hits[..|hits| - 1], hits[|hits| - 1]);
    }
  }

  lemma TwoBuckets(window: nat, start: nat, now: nat)
    requires window >= 1 && start <= now < start + 1000 * window
    ensures Bucket(window, start) <= Bucket(window, now) <= Bucket(window, start) + 1
  {
    var b := Bucket(window, start);
    BucketBounds(window, start);
    NextStart(window, b + 1);
    BucketOrder(window, now, b + 1);
    if b > 0 {
      BucketOrder(window, now, b - 1);
    }
  }

  lemma {:induction false} IntervalWithinTwoBuckets(s: Settings, hits: seq<Hit>, scope: Scope, start: nat)
    ensures var b := Bucket(s.LimitOf(scope).window, start);
            AdmittedFrom(s, hits, scope, start) <= AdmittedIn(s, hits, scope, b) + AdmittedIn(s, hits, scope, b + 1)
  {
    if hits != [] {
      IntervalWithinTwoBuckets(s, hits[..|hits| - 1], scope, start);
      var h := hits[|hits| - 1];
      var window := s.LimitOf(scope).window;
      if h.scope == scope && start <= h.at < start + 1000 * window {
        TwoBuckets(window, start, h.at);
      }
    }
  }

  /** In any interval of one window length a scope gets at most twice its limit through. */
  lemma AtMostTwiceTheLimit(s: Settings, hits: seq<Hit>, scope: Scope, start: nat)
    requires Ordered(hits)
    ensures AdmittedFrom(s, hits, scope, start) <= 2 * Capped(|hits|, s.LimitOf(scope).requests)
  {
    hide Bucket, AdmittedFrom, AdmittedIn, Count;
    var b := Bucket(s.LimitOf(scope).window, start);
    IntervalWithinTwoBuckets(s, hits, scope, start);
    AdmittedPerBucket(s, hits, scope, b);
    AdmittedPerBucket(s, hits, scope, b + 1);
    CountAtMostLength(s, hits, scope, b);
    CountAtMostLength(s, hits, scope, b + 1);
  }

  lemma CountAtMostLength(s: Settings, hits: seq<Hit>, scope: Scope, bucket: nat)
    ensures Count(s, hits, scope, bucket) <= |hits|
  {
  }

  // ---------------------------------------------------------------- the factor two is reached

  function Repeat(h: Hit, n: nat): seq<Hit> {
    seq(n, i => h)
  }

  /** The instant lies on a bucket boundary. */
  predicate Aligned(window: nat, start: nat)
    requires window >= 1
  {
    start == BucketStart(window, Bucket(window, start))
  }

  /** The limit at `start`, and again at the next bucket boundary. */
  function Burst(s: Settings, scope: Scope, start: nat): seq<Hit>
    requires s.LimitOf(scope).requests >= 0
  {
    var l := s.LimitOf(scope);
    Repeat(Hit(scope, start), l.requests) + Repeat(Hit(scope, BucketStart(l.window, Bucket(l.window, start) + 1)), l.requests)
  }

  lemma AdmittedAppend(s: Settings, hits: seq<Hit>, h: Hit, start: nat)
    requires start <= h.at < start + 1000 * s.LimitOf(h.scope).window && Admitted(s, hits, h)
    ensures AdmittedFrom(s, hits + [h], h.scope, start) == AdmittedFrom(s, hits, h.scope, start) + 1
  {
    hide Admitted;
    assert (hits + [h])[..|hits|] == hits;
  }

  lemma {:induction false} AppendRepeated(s: Settings, hits: seq<Hit>, h: Hit, n: nat, start: nat)
    requires Ordered(hits + [h])
    requires start <= h.at < start + 1000 * s.LimitOf(h.scope).window
    requires Count(s, hits, h.scope, BucketOf(s, h)) + n <= s.LimitOf(h.scope).requests
    ensures Ordered(hits + Repeat(h, n) + [h])
    ensures AdmittedFrom(s, hits + Repeat(h, n), h.scope, start) == AdmittedFrom(s, hits, h.scope, start) + n
    ensures Count(s, hits + Repeat(h, n), h.scope, BucketOf(s, h)) == Count(s, hits, h.scope, BucketOf(s, h)) + n
  {
    hide Bucket, Admitted, Count, AdmittedFrom;
    var all := hits + Repeat(h, n);
    if n == 0 {
      assert all == hits;
    } else {
      var fewer := hits + Repeat(h, n - 1);
      assert all == fewer + [h];
      AppendRepeated(s, hits, h, n - 1, start);
      AdmissionIsHistorical(s, fewer, h);
      CountAppend(s, fewer, h, h.scope, BucketOf(s, h));
      AdmittedAppend(s, fewer, h, start);
      OrderedBefore(fewer, h);
      OrderedAppend(all, h);
    }
  }

  lemma {:induction false} CountElsewhere(s: Settings, h: Hit, n: nat, bucket: nat)
    requires BucketOf(s, h) != bucket
    ensures Count(s, Repeat(h, n), h.scope, bucket) == 0
  {
    if n > 0 {
      assert Repeat(h, n)[..n - 1] == Repeat(h, n - 1);
      CountElsewhere(s, h, n - 1, bucket);
    }
  }

  /** The promise of a rolling window does not hold: from every instant that is no bucket boundary,
      whatever the limit, some run gets twice that many requests through within one window length; all
      of them at that instant and at the next boundary, which may be a millisecond later. */
  lemma TwiceTheLimitIsReached(s: Settings, scope: Scope, start: nat)
    requires s.LimitOf(scope).requests >= 0 && !Aligned(s.LimitOf(scope).window, start)
    ensures Ordered(Burst(s, scope, start))
    ensures AdmittedFrom(s, Burst(s, scope, start), scope, start) == 2 * s.LimitOf(scope).requests
  {
    hide Admitted, Count, Bucket, BucketStart;
    var l := s.LimitOf(scope);
    var bucket := Bucket(l.window, start);
    var a, b := Hit(scope, start), Hit(scope, BucketStart(l.window, bucket + 1));
    var first := Repeat(a, l.requests);
    BucketBounds(l.window, start);
    NextStart(l.window, bucket);
    FirstHalf(s, scope, start);
    OrderedAppend(first, b);
    AppendRepeated(s, first, b, l.requests, start);
    OrderedBefore(first + Repeat(b, l.requests), b);
  }

  lemma NothingYet(s: Settings, scope: Scope, start: nat)
    ensures AdmittedFrom(s, [], scope, start) == 0 && forall bucket :: Count(s, [], scope, bucket) == 0
  {
  }

  lemma FirstHalf(s: Settings, scope: Scope, start: nat)
    requires s.LimitOf(scope).requests >= 0
    ensures var l := s.LimitOf(scope);
            var a, b := Hit(scope, start), Hit(scope, BucketStart(l.window, Bucket(l.window, start) + 1));
            var first := Repeat(a, l.requests);
            && Ordered(first) && (forall i :: 0 <= i < |first| ==> first[i].at == a.at)
            && AdmittedFrom(s, first, scope, start) == l.requests
            && Count(s, first, scope, BucketOf(s, b)) == 0
  {
    hide Bucket, Admitted, AdmittedFrom, BucketStart, Count;
    var l := s.LimitOf(scope);
    var bucket := Bucket(l.window, start);
    var a, b := Hit(scope, start), Hit(scope, BucketStart(l.window, bucket + 1));
    var first := Repeat(a, l.requests);
    assert [] + first == first && [] + [a] == [a];
    NothingYet(s, scope, start);
    AppendRepeated(s, [], a, l.requests, start);
    BucketOrder(l.window, b.at, bucket);
    CountElsewhere(s, a, l.requests, BucketOf(s, b));
  }

  // ---------------------------------------------------------------- when the rolling window holds

  /** One window length from a bucket boundary is the bucket. */
  lemma {:induction false} AlignedIsBucket(s: Settings, hits: seq<Hit>, scope: Scope, start: nat)
    requires Aligned(s.LimitOf(scope).window, start)
    ensures AdmittedFrom(s, hits, scope, start) == AdmittedIn(s, hits, scope, Bucket(s.LimitOf(scope).window, start))
  {
    hide Bucket, BucketStart, Admitted;
    if hits != [] {
      AlignedIsBucket(s, hits[..|hits| - 1], scope, start);
      var window, at := s.LimitOf(scope).window, hits[|hits| - 1].at;
      var bucket := Bucket(window, start);
      NextStart(window, bucket);
      BucketOrder(window, at, bucket);
      BucketBounds(window, at);
      if Bucket(window, at) < bucket {
        StartMonotone(window, Bucket(window, at) + 1, bucket);
      }
    }
  }

  lemma {:induction false} NothingAdmitted(s: Settings, hits: seq<Hit>, scope: Scope, start: nat)
    requires s.LimitOf(scope).requests <= 0
    ensures AdmittedFrom(s, hits, scope, start) == 0
  {
    if hits != [] {
      NothingAdmitted(s, hits[..|hits| - 1], scope, start);
    }
  }

  /** In every run, one window length from `start` keeps to the limit. */
  ghost predicate KeepsToLimit(s: Settings, scope: Scope, start: nat) {
    forall hits :: Ordered(hits) ==> AdmittedFrom(s, hits, scope, start) <= Capped(|hits|, s.LimitOf(scope).requests)
  }

  /** The rolling window is kept exactly from the bucket boundaries, or when nothing is let through at
      all. */
  lemma RollingWindowHoldsExactly(s: Settings, scope: Scope, start: nat)
    ensures KeepsToLimit(s, scope, start) <==> Aligned(s.LimitOf(scope).window, start) || s.LimitOf(scope).requests <= 0
  {
    hide Bucket, BucketStart, AdmittedFrom, AdmittedIn, Count, Aligned;
    var l := s.LimitOf(scope);
    if Aligned(l.window, start) || l.requests <= 0 {
      forall hits | Ordered(hits) ensures AdmittedFrom(s, hits, scope, start) <= Capped(|hits|, l.requests) {
        if l.requests <= 0 {
          NothingAdmitted(s, hits, scope, start);
        } else {
          AlignedIsBucket(s, hits, scope, start);
          AdmittedPerBucket(s, hits, scope, Bucket(l.window, start));
          CountAtMostLength(s, hits, scope, Bucket(l.window, start));
        }
      }
    } else {
      TwiceTheLimitIsReached(s, scope, start);
      assert AdmittedFrom(s, Burst(s, scope, start), scope, start) > l.requests;
    }
  }

  // ---------------------------------------------------------------- Retry-After

  predicate LandsLater(window: nat, now: nat, seconds: int)
    requires window >= 1
  {
    seconds >= 0 && Bucket(window, now + 1000 * seconds) > Bucket(window, now)
  }

  /** The store's reply to a TTL query: the remaining life to the nearest second, -1 without an expiry,
      -2 without the key. */
  function TtlReply(entries: Entries, key: string, now: nat): int {
    if !Alive(entries, key, now) then -2
    else if entries[key].expiresAt.None? then -1
    else (entries[key].expiresAt.value - now + 500) / 1000
  }

  /** The counter of the last request of a run. */
  function LastKey(s: Settings, run: seq<Hit>): string
    requires run != []
  {
    var h := run[|run| - 1];
    Key(h.scope, BucketOf(s, h))
  }

  /** When the bucket of the last request was first hit; by that request itself if by no other. */
  function FirstOfBucket(s: Settings, run: seq<Hit>): nat
    requires run != []
  {
    var h := run[|run| - 1];
    FirstHit(s, run, h.scope, BucketOf(s, h))
  }

  /** How long the counter of the last request still lives. */
  function Remaining(s: Settings, run: seq<Hit>): int
    requires run != []
  {
    var h := run[|run| - 1];
    FirstOfBucket(s, run) + 1000 * s.LimitOf(h.scope).window - h.at
  }

  /** What the last request is told to wait if it is rejected. */
  function Announced(s: Settings, run: seq<Hit>): int
    requires run != []
  {
    var h := run[|run| - 1];
    RetryAfter(Some(TtlReply(StoreAfter(s, run), LastKey(s, run), h.at)), s.LimitOf(h.scope).window)
  }

  lemma LandsLaterIff(window: nat, now: nat, seconds: int)
    requires window >= 1
    ensures LandsLater(window, now, seconds) <==>
              seconds >= 0 && now + 1000 * seconds >= BucketStart(window, Bucket(window, now)) + 1000 * window
  {
    hide Bucket, BucketStart;
    NextStart(window, Bucket(window, now));
    if seconds >= 0 {
      BucketOrder(window, now + 1000 * seconds, Bucket(window, now));
    }
  }

  lemma {:induction false} FirstHitNotLater(s: Settings, hits: seq<Hit>, scope: Scope, bucket: nat, now: nat)
    requires Count(s, hits, scope, bucket) > 0 && forall i :: 0 <= i < |hits| ==> hits[i].at <= now
    ensures FirstHit(s, hits, scope, bucket) <= now
  {
    if Count(s, hits[..|hits| - 1], scope, bucket) > 0 {
      FirstHitNotLater(s, hits[..|hits| - 1], scope, bucket, now);
    }
  }

  /** The counter of the last request is in the store and lives for one window from the first hit of
      its bucket, so the reply is its remaining life, rounded. */
  lemma LastCounter(s: Settings, run: seq<Hit>)
    requires run != [] && Ordered(run)
    ensures var h := run[|run| - 1];
            var window := s.LimitOf(h.scope).window;
            var start := BucketStart(window, BucketOf(s, h));
            && 0 < Remaining(s, run) <= 1000 * window
            && start <= FirstOfBucket(s, run) <= h.at < start + 1000 * window
            && TtlReply(StoreAfter(s, run), LastKey(s, run), h.at) == (Remaining(s, run) + 500) / 1000
  {
    hide Bucket, BucketStart, Key, StoreAfter;
    var h := run[|run| - 1];
    var window, bucket := s.LimitOf(h.scope).window, BucketOf(s, h);
    StoreRefinesHistory(s, run, h.scope, bucket);
    FirstHitNotLater(s, run, h.scope, bucket, h.at);
    OutlivesBucket(window, FirstHit(s, run, h.scope, bucket), h.at);
    BucketBounds(window, FirstHit(s, run, h.scope, bucket));
    BucketBounds(window, h.at);
    NextStart(window, bucket);
  }

  /** Waiting as long as announced reaches a later bucket for every request of every run, except
      exactly when the remaining life is rounded down and the bucket was first hit closer to its start
      than what the rounding drops. */
  lemma RetryAfterExact(s: Settings, run: seq<Hit>)
    requires run != [] && Ordered(run)
    ensures var h := run[|run| - 1];
            var window := s.LimitOf(h.scope).window;
            var r := Remaining(s, run);
            LandsLater(window, h.at, Announced(s, run)) <==>
              !(r >= 1000 && 1 <= r % 1000 < 500
                && FirstOfBucket(s, run) - BucketStart(window, BucketOf(s, h)) < r % 1000)
  {
    hide Bucket, BucketStart, StoreAfter, Key, TtlReply, FirstHit, Count;
    var h := run[|run| - 1];
    LastCounter(s, run);
    LandsLaterIff(s.LimitOf(h.scope).window, h.at, Announced(s, run));
  }

  /** A rejected request is told to wait between one second and one window; when the query fails it is
      told one window; and any reply that does not under-report the remaining life is sufficient. */
  lemma RetryAfterSufficient(s: Settings, run: seq<Hit>, reply: Option<int>)
    requires run != [] && Ordered(run)
    ensures var h := run[|run| - 1];
            var window := s.LimitOf(h.scope).window;
            && 1 <= Announced(s, run) <= window
            && (reply.None? || 1000 * reply.value >= Remaining(s, run) ==>
                  LandsLater(window, h.at, RetryAfter(reply, window)))
            && (reply.None? || 1000 * reply.value < Remaining(s, run) + 1000 ==> 1 <= RetryAfter(reply, window) <= window)
  {
    hide Bucket, BucketStart, StoreAfter, Key, TtlReply, FirstHit, Count;
    var h := run[|run| - 1];
    var window := s.LimitOf(h.scope).window;
    LastCounter(s, run);
    LandsLaterIff(window, h.at, RetryAfter(reply, window));
  }

  /** The exception happens: one request a minute, the first at the start of a minute, the next 0.6
      seconds later. 59.4 seconds remain, 59 are announced, and the client comes back in the same
      bucket. */
  lemma NearestSecondFallsShort()
    ensures var s := Settings(60, 1);
            var first, second := Hit(Http("a"), 0), Hit(Http("a"), 600);
            && Ordered([first, second])
            && !Admitted(s, [first], second)
            && Remaining(s, [first, second]) == 59_400 && Announced(s, [first, second]) == 59
            && !LandsLater(60, second.at, Announced(s, [first, second]))
  {
    hide StoreAfter, Key, TtlReply;
    var s := Settings(60, 1);
    var first, second := Hit(Http("a"), 0), Hit(Http("a"), 600);
    var run := [first, second];
    assert [first][..0] == [] && run[..1] == [first];
    assert Count(s, [first], second.scope, BucketOf(s, second)) == 1;
    assert [first] + [second] == run;
    AdmissionIsHistorical(s, [first], second);
    assert FirstHit(s, run, second.scope, BucketOf(s, second)) == FirstHit(s, [first], second.scope, BucketOf(s, second)) == 0;
    LastCounter(s, run);
    RetryAfterExact(s, run);
  }
}
