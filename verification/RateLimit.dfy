/** The per-client rate limiter, whose map forgets idle clients (internal/server/middleware.go). */
module RateLimit {
  const SWEEP_EVERY: real := 60.0
  const FORGET_AFTER: real := 180.0

  /** perSecond and burst of RateLimit. */
  datatype Limit = Limit(rate: real, burst: int)

  predicate Sensible(l: Limit) {
    l.rate >= 0.0
  }

  // ---------------------------------------------------------------- one token bucket

  /** golang.org/x/time/rate.Limiter over the reals: tokens at the time they were last taken. */
  datatype Bucket = Bucket(tokens: real, last: real)

  function Full(l: Limit, now: real): Bucket {
    Bucket(l.burst as real, now)
  }

  function Min(x: real, y: real): real {
    if x <= y then x else y
  }

  /** The tokens at time `now`. */
  function Level(l: Limit, b: Bucket, now: real): real {
    Min(l.burst as real, b.tokens + (if now < b.last then 0.0 else now - b.last) * l.rate)
  }

  /** Allow: takes a token if there is one; a refusal changes nothing. */
  function Take(l: Limit, b: Bucket, now: real): Bucket {
    if Level(l, b, now) >= 1.0 then Bucket(Level(l, b, now) - 1.0, now) else b
  }

  // ---------------------------------------------------------------- the map

  datatype Client = Client(limiter: Bucket, seen: real)
  datatype State = State(clients: map<string, Client>, lastSweep: real)

  /** The sweep at the head of get. With `evict` off, the map that never forgets. */
  function Swept(evict: bool, s: State, now: real): State {
    if evict && now - s.lastSweep > SWEEP_EVERY then
      State(map k | k in s.clients && now - s.clients[k].seen <= FORGET_AFTER :: s.clients[k], now)
    else s
  }

  function BucketOf(l: Limit, s: State, key: string, now: real): Bucket {
    if key in s.clients then s.clients[key].limiter else Full(l, now)
  }

  function Got(l: Limit, evict: bool, s: State, key: string, now: real): State {
    var w := Swept(evict, s, now);
    State(w.clients[key := Client(BucketOf(l, w, key, now), now)], w.lastSweep)
  }

  /** One request: get, then Allow on the limiter it returned. */
  function Served(l: Limit, evict: bool, s: State, key: string, now: real): State {
    var g := Got(l, evict, s, key, now);
    State(g.clients[key := Client(Take(l, g.clients[key].limiter, now), now)], g.lastSweep)
  }

  predicate Allowed(l: Limit, evict: bool, s: State, key: string, now: real) {
    Level(l, Got(l, evict, s, key, now).clients[key].limiter, now) >= 1.0
  }

  class IpLimiters {
    var clients: map<string, Client>
    var lastSweep: real
    const limit: Limit

    constructor (limit: Limit, now: real)
      ensures Now() == State(map[], now) && this.limit == limit
    {
      this.limit := limit;
      this.clients, this.lastSweep := map[], now;
    }

    function Now(): State
      reads this
    {
      State(clients, lastSweep)
    }

    /** get. The sweep visits the clients in any order. */
    method Get(key: string, now: real) returns (limiter: Bucket)
      modifies this
      ensures Now() == Got(limit, true, old(Now()), key, now)
      ensures limiter == clients[key].limiter
    {
      if now - lastSweep > SWEEP_EVERY {
        var left := clients.Keys;
        while left != {}
          invariant left <= old(clients).Keys
          invariant lastSweep == old(lastSweep)
          invariant forall k :: k in clients <==> k in old(clients) && (k in left || now - old(clients)[k].seen <= FORGET_AFTER)
          invariant forall k :: k in clients ==> clients[k] == old(clients)[k]
          decreases left
        {
          var k :| k in left;
          if now - clients[k].seen > FORGET_AFTER { clients := clients - {k}; }
          left := left - {k};
        }
        lastSweep := now;
        assert clients == Swept(true, old(Now()), now).clients;
      }
      limiter := Full(limit, now);
      if key in clients { limiter := clients[key].limiter; }
      clients := clients[key := Client(limiter, now)];
    }

    /** The middleware's decision for one request. */
    method Request(key: string, now: real) returns (allowed: bool)
      modifies this
      ensures Now() == Served(limit, true, old(Now()), key, now)
      ensures allowed == Allowed(limit, true, old(Now()), key, now)
    {
      var limiter := Get(key, now);
      allowed := Level(limit, limiter, now) >= 1.0;
      clients := clients[key := Client(Take(limit, limiter, now), now)];
    }
  }

  // ---------------------------------------------------------------- runs

  datatype Hit = Hit(key: string, at: real)

  /** Times do not go back, and start no earlier than `start`. */
  predicate Ordered(start: real, hits: seq<Hit>)
    decreases hits
  {
    hits == [] || (start <= hits[0].at && Ordered(hits[0].at, hits[1..]))
  }

  function Answers(l: Limit, evict: bool, s: State, hits: seq<Hit>): (r: seq<bool>)
    ensures |r| == |hits|
    decreases hits
  {
    if hits == [] then []
    else
      var next := Served(l, evict, s, hits[0].key, hits[0].at);
      [Allowed(l, evict, s, hits[0].key, hits[0].at)] + Answers(l, evict, next, hits[1..])
  }

  function After(l: Limit, evict: bool, s: State, hits: seq<Hit>): State
    decreases hits
  {
    if hits == [] then s else After(l, evict, Served(l, evict, s, hits[0].key, hits[0].at), hits[1..])
  }

  /** What every state at time `now` satisfies. */
  ghost predicate Valid(l: Limit, s: State, now: real) {
    && s.lastSweep <= now
    && (forall k :: k in s.clients ==> ValidClient(l, s.clients[k], now))
  }

  ghost predicate ValidClient(l: Limit, c: Client, now: real) {
    && c.limiter.last <= c.seen <= now
    && Min(0.0, l.burst as real) <= c.limiter.tokens <= l.burst as real
  }

  /** No client is kept longer than three minutes past its last request at a sweep. */
  ghost predicate Recent(s: State) {
    forall k :: k in s.clients ==> s.clients[k].seen >= s.lastSweep - FORGET_AFTER
  }

  lemma ServedIsValid(l: Limit, evict: bool, s: State, before: real, key: string, now: real)
    requires Sensible(l) && Valid(l, s, before) && before <= now
    ensures Valid(l, Served(l, evict, s, key, now), now)
  {
    var b := BucketOf(l, Swept(evict, s, now), key, now);
    RefillNotNegative(now - b.last, l.rate);
  }

  lemma RefillNotNegative(t: real, r: real)
    requires t >= 0.0 && r >= 0.0
    ensures t * r >= 0.0
  {
  }

  ghost predicate SeenSince(s: State, time: real) {
    forall k :: k in s.clients ==> s.clients[k].seen >= time
  }

  /** After each request, every stored client was seen within the last four minutes. */
  lemma MapIsBounded(l: Limit, s: State, before: real, key: string, now: real)
    requires Valid(l, s, before) && before <= now && Recent(s)
    ensures
      var t := Served(l, true, s, key, now);
      Recent(t) && SeenSince(t, now - 240.0)
  {
  }

  lemma {:induction false} MapStaysBounded(l: Limit, s: State, start: real, hits: seq<Hit>)
    requires Sensible(l) && Valid(l, s, start) && Recent(s) && Ordered(start, hits) && hits != []
    ensures SeenSince(After(l, true, s, hits), hits[|hits| - 1].at - 240.0)
    decreases hits
  {
    var h, rest := hits[0], hits[1..];
    var next := Served(l, true, s, h.key, h.at);
    ServedIsValid(l, true, s, start, h.key, h.at);
    MapIsBounded(l, s, start, h.key, h.at);
    assert After(l, true, s, hits) == After(l, true, next, rest);
    if rest == [] {
      assert After(l, true, next, rest) == next;
    } else {
      MapStaysBounded(l, next, h.at, rest);
    }
  }

  // ---------------------------------------------------------------- forgetting is invisible

  /** Two maps that hold the same tokens for every client, a missing client counting as full. */
  ghost predicate SameLevels(l: Limit, s: State, t: State, now: real) {
    forall k :: SameLevel(l, s, t, k, now)
  }

  ghost predicate SameLevel(l: Limit, s: State, t: State, k: string, now: real) {
    Level(l, BucketOf(l, s, k, now), now) == Level(l, BucketOf(l, t, k, now), now)
  }

  /** The tokens at one time determine those at any later time. */
  lemma LevelsAdvance(l: Limit, b: Bucket, t: real, u: real)
    requires Sensible(l) && b.last <= t <= u
    ensures Level(l, b, u) == Min(l.burst as real, Level(l, b, t) + (u - t) * l.rate)
  {
    var r := l.rate;
    assert (u - b.last) * r == (t - b.last) * r + (u - t) * r;
    RefillNotNegative(u - t, r);
  }

  lemma MapsAdvance(l: Limit, s: State, t: State, before: real, now: real)
    requires Sensible(l) && Valid(l, s, before) && Valid(l, t, before) && before <= now
    requires SameLevels(l, s, t, before)
    ensures SameLevels(l, s, t, now)
  {
    forall k ensures SameLevel(l, s, t, k, now) {
      assert SameLevel(l, s, t, k, before);
      ClientAdvances(l, s, k, before, now);
      ClientAdvances(l, t, k, before, now);
    }
  }

  lemma ClientAdvances(l: Limit, s: State, k: string, before: real, now: real)
    requires Sensible(l) && Valid(l, s, before) && before <= now
    ensures Level(l, BucketOf(l, s, k, now), now)
         == Min(l.burst as real, Level(l, BucketOf(l, s, k, before), before) + (now - before) * l.rate)
  {
    LevelsAdvance(l, BucketOf(l, s, k, before), before, now);
    RefillNotNegative(now - before, l.rate);
  }

  /** Three idle minutes fill a bucket, if they can. */
  lemma IdleIsFull(l: Limit, c: Client, now: real)
    requires Sensible(l) && l.burst as real <= 180.0 * l.rate
    requires ValidClient(l, c, now) && now - c.seen > 180.0
    ensures Level(l, c.limiter, now) == l.burst as real
  {
    var idle := now - c.limiter.last;
    RefillNotNegative(idle - FORGET_AFTER, l.rate);
    assert idle * l.rate == (idle - FORGET_AFTER) * l.rate + FORGET_AFTER * l.rate;
    RefillNotNegative(FORGET_AFTER, l.rate);
  }

  lemma SweepIsInvisible(l: Limit, s: State, t: State, now: real)
    requires Sensible(l) && l.burst as real <= FORGET_AFTER * l.rate
    requires Valid(l, s, now) && SameLevels(l, s, t, now)
    ensures SameLevels(l, Swept(true, s, now), t, now)
  {
    forall k ensures SameLevel(l, Swept(true, s, now), t, k, now) {
      assert SameLevel(l, s, t, k, now);
      if k in s.clients && now - s.clients[k].seen > FORGET_AFTER {
        IdleIsFull(l, s.clients[k], now);
      }
    }
  }

  lemma ValidLater(l: Limit, s: State, before: real, now: real)
    requires Valid(l, s, before) && before <= now
    ensures Valid(l, s, now)
  {
  }

  lemma RequestsAgree(l: Limit, s: State, t: State, before: real, key: string, now: real)
    requires Sensible(l) && l.burst as real <= FORGET_AFTER * l.rate
    requires Valid(l, s, before) && Valid(l, t, before) && before <= now && SameLevels(l, s, t, before)
    ensures Allowed(l, true, s, key, now) == Allowed(l, false, t, key, now)
    ensures SameLevels(l, Served(l, true, s, key, now), Served(l, false, t, key, now), now)
  {
    MapsAdvance(l, s, t, before, now);
    ValidLater(l, s, before, now);
    SweepIsInvisible(l, s, t, now);
    var w := Swept(true, s, now);
    assert SameLevel(l, w, t, key, now);
    var u, v := Served(l, true, s, key, now), Served(l, false, t, key, now);
    forall k ensures SameLevel(l, u, v, k, now) {
      assert SameLevel(l, w, t, k, now);
    }
  }

  lemma {:induction false} AnswersAgree(l: Limit, s: State, t: State, start: real, hits: seq<Hit>)
    requires Sensible(l) && l.burst as real <= FORGET_AFTER * l.rate
    requires Valid(l, s, start) && Valid(l, t, start) && SameLevels(l, s, t, start) && Ordered(start, hits)
    ensures Answers(l, true, s, hits) == Answers(l, false, t, hits)
    decreases hits
  {
    if hits != [] {
      var h := hits[0];
      RequestsAgree(l, s, t, start, h.key, h.at);
      ServedIsValid(l, true, s, start, h.key, h.at);
      ServedIsValid(l, false, t, start, h.key, h.at);
      AnswersAgree(l, Served(l, true, s, h.key, h.at), Served(l, false, t, h.key, h.at), h.at, hits[1..]);
    }
  }

  // ---------------------------------------------------------------- unless the bucket is too big

  /** `n` requests of one client at one time. */
  function Volley(key: string, at: real, n: nat): seq<Hit> {
    seq(n, i => Hit(key, at))
  }

  predicate AllTrue(answers: seq<bool>) {
    forall i :: 0 <= i < |answers| ==> answers[i]
  }

  /** Without a sweep, they are all allowed exactly when the bucket holds as many tokens. */
  lemma {:induction false} VolleyAllowed(l: Limit, evict: bool, s: State, key: string, at: real, n: nat)
    requires Swept(evict, s, at) == s
    ensures AllTrue(Answers(l, evict, s, Volley(key, at, n))) <==> n == 0 || Level(l, BucketOf(l, s, key, at), at) >= n as real
    decreases n
  {
    if n > 0 {
      var hits := Volley(key, at, n);
      assert hits[1..] == Volley(key, at, n - 1);
      var next := Served(l, evict, s, key, at);
      var answers := Answers(l, evict, s, hits);
      assert answers[1..] == Answers(l, evict, next, hits[1..]);
      VolleyAllowed(l, evict, next, key, at, n - 1);
      FirstAndRest(answers);
      TakesOne(l, evict, s, key, at);
    }
  }

  /** A request is allowed exactly when its client has a token left, and takes one then. No
      other client's bucket changes. More than a minute after the last sweep all clients are
      forgotten that were not seen in the last three minutes, and never any other. */
  lemma TakesOne(l: Limit, evict: bool, s: State, key: string, at: real)
    ensures
      var w, t := Swept(evict, s, at), Served(l, evict, s, key, at);
      var level := Level(l, BucketOf(l, w, key, at), at);
      && (Allowed(l, evict, s, key, at) <==> level >= 1.0)
      && key in t.clients && t.clients[key].seen == at
      && Level(l, t.clients[key].limiter, at) == (if level >= 1.0 then level - 1.0 else level)
      && (forall k :: k in t.clients && k != key ==> k in s.clients && t.clients[k] == s.clients[k])
      && (forall k :: k in s.clients && k != key ==>
            (k !in t.clients <==> evict && at - s.lastSweep > 60.0 && at - s.clients[k].seen > 180.0))
      && t.lastSweep == (if evict && at - s.lastSweep > 60.0 then at else s.lastSweep)
      && Swept(evict, t, at) == t
  {
    LevelNow(l, Served(l, evict, s, key, at).clients[key].limiter);
  }

  lemma FirstAndRest(answers: seq<bool>)
    requires answers != []
    ensures AllTrue(answers) <==> answers[0] && AllTrue(answers[1..])
  {
    if answers[0] && AllTrue(answers[1..]) {
      forall i | 0 <= i < |answers| ensures answers[i] {
        if i > 0 { assert answers[i] == answers[1..][i - 1]; }
      }
    }
  }

  /** Nothing is refilled at the time of the last request, nor before it. */
  lemma LevelNow(l: Limit, b: Bucket)
    ensures forall now :: now <= b.last ==> Level(l, b, now) == Min(l.burst as real, b.tokens)
  {
  }

  lemma TakeDrains(l: Limit, evict: bool, s: State, key: string, at: real)
    requires s.lastSweep == at && BucketOf(l, s, key, at).last == at && Level(l, BucketOf(l, s, key, at), at) >= 1.0
    ensures
      var t := Served(l, evict, s, key, at);
      && t.lastSweep == at && key in t.clients && t.clients[key].seen == at
      && t.clients[key].limiter.last == at
      && Level(l, t.clients[key].limiter, at) == Level(l, BucketOf(l, s, key, at), at) - 1.0
  {
    LevelNow(l, Served(l, evict, s, key, at).clients[key].limiter);
  }

  /** What a volley on a new map leaves. */
  lemma {:induction false} VolleyDrains(l: Limit, evict: bool, s: State, key: string, at: real, n: nat)
    requires s.lastSweep == at && Level(l, BucketOf(l, s, key, at), at) >= n as real
    requires BucketOf(l, s, key, at).last == at
    ensures
      var t := After(l, evict, s, Volley(key, at, n));
      && t.lastSweep == at
      && (n > 0 ==> key in t.clients && t.clients[key].seen == at)
      && BucketOf(l, t, key, at).last == at
      && Level(l, BucketOf(l, t, key, at), at) == Level(l, BucketOf(l, s, key, at), at) - n as real
    decreases n
  {
    if n > 0 {
      assert Volley(key, at, n)[1..] == Volley(key, at, n - 1);
      TakeDrains(l, evict, s, key, at);
      VolleyDrains(l, evict, Served(l, evict, s, key, at), key, at, n - 1);
    }
  }

  lemma {:induction false} AnswersInTwoParts(l: Limit, evict: bool, s: State, a: seq<Hit>, b: seq<Hit>)
    ensures Answers(l, evict, s, a + b) == Answers(l, evict, s, a) + Answers(l, evict, After(l, evict, s, a), b)
    decreases a
  {
    if a == [] {
      assert a + b == b;
    } else {
      assert (a + b)[1..] == a[1..] + b;
      AnswersInTwoParts(l, evict, Served(l, evict, s, a[0].key, a[0].at), a[1..], b);
    }
  }

  lemma {:induction false} VolleyIsOrdered(start: real, key: string, at: real, n: nat, rest: seq<Hit>)
    requires start <= at && Ordered(at, rest)
    ensures Ordered(start, Volley(key, at, n) + rest)
    decreases n
  {
    var hits := Volley(key, at, n) + rest;
    if n == 0 {
      assert hits == rest;
    } else {
      assert hits[1..] == Volley(key, at, n - 1) + rest;
      VolleyIsOrdered(at, key, at, n - 1, rest);
    }
  }

  function New(start: real): State {
    State(map[], start)
  }

  /** A client that drained its bucket comes back just after it was forgotten. */
  function Return(l: Limit, start: real): real
    requires Sensible(l)
  {
    start + FORGET_AFTER + (l.burst as real - FORGET_AFTER * l.rate) / (2.0 * (l.rate + 1.0))
  }

  lemma ReturnsTooEarly(l: Limit, start: real)
    requires Sensible(l) && l.burst as real > FORGET_AFTER * l.rate
    ensures Return(l, start) - start > FORGET_AFTER
    ensures (Return(l, start) - start) * l.rate < l.burst as real
  {
    var r := l.rate;
    var short := l.burst as real - FORGET_AFTER * r;
    var extra := short / (2.0 * (r + 1.0));
    assert extra * (2.0 * (r + 1.0)) == short;
    assert extra > 0.0;
    assert extra * (2.0 * (r + 1.0)) == 2.0 * (extra * r) + 2.0 * extra;
    assert (FORGET_AFTER + extra) * r == FORGET_AFTER * r + extra * r;
  }

  lemma Forgotten(l: Limit, s: State, key: string, at: real, n: nat)
    requires n > 0 && n == l.burst && at - s.lastSweep > SWEEP_EVERY
    requires key in s.clients && at - s.clients[key].seen > FORGET_AFTER
    ensures AllTrue(Answers(l, true, s, Volley(key, at, n)))
  {
    var w := Swept(true, s, at);
    var hits := Volley(key, at, n);
    assert Served(l, true, s, key, at) == Served(l, true, w, key, at);
    assert Answers(l, true, s, hits) == Answers(l, true, w, hits);
    VolleyAllowed(l, true, w, key, at, n);
    LevelNow(l, Full(l, at));
  }

  lemma Remembered(l: Limit, s: State, key: string, start: real, at: real, n: nat)
    requires Sensible(l) && n == l.burst && n > 0 && start <= at && (at - start) * l.rate < l.burst as real
    requires key in s.clients && s.clients[key].limiter.last == start && Level(l, s.clients[key].limiter, start) == 0.0
    ensures !AllTrue(Answers(l, false, s, Volley(key, at, n)))
  {
    VolleyAllowed(l, false, s, key, at, n);
    LevelsAdvance(l, s.clients[key].limiter, start, at);
  }

  lemma TwoVolleys(key: string, start: real, at: real, n: nat)
    requires start <= at
    ensures Ordered(start, Volley(key, start, n) + Volley(key, at, n))
  {
    var b := Volley(key, at, n);
    VolleyIsOrdered(start, key, at, n, []);
    assert b + [] == b;
    VolleyIsOrdered(start, key, start, n, b);
  }

  lemma TailsDiffer(l: Limit, s: State, a: seq<Hit>, b: seq<Hit>)
    requires Answers(l, true, After(l, true, s, a), b) != Answers(l, false, After(l, false, s, a), b)
    ensures Answers(l, true, s, a + b) != Answers(l, false, s, a + b)
  {
    AnswersInTwoParts(l, true, s, a, b);
    AnswersInTwoParts(l, false, s, a, b);
    assert Answers(l, true, s, a + b)[|a|..] == Answers(l, true, After(l, true, s, a), b);
    assert Answers(l, false, s, a + b)[|a|..] == Answers(l, false, After(l, false, s, a), b);
  }

  lemma BigBucketsShow(l: Limit, start: real)
    requires Sensible(l) && l.burst as real > FORGET_AFTER * l.rate
    ensures exists hits :: Ordered(start, hits) && Answers(l, true, New(start), hits) != Answers(l, false, New(start), hits)
  {
    RefillNotNegative(FORGET_AFTER, l.rate);
    var n: nat, at, key := l.burst, Return(l, start), "client";
    ReturnsTooEarly(l, start);
    var a, b := Volley(key, start, n), Volley(key, at, n);
    TwoVolleys(key, start, at, n);
    LevelNow(l, Full(l, start));
    VolleyDrains(l, true, New(start), key, start, n);
    VolleyDrains(l, false, New(start), key, start, n);
    Forgotten(l, After(l, true, New(start), a), key, at, n);
    Remembered(l, After(l, false, New(start), a), key, start, at, n);
    TailsDiffer(l, New(start), a, b);
  }

  /** The map that forgets answers every sequence of requests like one that never does, exactly
      when three minutes are enough to fill a bucket. */
  lemma ForgettingIsInvisible(l: Limit, start: real)
    requires Sensible(l)
    ensures (forall hits :: Ordered(start, hits) ==> Answers(l, true, New(start), hits) == Answers(l, false, New(start), hits))
       <==> l.burst as real <= 180.0 * l.rate
  {
    if l.burst as real <= FORGET_AFTER * l.rate {
      forall hits | Ordered(start, hits) ensures Answers(l, true, New(start), hits) == Answers(l, false, New(start), hits) {
        AnswersAgree(l, New(start), New(start), start, hits);
      }
    } else {
      BigBucketsShow(l, start);
    }
  }
}
