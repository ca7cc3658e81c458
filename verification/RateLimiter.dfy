/** The fixed-window rate limiter with amortised eviction (workspace/pipeline_assist.go). */
module RateLimiter {
  import opened Basics

  type Key = string

  /** At most max events per window of `window` clock units. */
  datatype Limit = Limit(max: int, window: int)

  datatype Bucket = Bucket(start: int, count: nat)

  type Buckets = map<Key, Bucket>

  datatype Call = Call(key: Key, now: int)

  predicate Expired(l: Limit, b: Bucket, now: int) {
    now - b.start >= l.window
  }

  predicate OpensWindow(l: Limit, b: Option<Bucket>, now: int) {
    b.None? || Expired(l, b.value, now)
  }

  // ---- The limiter and one that never evicts ----

  datatype Answer = Answer(buckets: Buckets, allowed: bool)

  function Evicted(l: Limit, bs: Buckets, now: int): Buckets {
    bs - (set k | k in bs && Expired(l, bs[k], now))
  }

  function Decide(l: Limit, bs: Buckets, c: Call): Answer {
    if l.max <= 0 then Answer(bs, true)
    else if OpensWindow(l, Lookup(bs, c.key), c.now) then
      Answer(Evicted(l, bs, c.now)[c.key := Bucket(c.now, 1)], true)
    else if bs[c.key].count >= l.max then Answer(bs, false)
    else Answer(bs[c.key := bs[c.key].(count := bs[c.key].count + 1)], true)
  }

  function DecideKeeping(l: Limit, bs: Buckets, c: Call): Answer {
    if l.max <= 0 then Answer(bs, true)
    else if OpensWindow(l, Lookup(bs, c.key), c.now) then Answer(bs[c.key := Bucket(c.now, 1)], true)
    else if bs[c.key].count >= l.max then Answer(bs, false)
    else Answer(bs[c.key := bs[c.key].(count := bs[c.key].count + 1)], true)
  }

  function Answers(l: Limit, bs: Buckets, calls: seq<Call>): (r: seq<bool>)
    ensures |r| == |calls|
    decreases |calls|
  {
    if calls == [] then []
    else
      var a := Decide(l, bs, calls[0]);
      [a.allowed] + Answers(l, a.buckets, calls[1..])
  }

  function AnswersKeeping(l: Limit, bs: Buckets, calls: seq<Call>): (r: seq<bool>)
    ensures |r| == |calls|
    decreases |calls|
  {
    if calls == [] then []
    else
      var a := DecideKeeping(l, bs, calls[0]);
      [a.allowed] + AnswersKeeping(l, a.buckets, calls[1..])
  }

  /** Clock readings in lock order, from `since` on. */
  predicate Ordered(calls: seq<Call>, since: int) {
    && (forall i :: 0 <= i < |calls| ==> since <= calls[i].now)
    && (forall i, j :: 0 <= i < j < |calls| ==> calls[i].now <= calls[j].now)
  }

  lemma OrderedTail(calls: seq<Call>, since: int)
    requires Ordered(calls, since) && calls != []
    ensures Ordered(calls[1..], calls[0].now)
  {
  }

  // ---- Eviction is invisible ----

  /** `bs` is `all` without some buckets that have expired by `now`. */
  ghost predicate Pruned(l: Limit, bs: Buckets, all: Buckets, now: int) {
    && (forall k :: k in bs ==> k in all && all[k] == bs[k])
    && (forall k :: k in all && k !in bs ==> Expired(l, all[k], now))
  }

  lemma PrunedStep(l: Limit, bs: Buckets, all: Buckets, since: int, c: Call)
    requires Pruned(l, bs, all, since) && since <= c.now
    ensures Decide(l, bs, c).allowed == DecideKeeping(l, all, c).allowed
    ensures Pruned(l, Decide(l, bs, c).buckets, DecideKeeping(l, all, c).buckets, c.now)
  {
  }

  /** Evicting expired buckets changes no answer, for any calls on an ordered clock. */
  lemma {:induction false} EvictionInvisible(l: Limit, bs: Buckets, all: Buckets, since: int, calls: seq<Call>)
    requires Pruned(l, bs, all, since) && Ordered(calls, since)
    ensures Answers(l, bs, calls) == AnswersKeeping(l, all, calls)
    decreases |calls|
  {
    if calls != [] {
      PrunedStep(l, bs, all, since, calls[0]);
      OrderedTail(calls, since);
      EvictionInvisible(l, Decide(l, bs, calls[0]).buckets, DecideKeeping(l, all, calls[0]).buckets, calls[0].now, calls[1..]);
    }
  }

  // ---- How many events an interval can see ----

  /** Events of key allowed in [from, until). */
  function Passed(calls: seq<Call>, answers: seq<bool>, key: Key, from: int, until: int): nat
    requires |answers| == |calls|
    decreases |calls|
  {
    if calls == [] then 0
    else
      (if answers[0] && calls[0].key == key && from <= calls[0].now < until then 1 else 0)
      + Passed(calls[1..], answers[1..], key, from, until)
  }

  /** Every bucket holds an event, no more than max, and started by `now`. */
  ghost predicate Counted(l: Limit, bs: Buckets, now: int) {
    forall k :: k in bs ==> 1 <= bs[k].count <= l.max && bs[k].start <= now
  }

  /** What [from, from + window) can still see once the clock has reached `from`. */
  ghost function Room(l: Limit, b: Option<Bucket>, from: int): int {
    if b.None? then l.max
    else if b.value.start < from then 2 * l.max - b.value.count
    else if b.value.start < from + l.window then l.max - b.value.count
    else 0
  }

  lemma RoomShrinks(l: Limit, bs: Buckets, c: Call, key: Key, from: int)
    requires l.max >= 1 && Counted(l, bs, c.now) && from <= c.now
    ensures var a := DecideKeeping(l, bs, c);
            var seen := if a.allowed && c.key == key && c.now < from + l.window then 1 else 0;
            Counted(l, a.buckets, c.now) && seen + Room(l, Lookup(a.buckets, key), from) <= Room(l, Lookup(bs, key), from)
  {
  }

  lemma {:induction false} RoomBounds(l: Limit, bs: Buckets, calls: seq<Call>, since: int, key: Key, from: int)
    requires l.max >= 1 && Counted(l, bs, since) && Ordered(calls, since) && from <= since
    ensures Passed(calls, AnswersKeeping(l, bs, calls), key, from, from + l.window) <= Room(l, Lookup(bs, key), from)
    decreases |calls|
  {
    if calls != [] {
      var a := DecideKeeping(l, bs, calls[0]);
      RoomShrinks(l, bs, calls[0], key, from);
      OrderedTail(calls, since);
      RoomBounds(l, a.buckets, calls[1..], calls[0].now, key, from);
      assert AnswersKeeping(l, bs, calls)[1..] == AnswersKeeping(l, a.buckets, calls[1..]);
    }
  }

  lemma {:induction false} KeepingBound(l: Limit, bs: Buckets, calls: seq<Call>, since: int, key: Key, from: int)
    requires l.max >= 1 && Counted(l, bs, since) && Ordered(calls, since)
    ensures Passed(calls, AnswersKeeping(l, bs, calls), key, from, from + l.window) <= 2 * l.max - 1
    decreases |calls|
  {
    if calls != [] {
      if from <= calls[0].now {
        RoomBounds(l, bs, calls, calls[0].now, key, from);
      } else {
        var a := DecideKeeping(l, bs, calls[0]);
        assert Counted(l, a.buckets, calls[0].now);
        OrderedTail(calls, since);
        KeepingBound(l, a.buckets, calls[1..], calls[0].now, key, from);
        assert AnswersKeeping(l, bs, calls)[1..] == AnswersKeeping(l, a.buckets, calls[1..]);
      }
    }
  }

  /** However the calls fall, no interval of one window length sees more than 2 max - 1
      events of a key. */
  lemma WindowBound(l: Limit, calls: seq<Call>, since: int, key: Key, from: int)
    requires l.max >= 1 && Ordered(calls, since)
    ensures Passed(calls, Answers(l, map[], calls), key, from, from + l.window) <= 2 * l.max - 1
  {
    EvictionInvisible(l, map[], map[], since, calls);
    KeepingBound(l, map[], calls, since, key, from);
  }

  // ---- The bound is met ----

  function Repeat(c: Call, n: nat): (s: seq<Call>)
    ensures |s| == n && forall i :: 0 <= i < n ==> s[i] == c
  {
    seq(n, _ => c)
  }

  /** n more events at one moment pass while the bucket has room for them. */
  lemma {:induction false} BurstPasses(l: Limit, key: Key, b: Bucket, now: int, n: nat, rest: seq<Call>, from: int, until: int)
    requires l.max >= 1 && !Expired(l, b, now) && b.count + n <= l.max && from <= now < until
    ensures var calls := Repeat(Call(key, now), n) + rest;
            var after := map[key := b.(count := b.count + n)];
            Passed(calls, AnswersKeeping(l, map[key := b], calls), key, from, until) ==
            n + Passed(rest, AnswersKeeping(l, after, rest), key, from, until)
    decreases n
  {
    var c := Call(key, now);
    var calls := Repeat(c, n) + rest;
    if n == 0 {
      assert calls == rest;
    } else {
      var next := b.(count := b.count + 1);
      assert calls[0] == c && calls[1..] == Repeat(c, n - 1) + rest;
      assert DecideKeeping(l, map[key := b], c) == Answer(map[key := next], true);
      BurstPasses(l, key, next, now, n - 1, rest, from, until);
      assert AnswersKeeping(l, map[key := b], calls)[1..] == AnswersKeeping(l, map[key := next], calls[1..]);
    }
  }

  /** One event opens a window, max - 1 follow just before it closes and max more just
      after: 2 max - 1 events in a row, within one window length. */
  function WorstCase(l: Limit, key: Key): seq<Call>
    requires l.max >= 1 && l.window >= 2
  {
    [Call(key, 0)] + (Repeat(Call(key, l.window - 1), l.max - 1) + ([Call(key, l.window)] + Repeat(Call(key, l.window), l.max - 1)))
  }

  lemma WorstCaseOrdered(l: Limit, key: Key)
    requires l.max >= 1 && l.window >= 2
    ensures Ordered(WorstCase(l, key), 0)
  {
  }

  /** The max events after the window closed. */
  lemma SecondBurst(l: Limit, key: Key, until: int)
    requires l.max >= 1 && l.window >= 2 && l.window < until
    ensures var tail := [Call(key, l.window)] + Repeat(Call(key, l.window), l.max - 1);
            Passed(tail, AnswersKeeping(l, map[key := Bucket(0, l.max)], tail), key, l.window - 1, until) == l.max
  {
    var w, start := l.window, map[key := Bucket(0, l.max)];
    var late := Repeat(Call(key, w), l.max - 1);
    var tail := [Call(key, w)] + late;
    var again := map[key := Bucket(w, 1)];
    assert tail[1..] == late;
    assert DecideKeeping(l, start, tail[0]) == Answer(again, true);
    assert AnswersKeeping(l, start, tail)[1..] == AnswersKeeping(l, again, late);
    assert late + [] == late;
    BurstPasses(l, key, Bucket(w, 1), w, l.max - 1, [], w - 1, until);
  }

  lemma WindowBoundIsTight(l: Limit, key: Key)
    requires l.max >= 1 && l.window >= 2
    ensures var calls := WorstCase(l, key);
            && Ordered(calls, 0)
            && Passed(calls, Answers(l, map[], calls), key, l.window - 1, 2 * l.window - 1) == 2 * l.max - 1
  {
    var w, until := l.window, 2 * l.window - 1;
    var tail := [Call(key, w)] + Repeat(Call(key, w), l.max - 1);
    var calls, one := WorstCase(l, key), map[key := Bucket(0, 1)];
    WorstCaseOrdered(l, key);
    EvictionInvisible(l, map[], map[], 0, calls);
    assert calls[0] == Call(key, 0) && calls[1..] == Repeat(Call(key, w - 1), l.max - 1) + tail;
    assert DecideKeeping(l, map[], calls[0]) == Answer(one, true);
    assert AnswersKeeping(l, map[], calls)[1..] == AnswersKeeping(l, one, calls[1..]);
    BurstPasses(l, key, Bucket(0, 1), w - 1, l.max - 1, tail, w - 1, until);
    SecondBurst(l, key, until);
  }

  // ---- A refusal is earned ----

  /** What the bucket remembers of the window an event at `now` would fall in. */
  ghost function Credit(l: Limit, b: Option<Bucket>, now: int): nat {
    if OpensWindow(l, b, now) then 0 else b.value.count
  }

  lemma {:induction false} KeepingRefusal(l: Limit, bs: Buckets, calls: seq<Call>, since: int, i: nat)
    requires l.max >= 1 && Counted(l, bs, since) && Ordered(calls, since) && i < |calls| && !AnswersKeeping(l, bs, calls)[i]
    ensures var c := calls[i];
            Credit(l, Lookup(bs, c.key), c.now)
            + Passed(calls[..i], AnswersKeeping(l, bs, calls)[..i], c.key, c.now - l.window + 1, c.now + 1) >= l.max
    decreases |calls|
  {
    if i > 0 {
      var a, c := DecideKeeping(l, bs, calls[0]), calls[i];
      var all := AnswersKeeping(l, bs, calls);
      OrderedTail(calls, since);
      assert calls[0].now <= c.now;
      assert Counted(l, a.buckets, calls[0].now);
      assert calls[1..][i - 1] == c && all[1..][i - 1] == all[i];
      KeepingRefusal(l, a.buckets, calls[1..], calls[0].now, i - 1);
      assert calls[..i][1..] == calls[1..][..i - 1] && all[..i][1..] == all[1..][..i - 1];
      assert all[1..] == AnswersKeeping(l, a.buckets, calls[1..]);
    }
  }

  /** An event is refused only after max events of its key passed within the last window. */
  lemma RefusalIsEarned(l: Limit, calls: seq<Call>, since: int, i: nat)
    requires l.max >= 1 && Ordered(calls, since) && i < |calls| && !Answers(l, map[], calls)[i]
    ensures var c := calls[i];
            Passed(calls[..i], Answers(l, map[], calls)[..i], c.key, c.now - l.window + 1, c.now + 1) >= l.max
  {
    EvictionInvisible(l, map[], map[], since, calls);
    KeepingRefusal(l, map[], calls, since, i);
  }

  // ---- As it runs ----

  class MemoryRateLimiter {
    const max: int
    const window: int
    var buckets: Buckets

    constructor (max: int, window: int)
      ensures this.max == max && this.window == window && buckets == map[]
    {
      this.max, this.window, buckets := max, window, map[];
    }

    method Allow(key: Key, now: int) returns (allowed: bool)
      modifies this
      ensures Answer(buckets, allowed) == Decide(Limit(max, window), old(buckets), Call(key, now))
    {
      if max <= 0 { return true; }
      if key !in buckets || now - buckets[key].start >= window {
        EvictExpired(now);
        buckets := buckets[key := Bucket(now, 1)];
        return true;
      }
      if buckets[key].count >= max { return false; }
      buckets := buckets[key := buckets[key].(count := buckets[key].count + 1)];
      return true;
    }

    /** The amortised eviction loop, in whatever order the map is walked. */
    method EvictExpired(now: int)
      modifies this
      ensures buckets == Evicted(Limit(max, window), old(buckets), now)
    {
      var l, rest := Limit(max, window), buckets.Keys;
      while rest != {}
        invariant rest <= old(buckets).Keys
        invariant buckets == old(buckets) - (set k | k in old(buckets) && k !in rest && Expired(l, old(buckets)[k], now))
        decreases |rest|
      {
        var k :| k in rest;
        rest := rest - {k};
        if now - buckets[k].start >= window {
          buckets := buckets - {k};
        }
      }
    }
  }

  /** Without a limit every event passes. */
  lemma {:induction false} NoLimitNoRefusal(l: Limit, bs: Buckets, calls: seq<Call>, i: nat)
    requires l.max <= 0 && i < |calls|
    ensures Answers(l, bs, calls)[i]
    decreases |calls|
  {
    if i > 0 { NoLimitNoRefusal(l, bs, calls[1..], i - 1); }
  }
}
