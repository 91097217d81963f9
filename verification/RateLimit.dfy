/**
 The token bucket that limits each caller key, over exact numbers.
 */
module RateLimit {
  import opened Wrappers

  datatype Rates = Rates(capacity: real, refill: real)

  datatype Bucket = Bucket(tokens: real, last: real)

  type Buckets = map<string, Bucket>

  datatype Call = Call(key: string, cost: real, now: real)

  /** What a check comes to: the buckets afterwards and, when denied, the seconds to wait. */
  datatype Verdict = Verdict(buckets: Buckets, retryAfter: Option<real>)

  predicate Sane(r: Rates) {
    r.capacity >= 0.0 && r.refill >= 0.0
  }

  function Min(a: real, b: real): real {
    if a <= b then a else b
  }

  /** What a bucket holds at some time. */
  function Level(r: Rates, bucket: Bucket, now: real): real {
    Min(r.capacity, bucket.tokens + (now - bucket.last) * r.refill)
  }

  /** The tokens a key holds at some time; a key not seen yet starts full. */
  function Available(r: Rates, b: Buckets, key: string, now: real): real {
    if key in b then Level(r, b[key], now) else r.capacity
  }

  /** The delay advertised to a request that finds too few tokens. */
  function Delay(r: Rates, tokens: real, cost: real): real {
    if r.refill > 0.0 then (cost - tokens) / r.refill else 1.0
  }

  function Check(r: Rates, b: Buckets, c: Call): Verdict {
    var tokens := Available(r, b, c.key, c.now);
    if tokens < c.cost then Verdict(b[c.key := Bucket(tokens, c.now)], Some(Delay(r, tokens, c.cost)))
    else Verdict(b[c.key := Bucket(tokens - c.cost, c.now)], None)
  }

  function Run(r: Rates, b: Buckets, calls: seq<Call>): Buckets
    decreases |calls|
  {
    if calls == [] then b else Run(r, Check(r, b, calls[0]).buckets, calls[1..])
  }

  /** The cost granted to a key over a sequence of calls. */
  function Granted(r: Rates, b: Buckets, calls: seq<Call>, key: string): real
    decreases |calls|
  {
    if calls == [] then 0.0
    else
      var v := Check(r, b, calls[0]);
      (if calls[0].key == key && v.retryAfter.None? then calls[0].cost else 0.0) +
        Granted(r, v.buckets, calls[1..], key)
  }

  /** Stored tokens are within bounds and no bucket was touched after `now`. */
  predicate Inv(r: Rates, b: Buckets, now: real) {
    forall k :: k in b ==> 0.0 <= b[k].tokens <= r.capacity && b[k].last <= now
  }

  /** Costs are not negative and the clock does not run backwards. */
  predicate Plausible(calls: seq<Call>, from: real) {
    calls == [] || (calls[0].cost >= 0.0 && calls[0].now >= from && Plausible(calls[1..], calls[0].now))
  }

  /** An amount is covered by what was held and what has been refilled since. */
  predicate Covered(amount: real, held: real, refill: real, from: real, until: real) {
    amount <= held + (until - from) * refill
  }

  lemma LevelBounds(r: Rates, bucket: Bucket, now: real, later: real)
    requires Sane(r) && 0.0 <= bucket.tokens <= r.capacity && bucket.last <= now <= later
    ensures 0.0 <= Level(r, bucket, now) <= r.capacity
    ensures Covered(Level(r, bucket, later), Level(r, bucket, now), r.refill, now, later)
  {
    assert (now - bucket.last) * r.refill >= 0.0 && (later - now) * r.refill >= 0.0;
    assert (later - bucket.last) * r.refill == (now - bucket.last) * r.refill + (later - now) * r.refill;
  }

  lemma LevelJustWritten(r: Rates, tokens: real, now: real)
    ensures Level(r, Bucket(tokens, now), now) == Min(r.capacity, tokens)
  {
    assert (now - now) * r.refill == 0.0;
  }

  lemma AvailableBounds(r: Rates, b: Buckets, key: string, now: real, later: real)
    requires Sane(r) && Inv(r, b, now) && now <= later
    ensures 0.0 <= Available(r, b, key, now) <= r.capacity
    ensures Covered(Available(r, b, key, later), Available(r, b, key, now), r.refill, now, later)
  {
    if key in b {
      LevelBounds(r, b[key], now, later);
    } else {
      assert (later - now) * r.refill >= 0.0;
    }
  }

  /** The bucket a call leaves for its own key; every other bucket stays as it is. */
  lemma CheckWrites(r: Rates, b: Buckets, c: Call)
    ensures var v, tokens := Check(r, b, c), Available(r, b, c.key, c.now);
      && (v.retryAfter.None? <==> tokens >= c.cost)
      && v.buckets == b[c.key := Bucket(tokens - (if v.retryAfter.None? then c.cost else 0.0), c.now)]
  {
  }

  lemma DenialWaits(r: Rates, b: Buckets, c: Call)
    requires Check(r, b, c).retryAfter.Some?
    ensures Check(r, b, c).retryAfter.value > 0.0
  {
    if r.refill > 0.0 {
      PositiveQuotient(c.cost - Available(r, b, c.key, c.now), r.refill);
    }
  }

  /** A call keeps the invariant and lowers what its key holds by what it grants; other keys keep theirs. */
  lemma CheckMeaning(r: Rates, b: Buckets, from: real, c: Call, key: string)
    requires Sane(r) && Inv(r, b, from) && c.cost >= 0.0 && c.now >= from
    ensures var v := Check(r, b, c);
      && Inv(r, v.buckets, c.now)
      && (v.retryAfter.None? <==> Available(r, b, c.key, c.now) >= c.cost)
      && Available(r, v.buckets, key, c.now) ==
           Available(r, b, key, c.now) - (if key == c.key && v.retryAfter.None? then c.cost else 0.0)
  {
    assert Inv(r, b, c.now);
    AvailableBounds(r, b, c.key, c.now, c.now);
    CheckWrites(r, b, c);
    var after := Check(r, b, c).buckets;
    LevelJustWritten(r, after[c.key].tokens, c.now);
    assert key != c.key ==> Available(r, after, key, c.now) == Available(r, b, key, c.now);
  }

  lemma PositiveQuotient(a: real, b: real)
    requires a > 0.0 && b > 0.0
    ensures a / b > 0.0
  {
  }

  lemma {:induction false} RunKeepsInv(r: Rates, b: Buckets, calls: seq<Call>, from: real, until: real)
    requires Sane(r) && Inv(r, b, from) && Plausible(calls, from) && from <= until
    requires calls != [] ==> calls[|calls| - 1].now <= until
    ensures Inv(r, Run(r, b, calls), until)
    decreases |calls|
  {
    if calls != [] {
      CheckMeaning(r, b, from, calls[0], calls[0].key);
      if |calls| == 1 {
        assert calls[1..] == [];
      } else {
        assert calls[1..][|calls| - 2] == calls[|calls| - 1];
        LastIsLatest(calls[1..], calls[0].now);
      }
      RunKeepsInv(r, Check(r, b, calls[0]).buckets, calls[1..], calls[0].now, until);
    }
  }

  lemma {:induction false} LastIsLatest(calls: seq<Call>, from: real)
    requires calls != [] && Plausible(calls, from)
    ensures from <= calls[|calls| - 1].now
    decreases |calls|
  {
    if |calls| > 1 {
      LastIsLatest(calls[1..], calls[0].now);
    }
  }

  /** One grant and the grants after it, on the numbers alone. */
  lemma CoverStep(refill: real, grant: real, rest: real, held: real, reached: real, left: real,
      from: real, mid: real, until: real)
    requires Covered(reached, held, refill, from, mid) && left == reached - grant
      && Covered(rest, left, refill, mid, until)
    ensures Covered(grant + rest, held, refill, from, until)
  {
    assert (until - from) * refill == (until - mid) * refill + (mid - from) * refill;
  }

  /** What the first call is granted. */
  function GrantOf(r: Rates, b: Buckets, c: Call, key: string): real {
    if c.key == key && Check(r, b, c).retryAfter.None? then c.cost else 0.0
  }

  lemma GrantedCons(r: Rates, b: Buckets, calls: seq<Call>, key: string)
    requires calls != []
    ensures Granted(r, b, calls, key) ==
      GrantOf(r, b, calls[0], key) + Granted(r, Check(r, b, calls[0]).buckets, calls[1..], key)
  {
  }

  /** From what is held at one time the first call takes its grant at the time it is made. */
  lemma GrantTaken(r: Rates, b: Buckets, c: Call, key: string, from: real)
      returns (held: real, reached: real, left: real)
    requires Sane(r) && Inv(r, b, from) && c.cost >= 0.0 && c.now >= from
    ensures held == Available(r, b, key, from) && left == Available(r, Check(r, b, c).buckets, key, c.now)
    ensures Covered(reached, held, r.refill, from, c.now) && left == reached - GrantOf(r, b, c, key)
  {
    held, reached := Available(r, b, key, from), Available(r, b, key, c.now);
    left := Available(r, Check(r, b, c).buckets, key, c.now);
    CheckMeaning(r, b, from, c, key);
    AvailableBounds(r, b, key, from, c.now);
  }

  lemma CoveredStep(r: Rates, b: Buckets, calls: seq<Call>, key: string, from: real, until: real)
    requires Sane(r) && Inv(r, b, from) && calls != [] && calls[0].cost >= 0.0 && calls[0].now >= from
    requires var after := Check(r, b, calls[0]).buckets;
      Covered(Granted(r, after, calls[1..], key), Available(r, after, key, calls[0].now), r.refill, calls[0].now, until)
    ensures Covered(Granted(r, b, calls, key), Available(r, b, key, from), r.refill, from, until)
  {
    var c, rest := calls[0], Granted(r, Check(r, b, calls[0]).buckets, calls[1..], key);
    var held, reached, left := GrantTaken(r, b, c, key, from);
    GrantedCons(r, b, calls, key);
    CoverStep(r.refill, GrantOf(r, b, c, key), rest, held, reached, left, from, c.now, until);
  }

  lemma CoveredStart(r: Rates, b: Buckets, key: string, from: real, until: real)
    requires Sane(r) && Inv(r, b, from) && from <= until
    ensures Covered(Granted(r, b, [], key), Available(r, b, key, from), r.refill, from, until)
  {
    AvailableBounds(r, b, key, from, from);
    assert (until - from) * r.refill >= 0.0;
  }

  lemma {:induction false} GrantedIsCovered(r: Rates, b: Buckets, calls: seq<Call>, key: string, from: real,
      until: real)
    requires Sane(r) && Inv(r, b, from) && Plausible(calls, from) && from <= until
    requires calls != [] ==> calls[|calls| - 1].now <= until
    ensures Covered(Granted(r, b, calls, key), Available(r, b, key, from), r.refill, from, until)
    decreases |calls|
  {
    if calls == [] {
      CoveredStart(r, b, key, from, until);
    } else {
      var c := calls[0];
      CheckMeaning(r, b, from, c, key);
      LastIsLatest(calls, from);
      if |calls| > 1 {
        assert calls[1..][|calls| - 2] == calls[|calls| - 1];
        LastIsLatest(calls[1..], c.now);
      }
      GrantedIsCovered(r, Check(r, b, c).buckets, calls[1..], key, c.now, until);
      CoveredStep(r, b, calls, key, from, until);
    }
  }

  /**
   The limit itself: whatever calls came before, the cost granted to one key over any period of
   length `until - from` is at most the capacity and what is refilled in that period.
   */
  lemma WindowBound(r: Rates, before: seq<Call>, window: seq<Call>, key: string, start: real, from: real, until: real)
    requires Sane(r) && Plausible(before, start) && Plausible(window, from) && start <= from <= until
    requires before != [] ==> before[|before| - 1].now <= from
    requires window != [] ==> window[|window| - 1].now <= until
    ensures Granted(r, Run(r, map[], before), window, key) <= r.capacity + (until - from) * r.refill
  {
    var b := Run(r, map[], before);
    RunKeepsInv(r, map[], before, start, from);
    GrantedIsCovered(r, b, window, key, from, until);
    AvailableBounds(r, b, key, from, from);
  }

  // ----- and no request is denied without need -----

  lemma {:induction false} RunSnoc(r: Rates, b: Buckets, calls: seq<Call>, c: Call)
    ensures Run(r, b, calls + [c]) == Check(r, Run(r, b, calls), c).buckets
    decreases |calls|
  {
    if calls == [] {
      assert [] + [c] == [c] && [c][1..] == [];
    } else {
      assert (calls + [c])[0] == calls[0] && (calls + [c])[1..] == calls[1..] + [c];
      RunSnoc(r, Check(r, b, calls[0]).buckets, calls[1..], c);
    }
  }

  lemma {:induction false} GrantedSnoc(r: Rates, b: Buckets, calls: seq<Call>, c: Call, key: string)
    ensures Granted(r, b, calls + [c], key) == Granted(r, b, calls, key) + GrantOf(r, Run(r, b, calls), c, key)
    decreases |calls|
  {
    if calls == [] {
      assert [] + [c] == [c] && [c][1..] == [];
    } else {
      assert (calls + [c])[0] == calls[0] && (calls + [c])[1..] == calls[1..] + [c];
      GrantedSnoc(r, Check(r, b, calls[0]).buckets, calls[1..], c, key);
    }
  }

  lemma {:induction false} RunConcat(r: Rates, b: Buckets, a: seq<Call>, c: seq<Call>)
    ensures Run(r, b, a + c) == Run(r, Run(r, b, a), c)
    decreases |a|
  {
    if a == [] {
      assert a + c == c;
    } else {
      assert (a + c)[0] == a[0] && (a + c)[1..] == a[1..] + c;
      RunConcat(r, Check(r, b, a[0]).buckets, a[1..], c);
    }
  }

  /** The time of call `i`, or this moment if `i` is past the last call. */
  function TimeOf(calls: seq<Call>, i: nat, now: real): real {
    if i < |calls| then calls[i].now else now
  }

  /** What has been granted to the key from call `i` on. */
  function GrantedSince(r: Rates, calls: seq<Call>, key: string, i: nat): real
    requires i <= |calls|
  {
    Granted(r, Run(r, map[], calls[..i]), calls[i..], key)
  }

  /** What would still fit in the period since then. */
  function Room(r: Rates, calls: seq<Call>, key: string, i: nat, now: real): real
    requires i <= |calls|
  {
    Refilled(r, TimeOf(calls, i, now), now) - GrantedSince(r, calls, key, i)
  }

  function Accrued(r: Rates, from: real, until: real): real {
    (until - from) * r.refill
  }

  /** The most that any period of this length may be granted. */
  function Refilled(r: Rates, from: real, until: real): real {
    r.capacity + Accrued(r, from, until)
  }

  lemma AccruesApart(refill: real, from: real, mid: real, until: real)
    requires refill >= 0.0 && mid <= until
    ensures (until - from) * refill == (mid - from) * refill + (until - mid) * refill
    ensures (until - mid) * refill >= 0.0
  {
  }

  lemma LevelLater(r: Rates, bucket: Bucket, now: real, later: real)
    requires Sane(r) && bucket.last <= now <= later
    ensures Level(r, bucket, later) == Min(r.capacity, Level(r, bucket, now) + (later - now) * r.refill)
  {
    AccruesApart(r.refill, bucket.last, now, later);
  }

  /** What a key holds grows with the refill until it reaches the capacity. */
  lemma AvailableLater(r: Rates, b: Buckets, key: string, now: real, later: real)
    requires Sane(r) && Inv(r, b, now) && now <= later
    ensures Available(r, b, key, later) == Min(r.capacity, Available(r, b, key, now) + Accrued(r, now, later))
  {
    if key in b {
      LevelLater(r, b[key], now, later);
    } else {
      AccruesApart(r.refill, now, now, later);
    }
  }

  lemma GrantedSinceSnoc(r: Rates, init: seq<Call>, x: Call, key: string, i: nat)
    requires i <= |init|
    ensures GrantedSince(r, init + [x], key, i) ==
      GrantedSince(r, init, key, i) + GrantOf(r, Run(r, map[], init), x, key)
  {
    GrantedSnoc(r, Run(r, map[], init[..i]), init[i..], x, key);
    RunConcat(r, map[], init[..i], init[i..]);
    assert init == init[..i] + init[i..];
    assert (init + [x])[..i] == init[..i] && (init + [x])[i..] == init[i..] + [x];
  }

  lemma TimeOfSnoc(init: seq<Call>, x: Call, i: nat, now: real)
    requires i <= |init|
    ensures TimeOf(init + [x], i, now) == TimeOf(init, i, x.now)
  {
  }

  /** With one call more every earlier period is longer and has its grant less. */
  lemma RoomStep(r: Rates, init: seq<Call>, x: Call, key: string, i: nat, now: real, grant: real)
    requires i <= |init| && GrantedSince(r, init + [x], key, i) == GrantedSince(r, init, key, i) + grant
    ensures Room(r, init + [x], key, i, now) == Room(r, init, key, i, x.now) - grant + Accrued(r, x.now, now)
  {
    TimeOfSnoc(init, x, i, now);
    RefilledLater(r, TimeOf(init, i, x.now), x.now, now);
  }

  lemma RefilledLater(r: Rates, from: real, mid: real, until: real)
    ensures Refilled(r, from, until) == Refilled(r, from, mid) + Accrued(r, mid, until)
  {
    assert (until - from) * r.refill == (mid - from) * r.refill + (until - mid) * r.refill;
  }

  lemma NoTimePassed(r: Rates, calls: seq<Call>, key: string, now: real)
    ensures Room(r, calls, key, |calls|, now) == r.capacity
  {
    assert calls[|calls|..] == [] && (now - now) * r.refill == 0.0;
  }

  lemma {:induction false} PlausibleSnoc(init: seq<Call>, x: Call, start: real)
    requires Plausible(init + [x], start)
    ensures Plausible(init, start) && x.cost >= 0.0 && start <= x.now
    ensures init != [] ==> init[|init| - 1].now <= x.now
    decreases |init|
  {
    if init == [] {
      assert init + [x] == [x];
    } else {
      assert (init + [x])[1..] == init[1..] + [x];
      PlausibleSnoc(init[1..], x, init[0].now);
    }
  }

  /** What one call more takes from its key, and adds to what has been granted in every period. */
  lemma GrantMade(r: Rates, init: seq<Call>, x: Call, key: string) returns (grant: real)
    requires Sane(r) && Inv(r, Run(r, map[], init), x.now) && x.cost >= 0.0
    ensures var after := Run(r, map[], init + [x]);
      Inv(r, after, x.now) && Available(r, after, key, x.now) == Available(r, Run(r, map[], init), key, x.now) - grant
    ensures forall i :: 0 <= i <= |init| ==>
      GrantedSince(r, init + [x], key, i) == GrantedSince(r, init, key, i) + grant
  {
    var b := Run(r, map[], init);
    grant := GrantOf(r, b, x, key);
    RunSnoc(r, map[], init, x);
    CheckMeaning(r, b, x.now, x, key);
    forall i | 0 <= i <= |init|
      ensures GrantedSince(r, init + [x], key, i) == GrantedSince(r, init, key, i) + grant
    {
      GrantedSinceSnoc(r, init, x, key, i);
    }
  }

  /** One call and the time after it change what is held and what fits in every earlier period alike. */
  lemma CallAndWait(r: Rates, init: seq<Call>, x: Call, key: string, now: real) returns (change: real)
    requires Sane(r) && Inv(r, Run(r, map[], init), x.now) && x.cost >= 0.0 && x.now <= now
    ensures Available(r, Run(r, map[], init + [x]), key, now) ==
      Min(r.capacity, Available(r, Run(r, map[], init), key, x.now) + change)
    ensures forall i :: 0 <= i <= |init| ==> Room(r, init + [x], key, i, now) == Room(r, init, key, i, x.now) + change
  {
    var grant := GrantMade(r, init, x, key);
    change := Accrued(r, x.now, now) - grant;
    AvailableLater(r, Run(r, map[], init + [x]), key, x.now, now);
    forall i | 0 <= i <= |init| ensures Room(r, init + [x], key, i, now) == Room(r, init, key, i, x.now) + change {
      RoomStep(r, init, x, key, i, now, grant);
    }
  }

  /** What a key holds is the least of what would fit in any period that ends now. */
  lemma {:induction false} HeldIsLeastRoom(r: Rates, calls: seq<Call>, key: string, start: real, now: real)
      returns (least: nat)
    requires Sane(r) && Plausible(calls, start) && start <= now
    requires calls != [] ==> calls[|calls| - 1].now <= now
    ensures least <= |calls| && Available(r, Run(r, map[], calls), key, now) == Room(r, calls, key, least, now)
    ensures forall i :: 0 <= i <= |calls| ==>
      Available(r, Run(r, map[], calls), key, now) <= Room(r, calls, key, i, now)
    decreases |calls|
  {
    NoTimePassed(r, calls, key, now);
    least := |calls|;
    if calls != [] {
      var init, x := calls[..|calls| - 1], calls[|calls| - 1];
      assert calls == init + [x];
      PlausibleSnoc(init, x, start);
      RunKeepsInv(r, map[], init, start, x.now);
      var before := HeldIsLeastRoom(r, init, key, start, x.now);
      var change := CallAndWait(r, init, x, key, now);
      if Available(r, Run(r, map[], calls), key, now) < r.capacity {
        least := before;
      }
    }
  }

  /**
   The limit is exact: after any calls, a request is granted if and only if it fits in every period that
   ends now, from any earlier call or from this moment on, beside what has been granted in that period.
   */
  lemma GrantedIff(r: Rates, calls: seq<Call>, start: real, c: Call)
    requires Sane(r) && Plausible(calls, start) && start <= c.now
    requires calls != [] ==> calls[|calls| - 1].now <= c.now
    ensures Check(r, Run(r, map[], calls), c).retryAfter.None? <==>
      forall i :: 0 <= i <= |calls| ==> c.cost <= Room(r, calls, c.key, i, c.now)
  {
    var least := HeldIsLeastRoom(r, calls, c.key, start, c.now);
  }

  // ----- keys do not affect each other -----

  function Only(calls: seq<Call>, key: string): seq<Call> {
    if calls == [] then [] else (if calls[0].key == key then [calls[0]] else []) + Only(calls[1..], key)
  }

  /** The part of the state that belongs to one key. */
  function BucketOf(b: Buckets, key: string): Option<Bucket> {
    if key in b then Some(b[key]) else None
  }

  /** A key fares exactly as if the calls of all other keys had not been made. */
  lemma {:induction false} KeysAreIndependent(r: Rates, a: Buckets, b: Buckets, calls: seq<Call>, key: string)
    requires BucketOf(a, key) == BucketOf(b, key)
    ensures BucketOf(Run(r, a, calls), key) == BucketOf(Run(r, b, Only(calls, key)), key)
    ensures Granted(r, a, calls, key) == Granted(r, b, Only(calls, key), key)
    decreases |calls|
  {
    if calls != [] {
      var c, rest := calls[0], Only(calls[1..], key);
      if c.key == key {
        assert Only(calls, key) == [c] + rest && ([c] + rest)[1..] == rest;
        KeysAreIndependent(r, Check(r, a, c).buckets, Check(r, b, c).buckets, calls[1..], key);
      } else {
        assert Only(calls, key) == [] + rest == rest;
        KeysAreIndependent(r, Check(r, a, c).buckets, b, calls[1..], key);
      }
    }
  }

  // ----- the advertised delay -----

  lemma WaitedEnough(refill: real, deficit: real, wait: real)
    requires refill > 0.0
    ensures wait * refill >= deficit <==> wait >= deficit / refill
  {
    var d := deficit / refill;
    assert d * refill == deficit;
    if wait >= d {
      assert (wait - d) * refill >= 0.0;
    } else {
      assert (d - wait) * refill > 0.0;
    }
  }

  /**
   After a denial, and with any calls of other keys in between, the same request is granted after a
   wait exactly when the capacity can hold its cost, tokens refill at all, and the wait is at least
   the advertised one: under the first two conditions the delay is both sufficient and minimal.
   */
  lemma RetryAfterMeaning(r: Rates, b: Buckets, from: real, c: Call, others: seq<Call>, wait: real)
    requires Sane(r) && Inv(r, b, from) && c.cost >= 0.0 && c.now >= from && wait >= 0.0
    requires Check(r, b, c).retryAfter.Some? && Only(others, c.key) == []
    ensures var v := Check(r, b, c);
      var again := Check(r, Run(r, v.buckets, others), Call(c.key, c.cost, c.now + wait));
      again.retryAfter.None? <==> r.refill > 0.0 && c.cost <= r.capacity && wait >= v.retryAfter.value
  {
    var v, tokens := Check(r, b, c), Available(r, b, c.key, c.now);
    DenialLeaves(r, b, from, c);
    KeysAreIndependent(r, v.buckets, v.buckets, others, c.key);
    var later := Run(r, v.buckets, others);
    assert BucketOf(later, c.key) == Some(Bucket(tokens, c.now));
    CheckWrites(r, later, Call(c.key, c.cost, c.now + wait));
    WaitDecides(r, tokens, c.cost, c.now, wait);
  }

  /** What a denial leaves behind, and the delay it advertises. */
  lemma DenialLeaves(r: Rates, b: Buckets, from: real, c: Call)
    requires Sane(r) && Inv(r, b, from) && c.now >= from && Check(r, b, c).retryAfter.Some?
    ensures var v, tokens := Check(r, b, c), Available(r, b, c.key, c.now);
      && 0.0 <= tokens <= r.capacity && tokens < c.cost
      && BucketOf(v.buckets, c.key) == Some(Bucket(tokens, c.now))
      && v.retryAfter == Some(Delay(r, tokens, c.cost))
  {
    assert Inv(r, b, c.now);
    AvailableBounds(r, b, c.key, c.now, c.now);
  }

  lemma WaitDecides(r: Rates, tokens: real, cost: real, now: real, wait: real)
    requires Sane(r) && tokens < cost && wait >= 0.0
    ensures Level(r, Bucket(tokens, now), now + wait) >= cost <==>
      r.refill > 0.0 && cost <= r.capacity && wait >= Delay(r, tokens, cost)
  {
    assert now + wait - now == wait;
    if r.refill > 0.0 {
      WaitedEnough(r.refill, cost - tokens, wait);
    } else {
      assert wait * r.refill == 0.0;
    }
  }

  /** So the advertised delay can be relied on only for what the bucket can ever hold. */
  lemma AdvertisedDelaySuffices(r: Rates, b: Buckets, from: real, c: Call)
    requires Sane(r) && Inv(r, b, from) && c.cost >= 0.0 && c.now >= from
    requires Check(r, b, c).retryAfter.Some?
    ensures var v := Check(r, b, c);
      Check(r, v.buckets, Call(c.key, c.cost, c.now + v.retryAfter.value)).retryAfter.None?
      <==> r.refill > 0.0 && c.cost <= r.capacity
  {
    DenialWaits(r, b, c);
    RetryAfterMeaning(r, b, from, c, [], Check(r, b, c).retryAfter.value);
  }

  /** The limiter of one traffic class. */
  class RateLimiter {
    const rates: Rates
    var state: Buckets

    ghost predicate Valid(now: real)
      reads this
    {
      Sane(rates) && Inv(rates, state, now)
    }

    constructor (capacity: real, refillPerSecond: real)
      ensures rates == Rates(capacity, refillPerSecond) && state == map[]
      ensures capacity >= 0.0 && refillPerSecond >= 0.0 ==> forall now :: Valid(now)
    {
      rates, state := Rates(capacity, refillPerSecond), map[];
    }

    /** `now` is the clock's reading; `ghost from` the latest one before it. */
    method CheckKey(key: string, cost: real, now: real, ghost from: real) returns (retryAfter: Option<real>)
      modifies this
      ensures Verdict(state, retryAfter) == Check(rates, old(state), Call(key, cost, now))
      ensures old(Valid(from)) && from <= now && cost >= 0.0 ==>
        && Valid(now)
        && (retryAfter.None? <==> Available(rates, old(state), key, now) >= cost)
        && forall k :: Available(rates, state, k, now) ==
             Available(rates, old(state), k, now) - (if k == key && retryAfter.None? then cost else 0.0)
    {
      ghost var b, c := state, Call(key, cost, now);
      if Valid(from) && from <= now && cost >= 0.0 {
        forall k
          ensures Available(rates, Check(rates, b, c).buckets, k, now) ==
            Available(rates, b, k, now) - (if k == key && Check(rates, b, c).retryAfter.None? then cost else 0.0)
        {
          CheckMeaning(rates, b, from, c, k);
        }
        CheckMeaning(rates, b, from, c, key);
      }
      var bucket := if key in state then state[key] else Bucket(rates.capacity, now);
      var tokens := Min(rates.capacity, bucket.tokens + (now - bucket.last) * rates.refill);
      LevelJustWritten(rates, rates.capacity, now);
      assert tokens == Available(rates, state, key, now);
      if tokens < cost {
        state := state[key := Bucket(tokens, now)];
        var deficit := cost - tokens;
        return Some(if rates.refill > 0.0 then deficit / rates.refill else 1.0);
      }
      state := state[key := Bucket(tokens - cost, now)];
      return None;
    }
  }
}
