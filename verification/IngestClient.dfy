/**
 The ingest client: greedy batches, retries with backoff, and bisection of refused batches.

 The server stores a batch whole or not at all, and only if all of its events are valid; it refuses
 one as malformed only if some are not. It may fail at any time, before or after storing, and may
 report any count of accepted events; this repository's endpoint counts those that were not stored.
 */
module IngestClient {
  import opened Sequences
  import opened Wrappers

  /** An event by its identity and its serialized text. */
  datatype Event = Event(id: string, json: string)

  /** The size the batcher counts: code units of the text, and a separator. */
  function Size(e: Event): nat {
    |e.json| + 1
  }

  function Bytes(es: seq<Event>): nat {
    if es == [] then 0 else Bytes(es[..|es| - 1]) + Size(es[|es| - 1])
  }

  lemma {:induction false} BytesConcat(a: seq<Event>, b: seq<Event>)
    ensures Bytes(a + b) == Bytes(a) + Bytes(b)
    decreases |b|
  {
    if b == [] {
      assert a + b == a;
    } else {
      assert (a + b)[..|a + b| - 1] == a + b[..|b| - 1];
      BytesConcat(a, b[..|b| - 1]);
    }
  }

  // ----- batching -----

  datatype Limits = Limits(batchSize: int, maxBytes: int)

  /** A batch within the limits; a single event is sent however large it is. */
  predicate Fits(l: Limits, batch: seq<Event>) {
    batch != [] && (|batch| == 1 || (|batch| <= l.batchSize && Bytes(batch) <= l.maxBytes))
  }

  /** The batch could not have taken the event as well. */
  predicate Full(l: Limits, batch: seq<Event>, next: Event) {
    |batch| >= l.batchSize || Bytes(batch) + Size(next) > l.maxBytes
  }

  predicate AllFit(l: Limits, batches: seq<seq<Event>>) {
    forall i :: 0 <= i < |batches| ==> Fits(l, batches[i])
  }

  /** Every batch but the last was full for the event that opens the next one. */
  predicate Greedy(l: Limits, batches: seq<seq<Event>>)
    requires AllFit(l, batches)
  {
    forall i :: 0 <= i < |batches| - 1 ==> Full(l, batches[i], batches[i + 1][0])
  }

  /** Batches within the limits, none of which could have taken the event after it. */
  predicate GreedySplit(l: Limits, batches: seq<seq<Event>>) {
    AllFit(l, batches) && Greedy(l, batches)
  }

  lemma OpenBatch(l: Limits, done: seq<seq<Event>>, event: Event)
    requires GreedySplit(l, done) && (done != [] ==> Full(l, done[|done| - 1], event))
    ensures GreedySplit(l, done + [[event]])
    ensures Flatten(done + [[event]]) == Flatten(done) + [event]
  {
    FlattenSnoc(done, [event]);
    SplitSnoc(l, done, [event]);
  }

  lemma SplitSnoc(l: Limits, done: seq<seq<Event>>, last: seq<Event>)
    requires GreedySplit(l, done) && Fits(l, last) && (done != [] ==> Full(l, done[|done| - 1], last[0]))
    ensures GreedySplit(l, done + [last])
  {
    var after := done + [last];
    assert forall i :: 0 <= i < |done| ==> after[i] == done[i];
    forall i | 0 <= i < |done| ensures Full(l, after[i], after[i + 1][0]) {
      assert i < |done| - 1 ==> Full(l, done[i], done[i + 1][0]);
    }
  }

  lemma GrowBatch(l: Limits, done: seq<seq<Event>>, current: seq<Event>, event: Event)
    requires GreedySplit(l, done + [current]) && !Full(l, current, event)
    ensures GreedySplit(l, done + [current + [event]])
    ensures Flatten(done + [current + [event]]) == Flatten(done + [current]) + [event]
  {
    var before, after := done + [current], done + [current + [event]];
    assert forall i :: 0 <= i < |done| ==> after[i] == before[i] == done[i];
    assert before[|done|] == current && Fits(l, current);
    assert after[|done|] == current + [event] && Fits(l, current + [event]) by {
      BytesSnoc(current, event);
    }
    forall i | 0 <= i < |done| ensures Full(l, after[i], after[i + 1][0]) {
      assert Full(l, before[i], before[i + 1][0]);
    }
    FlattenSnoc(done, current);
    FlattenSnoc(done, current + [event]);
    assert Flatten(done) + (current + [event]) == Flatten(done) + current + [event];
  }

  lemma BytesSnoc(current: seq<Event>, event: Event)
    ensures Bytes(current + [event]) == Bytes(current) + Size(event)
  {
    assert (current + [event])[..|current|] == current;
  }

  /** The batches closed so far and the open one hold the events seen so far. */
  predicate Splitting(l: Limits, done: seq<seq<Event>>, current: seq<Event>, seen: seq<Event>) {
    if seen == [] then done == [] && current == []
    else current != [] && GreedySplit(l, done + [current]) && Flatten(done + [current]) == seen
  }

  /** Whether the open batch must be closed before the event is added. */
  predicate MustClose(l: Limits, current: seq<Event>, event: Event) {
    current != [] && Full(l, current, event)
  }

  lemma SplitNext(l: Limits, done: seq<seq<Event>>, current: seq<Event>, seen: seq<Event>, event: Event)
    requires Splitting(l, done, current, seen)
    ensures MustClose(l, current, event) ==> Splitting(l, done + [current], [event], seen + [event])
    ensures !MustClose(l, current, event) ==> Splitting(l, done, current + [event], seen + [event])
  {
    if MustClose(l, current, event) {
      OpenBatch(l, done + [current], event);
    } else if current != [] {
      GrowBatch(l, done, current, event);
    } else {
      OpenBatch(l, [], event);
      assert [] + [event] == [event];
    }
  }

  method Batches(l: Limits, events: seq<Event>) returns (batches: seq<seq<Event>>)
    ensures Flatten(batches) == events
    ensures GreedySplit(l, batches)
  {
    batches := [];
    var current, bytes, i := [], 0, 0;
    while i < |events|
      invariant 0 <= i <= |events| && bytes == Bytes(current)
      invariant Splitting(l, batches, current, events[..i])
    {
      var event := events[i];
      assert events[..i + 1] == events[..i] + [event];
      SplitNext(l, batches, current, events[..i], event);
      if |current| > 0 && (|current| >= l.batchSize || bytes + Size(event) > l.maxBytes) {
        batches := batches + [current];
        current, bytes := [], 0;
        assert [] + [event] == [event];
      }
      BytesSnoc(current, event);
      current, bytes := current + [event], bytes + Size(event);
      i := i + 1;
    }
    assert events[..i] == events;
    if |current| > 0 {
      batches := batches + [current];
    }
  }

  /** A batch that strictly covers a full batch is over a limit. */
  lemma FullCannotGrow(l: Limits, before: seq<Event>, full: seq<Event>, next: Event, after: seq<Event>)
    requires full != [] && Full(l, full, next)
    ensures !Fits(l, before + full + [next] + after)
  {
    BytesConcat(before + full + [next], after);
    BytesConcat(before + full, [next]);
    BytesConcat(before, full);
    assert [next][..0] == [] && Bytes([next]) == Size(next);
  }

  lemma Uncons(batches: seq<seq<Event>>)
    requires batches != []
    ensures Flatten(batches) == batches[0] + Flatten(batches[1..])
  {
  }

  /** A first batch of at least as much ends no later than the greedy one. */
  lemma FirstEndsNoLater(l: Limits, skipped: seq<Event>, greedy: seq<seq<Event>>, other: seq<seq<Event>>)
    requires GreedySplit(l, greedy) && AllFit(l, other) && greedy != [] && other != []
    requires skipped + Flatten(greedy) == Flatten(other)
    ensures |other[0]| <= |skipped| + |greedy[0]|
  {
    var g, o, gs := greedy[0], other[0], greedy[1..];
    Uncons(greedy);
    Uncons(other);
    if |o| > |skipped| + |g| {
      assert skipped + (g + Flatten(gs)) == (skipped + g) + Flatten(gs);
      var after := LongerPrefix(skipped + g, Flatten(gs), o, Flatten(other[1..]));
      assert gs[0] == greedy[1] && Fits(l, greedy[1]);
      Uncons(gs);
      FullCannotGrow(l, skipped, g, gs[0][0], after);
    }
  }

  lemma LongerPrefix(p: seq<Event>, rest: seq<Event>, o: seq<Event>, os: seq<Event>) returns (after: seq<Event>)
    requires p + rest == o + os && |o| > |p|
    ensures rest != [] && o == p + [rest[0]] + after
  {
    var all := o + os;
    after := o[|p| + 1..];
    assert all[..|p|] == p && all[|p|] == rest[0];
    assert o == all[..|o|];
  }

  lemma DropFirst(skipped: seq<Event>, g: seq<Event>, gs: seq<Event>, o: seq<Event>, os: seq<Event>)
      returns (rest: seq<Event>)
    requires skipped + (g + gs) == o + os && |o| <= |skipped| + |g|
    ensures skipped + g == o + rest && rest + gs == os
  {
    var all := o + os;
    assert all == (skipped + g) + gs;
    rest := (skipped + g)[|o|..];
    assert all[..|o|] == o && all[..|skipped| + |g|] == skipped + g;
    assert all[|o|..] == os && all[|o|..] == rest + gs;
  }

  lemma TailIsGreedy(l: Limits, greedy: seq<seq<Event>>)
    requires GreedySplit(l, greedy) && greedy != []
    ensures GreedySplit(l, greedy[1..])
  {
    var gs := greedy[1..];
    assert forall i :: 0 <= i < |gs| ==> gs[i] == greedy[i + 1];
    forall i | 0 <= i < |gs| - 1 ensures Full(l, gs[i], gs[i + 1][0]) {
      assert Full(l, greedy[i + 1], greedy[i + 1 + 1][0]);
    }
  }

  /** Greedy batches of what remains never outnumber any other batches of at least as much. */
  lemma {:induction false} GreedyStaysAhead(l: Limits, skipped: seq<Event>, greedy: seq<seq<Event>>,
      other: seq<seq<Event>>)
    requires GreedySplit(l, greedy) && AllFit(l, other)
    requires skipped + Flatten(greedy) == Flatten(other)
    ensures |greedy| <= |other|
    decreases |greedy|
  {
    if greedy != [] {
      Uncons(greedy);
      assert greedy[0] != [];
      assert other != [];
      FirstEndsNoLater(l, skipped, greedy, other);
      Uncons(other);
      var rest := DropFirst(skipped, greedy[0], Flatten(greedy[1..]), other[0], Flatten(other[1..]));
      TailIsGreedy(l, greedy);
      assert forall i :: 0 <= i < |other[1..]| ==> other[1..][i] == other[i + 1];
      GreedyStaysAhead(l, rest, greedy[1..], other[1..]);
    }
  }

  /** No other way to cut the events into batches within the limits needs fewer of them. */
  lemma FewestBatches(l: Limits, greedy: seq<seq<Event>>, other: seq<seq<Event>>)
    requires GreedySplit(l, greedy) && AllFit(l, other)
    requires Flatten(greedy) == Flatten(other)
    ensures |greedy| <= |other|
  {
    assert [] + Flatten(greedy) == Flatten(greedy);
    GreedyStaysAhead(l, [], greedy, other);
  }

  // ----- the posted body -----

  const BODY_OPEN := "{\"schema_version\":2,\"events\":["
  const BODY_CLOSE := "]}"

  function Joined(es: seq<Event>): string {
    if es == [] then ""
    else if |es| == 1 then es[0].json
    else Joined(es[..|es| - 1]) + "," + es[|es| - 1].json
  }

  function Body(batch: seq<Event>): string {
    BODY_OPEN + Joined(batch) + BODY_CLOSE
  }

  lemma {:induction false} JoinedLength(es: seq<Event>)
    requires es != []
    ensures |Joined(es)| == Bytes(es) - 1
    decreases |es|
  {
    if |es| > 1 {
      JoinedLength(es[..|es| - 1]);
    }
  }

  /** What is posted is longer than what the batcher counted by the envelope around the events. */
  lemma BodyLength(l: Limits, batch: seq<Event>)
    requires batch != []
    ensures |Body(batch)| == Bytes(batch) + 31
    ensures Fits(l, batch) && |batch| > 1 ==> |Body(batch)| <= l.maxBytes + 31
  {
    JoinedLength(batch);
  }

  /** The encoded size of a text whose units take between one and three bytes each. */
  function Encoded(width: char -> nat, s: string): nat {
    if s == "" then 0 else width(s[0]) + Encoded(width, s[1..])
  }

  lemma {:induction false} EncodedSize(width: char -> nat, s: string)
    requires forall c :: 1 <= width(c) <= 3
    ensures |s| <= Encoded(width, s) <= 3 * |s|
    decreases |s|
  {
    if s != "" {
      EncodedSize(width, s[1..]);
    }
  }

  lemma {:induction false} EncodedConcat(width: char -> nat, a: string, b: string)
    ensures Encoded(width, a + b) == Encoded(width, a) + Encoded(width, b)
    decreases |a|
  {
    if a == "" {
      assert a + b == b;
    } else {
      assert (a + b)[0] == a[0] && (a + b)[1..] == a[1..] + b;
      EncodedConcat(width, a[1..], b);
    }
  }

  predicate Ascii(s: string) {
    forall i :: 0 <= i < |s| ==> s[i] < 128 as char
  }

  /** An encoding in which every ASCII character takes one byte. */
  ghost predicate AsciiWidth(width: char -> nat) {
    forall c :: c < 128 as char ==> width(c) == 1
  }

  lemma {:induction false} EncodedAscii(width: char -> nat, s: string)
    requires AsciiWidth(width) && Ascii(s)
    ensures Encoded(width, s) == |s|
    decreases |s|
  {
    if s != "" {
      assert forall i :: 0 <= i < |s[1..]| ==> s[1..][i] == s[i + 1];
      EncodedAscii(width, s[1..]);
    }
  }

  lemma EnvelopeIsAscii()
    ensures Ascii(BODY_OPEN) && Ascii(BODY_CLOSE) && Ascii(",")
  {
  }

  /** The encoded events, each with one byte for its separator. */
  function EncodedEvents(width: char -> nat, es: seq<Event>): nat {
    if es == [] then 0
    else EncodedEvents(width, es[..|es| - 1]) + Encoded(width, es[|es| - 1].json) + 1
  }

  lemma {:induction false} EncodedJoined(width: char -> nat, es: seq<Event>)
    requires AsciiWidth(width) && es != []
    ensures Encoded(width, Joined(es)) == EncodedEvents(width, es) - 1
    decreases |es|
  {
    var init, last := es[..|es| - 1], es[|es| - 1];
    if |es| > 1 {
      EncodedJoined(width, init);
      EncodedConcat(width, Joined(init) + ",", last.json);
      EncodedConcat(width, Joined(init), ",");
      EnvelopeIsAscii();
      EncodedAscii(width, ",");
    } else {
      assert init == [];
    }
  }

  lemma EncodedEnvelope(width: char -> nat, text: string)
    requires AsciiWidth(width)
    ensures Encoded(width, BODY_OPEN + text + BODY_CLOSE) == Encoded(width, text) + 32
  {
    EncodedConcat(width, BODY_OPEN + text, BODY_CLOSE);
    EncodedConcat(width, BODY_OPEN, text);
    EnvelopeIsAscii();
    EncodedAscii(width, BODY_OPEN);
    EncodedAscii(width, BODY_CLOSE);
  }

  /**
   The exact encoded size of what is posted, so whether it stays within the limit can be told beforehand:
   exactly when the encoded events with their separators stay 31 bytes below it.
   */
  lemma EncodedBody(l: Limits, width: char -> nat, batch: seq<Event>)
    requires AsciiWidth(width) && batch != []
    ensures Encoded(width, Body(batch)) == EncodedEvents(width, batch) + 31
    ensures Encoded(width, Body(batch)) <= l.maxBytes <==> EncodedEvents(width, batch) + 31 <= l.maxBytes
  {
    EncodedEnvelope(width, Joined(batch));
    EncodedJoined(width, batch);
  }

  /** A batch of several events is at most three times the limit and the envelope. */
  lemma PostedBytes(l: Limits, width: char -> nat, batch: seq<Event>)
    requires (forall c :: 1 <= width(c) <= 3) && Fits(l, batch) && |batch| > 1
    ensures Bytes(batch) + 31 <= Encoded(width, Body(batch)) <= 3 * (l.maxBytes + 31)
  {
    BodyLength(l, batch);
    EncodedSize(width, Body(batch));
  }

  /** Two empty objects fit a limit of six bytes, and are posted as 37. */
  lemma PostedOverLimit(width: char -> nat)
    requires AsciiWidth(width)
    ensures var l, batch := Limits(100, 6), [Event("a", "{}"), Event("b", "{}")];
      Fits(l, batch) && |Body(batch)| == 37 && Encoded(width, Body(batch)) == 37
  {
    var l, a, b := Limits(100, 6), Event("a", "{}"), Event("b", "{}");
    BytesSnoc([a], b);
    assert [a] + [b] == [a, b] && [a][..0] == [];
    assert Bytes([a]) == 3;
    BodyLength(l, [a, b]);
    assert [a, b][..1] == [a];
    EncodedAscii(width, "{}");
    assert EncodedEvents(width, [a]) == 3;
    EncodedBody(l, width, [a, b]);
  }

  // ----- poison -----

  type Validity = Event -> bool

  function Valid(ok: Validity, es: seq<Event>): seq<Event> {
    if es == [] then [] else (if ok(es[0]) then [es[0]] else []) + Valid(ok, es[1..])
  }

  function Invalid(ok: Validity, es: seq<Event>): seq<Event> {
    if es == [] then [] else (if ok(es[0]) then [] else [es[0]]) + Invalid(ok, es[1..])
  }

  lemma {:induction false} ValidConcat(ok: Validity, a: seq<Event>, b: seq<Event>)
    ensures Valid(ok, a + b) == Valid(ok, a) + Valid(ok, b)
    decreases |a|
  {
    if a == [] {
      assert a + b == b;
    } else {
      var head, rest := if ok(a[0]) then [a[0]] else [], Valid(ok, a[1..]);
      assert (a + b)[0] == a[0] && (a + b)[1..] == a[1..] + b;
      ValidConcat(ok, a[1..], b);
      assert head + (rest + Valid(ok, b)) == (head + rest) + Valid(ok, b);
    }
  }

  lemma {:induction false} InvalidConcat(ok: Validity, a: seq<Event>, b: seq<Event>)
    ensures Invalid(ok, a + b) == Invalid(ok, a) + Invalid(ok, b)
    decreases |a|
  {
    if a == [] {
      assert a + b == b;
    } else {
      var head, rest := if ok(a[0]) then [] else [a[0]], Invalid(ok, a[1..]);
      assert (a + b)[0] == a[0] && (a + b)[1..] == a[1..] + b;
      InvalidConcat(ok, a[1..], b);
      assert head + (rest + Invalid(ok, b)) == (head + rest) + Invalid(ok, b);
    }
  }

  /** Every event is on exactly one side, as often as it occurs. */
  lemma {:induction false} SplitIsComplete(ok: Validity, es: seq<Event>)
    ensures |Valid(ok, es)| + |Invalid(ok, es)| == |es|
    ensures multiset(Valid(ok, es)) + multiset(Invalid(ok, es)) == multiset(es)
    decreases |es|
  {
    if es != [] {
      SplitIsComplete(ok, es[1..]);
      assert es == [es[0]] + es[1..];
    }
  }

  lemma {:induction false} SplitOfValid(ok: Validity, es: seq<Event>)
    ensures Invalid(ok, es) == [] <==> AllValid(ok, es)
    ensures AllValid(ok, es) ==> Valid(ok, es) == es
    decreases |es|
  {
    if es != [] {
      SplitOfValid(ok, es[1..]);
      AllValidCons(ok, es);
    }
  }

  lemma AllValidCons(ok: Validity, es: seq<Event>)
    requires es != []
    ensures AllValid(ok, es) <==> ok(es[0]) && AllValid(ok, es[1..])
  {
    assert forall i :: 0 < i < |es| ==> es[i] == es[1..][i - 1];
  }

  predicate AllValid(ok: Validity, es: seq<Event>) {
    forall i :: 0 <= i < |es| ==> ok(es[i])
  }

  // ----- how many submissions bisection takes -----

  /** Submissions of a batch when every one of them gets a decision. */
  function Submits(ok: Validity, batch: seq<Event>): nat
    requires batch != []
    decreases |batch|
  {
    if AllValid(ok, batch) || |batch| == 1 then 1
    else 1 + Submits(ok, batch[..|batch| / 2]) + Submits(ok, batch[|batch| / 2..])
  }

  function Pow2(n: nat): nat {
    if n == 0 then 1 else 2 * Pow2(n - 1)
  }

  /** The number of times a batch of this size can be halved, rounding up, before one event is left. */
  function CeilLog2(n: nat): nat
    requires n > 0
  {
    if n == 1 then 0 else 1 + CeilLog2((n + 1) / 2)
  }

  lemma {:induction false} CeilLog2Meaning(n: nat)
    requires n > 0
    ensures n <= Pow2(CeilLog2(n))
    ensures n > 1 ==> Pow2(CeilLog2(n) - 1) < n
  {
    if n > 1 {
      CeilLog2Meaning((n + 1) / 2);
    }
  }

  lemma {:induction false} CeilLog2Monotone(m: nat, n: nat)
    requires 0 < m <= n
    ensures CeilLog2(m) <= CeilLog2(n)
    decreases n
  {
    if m > 1 {
      CeilLog2Monotone((m + 1) / 2, (n + 1) / 2);
    }
  }

  /** One batch of `n` events costs at most `2n - 1` submissions. */
  lemma {:induction false} SubmitsLinear(ok: Validity, batch: seq<Event>)
    requires batch != []
    ensures Submits(ok, batch) <= 2 * |batch| - 1
    decreases |batch|
  {
    if !AllValid(ok, batch) && |batch| > 1 {
      SubmitsLinear(ok, batch[..|batch| / 2]);
      SubmitsLinear(ok, batch[|batch| / 2..]);
    }
  }

  /** The submissions a batch with `k` poison events may take, when halving it `depth` times isolates an event. */
  function Budget(k: nat, depth: nat): nat {
    if k == 0 then 1 else 1 + 2 * k * depth
  }

  lemma BudgetSplits(left: nat, right: nat, depth: nat)
    requires depth > 0 && left + right > 0
    ensures 1 + Budget(left, depth - 1) + Budget(right, depth - 1) <= Budget(left + right, depth)
  {
    var k := left + right;
    assert 2 * k * depth == 2 * left * (depth - 1) + 2 * right * (depth - 1) + 2 * k;
    assert left * (depth - 1) >= 0 && right * (depth - 1) >= 0;
  }

  lemma BudgetGrows(k: nat, m: nat, n: nat)
    requires m <= n
    ensures Budget(k, m) <= Budget(k, n)
  {
    assert 2 * k * n - 2 * k * m == 2 * k * (n - m);
  }

  lemma HalvesAreShallower(n: nat)
    requires n > 1
    ensures CeilLog2(n / 2) <= CeilLog2(n - n / 2) == CeilLog2(n) - 1
  {
    CeilLog2Monotone(n / 2, n - n / 2);
  }

  lemma HalvesSharePoison(ok: Validity, batch: seq<Event>, mid: nat)
    requires mid <= |batch|
    ensures |Invalid(ok, batch)| == |Invalid(ok, batch[..mid])| + |Invalid(ok, batch[mid..])|
  {
    InvalidConcat(ok, batch[..mid], batch[mid..]);
    assert batch == batch[..mid] + batch[mid..];
  }

  /** With `k` poison events among `n` it costs at most `1 + 2k * ceil(log2 n)`, and 1 with none. */
  lemma {:induction false} SubmitsByPoison(ok: Validity, batch: seq<Event>)
    requires batch != []
    ensures Submits(ok, batch) <= Budget(|Invalid(ok, batch)|, CeilLog2(|batch|))
    decreases |batch|
  {
    SplitOfValid(ok, batch);
    if !AllValid(ok, batch) && |batch| > 1 {
      var left, right := batch[..|batch| / 2], batch[|batch| / 2..];
      HalvesAreShallower(|batch|);
      HalvesSharePoison(ok, batch, |batch| / 2);
      SubmitsByPoison(ok, left);
      SubmitsByPoison(ok, right);
      BudgetGrows(|Invalid(ok, left)|, CeilLog2(|left|), CeilLog2(|right|));
      BudgetSplits(|Invalid(ok, left)|, |Invalid(ok, right)|, CeilLog2(|batch|));
    }
  }

  // ----- the server, as the client can observe it -----

  /** `accepted` is the count in the reply's body, if the body can be read and has one. */
  datatype Reply = Reply(status: nat, accepted: Option<nat>)

  predicate Ok(status: nat) {
    200 <= status < 300
  }

  predicate Malformed(status: nat) {
    status == 400 || status == 422
  }

  predicate Retryable(status: nat) {
    status == 429 || status >= 500
  }

  function Ids(es: seq<Event>): set<string> {
    set i | 0 <= i < |es| :: es[i].id
  }

  /** How many events of the batch are not stored yet when their turn comes. */
  function Fresh(stored: set<string>, batch: seq<Event>): (n: nat)
    ensures n <= |batch|
    decreases |batch|
  {
    if batch == [] then 0
    else (if batch[0].id in stored then 0 else 1) + Fresh(stored + {batch[0].id}, batch[1..])
  }

  predicate DistinctIds(es: seq<Event>) {
    forall i, j :: 0 <= i < j < |es| ==> es[i].id != es[j].id
  }

  lemma DistinctCons(batch: seq<Event>)
    requires batch != []
    ensures Ids(batch) == {batch[0].id} + Ids(batch[1..])
    ensures DistinctIds(batch) <==> batch[0].id !in Ids(batch[1..]) && DistinctIds(batch[1..])
  {
    var e, rest := batch[0], batch[1..];
    assert forall i :: 0 < i < |batch| ==> batch[i] == rest[i - 1];
    if DistinctIds(batch) {
      assert forall i, j :: 0 <= i < j < |rest| ==> rest[i] == batch[i + 1] && rest[j] == batch[j + 1];
    }
  }

  /** A batch is counted whole exactly when its events are distinct and none of them was stored. */
  lemma {:induction false} FreshMeaning(stored: set<string>, batch: seq<Event>)
    ensures Fresh(stored, batch) == |batch| <==> DistinctIds(batch) && Ids(batch) !! stored
    decreases |batch|
  {
    if batch != [] {
      var e, rest := batch[0], batch[1..];
      FreshMeaning(stored + {e.id}, rest);
      DistinctCons(batch);
      assert Ids(rest) !! (stored + {e.id}) <==> Ids(rest) !! stored && e.id !in Ids(rest);
    }
  }

  /** A batch acknowledged with a 2xx reply, the count in that reply, and what was stored before it. */
  datatype Ack = Ack(batch: seq<Event>, accepted: Option<nat>, before: set<string>)

  /** What the client counts: the reported number, or the whole batch if none can be read. */
  function Count(a: Ack): nat {
    if a.accepted.Some? then a.accepted.value else |a.batch|
  }

  function Counted(acks: seq<Ack>): nat {
    if acks == [] then 0 else Count(acks[0]) + Counted(acks[1..])
  }

  function Acknowledged(acks: seq<Ack>): seq<Event> {
    if acks == [] then [] else acks[0].batch + Acknowledged(acks[1..])
  }

  /** The counts that this repository's endpoint reports are those of the events that were new. */
  predicate Truthful(acks: seq<Ack>) {
    forall i :: 0 <= i < |acks| && acks[i].accepted.Some? ==>
      acks[i].accepted.value == Fresh(acks[i].before, acks[i].batch)
  }

  /** No count exceeds its batch. */
  predicate NeverOver(acks: seq<Ack>) {
    forall i :: 0 <= i < |acks| && acks[i].accepted.Some? ==> acks[i].accepted.value <= |acks[i].batch|
  }

  /** Nothing was stored between these acknowledgements but their own batches. */
  predicate Chained(stored: set<string>, acks: seq<Ack>, last: set<string>)
    decreases |acks|
  {
    if acks == [] then last == stored
    else acks[0].before == stored && Chained(stored + Ids(acks[0].batch), acks[1..], last)
  }

  /** What has been stored stays stored, from one acknowledgement to the next. */
  predicate Grows(stored: set<string>, acks: seq<Ack>, last: set<string>)
    decreases |acks|
  {
    if acks == [] then stored <= last
    else stored <= acks[0].before && Grows(acks[0].before + Ids(acks[0].batch), acks[1..], last)
  }

  lemma {:induction false} AcksConcat(a: seq<Ack>, b: seq<Ack>)
    ensures Counted(a + b) == Counted(a) + Counted(b)
    ensures Acknowledged(a + b) == Acknowledged(a) + Acknowledged(b)
    decreases |a|
  {
    if a == [] {
      assert a + b == b;
    } else {
      assert (a + b)[0] == a[0] && (a + b)[1..] == a[1..] + b;
      AcksConcat(a[1..], b);
    }
  }

  lemma {:induction false} ChainedConcat(s0: set<string>, a: seq<Ack>, s1: set<string>, b: seq<Ack>, s2: set<string>)
    requires Chained(s0, a, s1) && Chained(s1, b, s2)
    ensures Chained(s0, a + b, s2)
    decreases |a|
  {
    if a == [] {
      assert a + b == b;
    } else {
      assert (a + b)[0] == a[0] && (a + b)[1..] == a[1..] + b;
      ChainedConcat(s0 + Ids(a[0].batch), a[1..], s1, b, s2);
    }
  }

  lemma {:induction false} GrowsConcat(s0: set<string>, a: seq<Ack>, s1: set<string>, b: seq<Ack>, s2: set<string>)
    requires Grows(s0, a, s1) && Grows(s1, b, s2)
    ensures Grows(s0, a + b, s2)
    decreases |a|
  {
    if a == [] {
      assert a + b == b;
    } else {
      assert (a + b)[0] == a[0] && (a + b)[1..] == a[1..] + b;
      GrowsConcat(a[0].before + Ids(a[0].batch), a[1..], s1, b, s2);
    }
  }

  /**
   The server's side of a conversation: the acknowledgements given, the events stored, and how many
   requests were stored without an acknowledgement reaching the client.
   */
  datatype Ledger = Ledger(acks: seq<Ack>, stored: set<string>, unanswered: nat)

  /** One request. The reply may be missing, or a failure although the batch was stored. */
  predicate Answers(ok: Validity, l: Ledger, batch: seq<Event>, reply: Option<Reply>, l': Ledger) {
    if reply.Some? && Ok(reply.value.status) then
      && AllValid(ok, batch)
      && l' == Ledger(l.acks + [Ack(batch, reply.value.accepted, l.stored)], l.stored + Ids(batch), l.unanswered)
    else
      && (reply.Some? && Malformed(reply.value.status) ==> !AllValid(ok, batch))
      && (l' == l || (AllValid(ok, batch) && l' == l.(stored := l.stored + Ids(batch), unanswered := l.unanswered + 1)))
  }

  /** Between two moments exactly these acknowledgements were given. */
  ghost predicate Advances(l: Ledger, more: seq<Ack>, l': Ledger) {
    && l'.acks == l.acks + more
    && l.unanswered <= l'.unanswered
    && Grows(l.stored, more, l'.stored)
    && (l'.unanswered == l.unanswered ==> Chained(l.stored, more, l'.stored))
  }

  lemma NoneAdvances(l: Ledger)
    ensures Advances(l, [], l)
  {
    assert l.acks + [] == l.acks;
  }

  lemma AdvancesConcat(l: Ledger, a: seq<Ack>, m: Ledger, b: seq<Ack>, n: Ledger)
    requires Advances(l, a, m) && Advances(m, b, n)
    ensures Advances(l, a + b, n)
  {
    assert l.acks + a + b == l.acks + (a + b);
    GrowsConcat(l.stored, a, m.stored, b, n.stored);
    assert forall i :: 0 <= i < |b| ==> (a + b)[|a| + i] == b[i];
    if n.unanswered == l.unanswered {
      ChainedConcat(l.stored, a, m.stored, b, n.stored);
    }
  }

  /** The acknowledgement a reply gives, if it gives one. */
  function AckOf(l: Ledger, batch: seq<Event>, reply: Option<Reply>): seq<Ack> {
    if reply.Some? && Ok(reply.value.status) then [Ack(batch, reply.value.accepted, l.stored)] else []
  }

  lemma AnswerAdvances(ok: Validity, l0: Ledger, l: Ledger, batch: seq<Event>, reply: Option<Reply>, l': Ledger)
    requires Advances(l0, [], l) && Answers(ok, l, batch, reply, l')
    ensures Advances(l0, AckOf(l, batch, reply), l')
  {
    assert l0.acks + [] == l0.acks;
    var more := AckOf(l, batch, reply);
    assert more != [] ==> more[1..] == [];
  }

  /** One request and what came back. */
  datatype Exchange = Exchange(batch: seq<Event>, reply: Option<Reply>)

  class Server {
    const ok: Validity
    var stored: set<string>
    ghost var acks: seq<Ack>
    ghost var unanswered: nat
    ghost var talk: seq<Exchange>

    constructor (ok: Validity)
      ensures this.ok == ok && Now() == Ledger([], {}, 0) && talk == []
    {
      this.ok, stored, acks, unanswered, talk := ok, {}, [], 0, [];
    }

    ghost function Now(): Ledger
      reads this
    {
      Ledger(acks, stored, unanswered)
    }

    /** One request; `None` when there is no reply at all. */
    method Fetch(batch: seq<Event>) returns (reply: Option<Reply>)
      modifies this
      ensures talk == old(talk) + [Exchange(batch, reply)]
      ensures Answers(ok, old(Now()), batch, reply, Now())
    {
      reply := Answer(batch);
      talk := talk + [Exchange(batch, reply)];
    }

    method Answer(batch: seq<Event>) returns (reply: Option<Reply>)
      modifies this`stored, this`acks, this`unanswered
      ensures Answers(ok, old(Now()), batch, reply, Now())
    {
      var valid := AllValid(ok, batch);
      var stores: bool := *;
      var status: nat := *;
      var replies: bool := *;
      if stores && valid {
        var count: nat := *;
        var before := stored;
        stored := stored + Ids(batch);
        if replies && Ok(status) {
          var readable: bool := *;
          reply := Some(Reply(status, if readable then Some(count) else None));
          acks := acks + [Ack(batch, reply.value.accepted, before)];
          return;
        }
        unanswered := unanswered + 1;
        return if replies && !Malformed(status) then Some(Reply(status, None)) else None;
      }
      if !replies || Ok(status) || (Malformed(status) && valid) {
        return None;
      }
      return Some(Reply(status, None));
    }
  }

  // ----- what was said -----

  /**
   What the replies to one batch come to: the last one counts, and it may be a retryable one only if no
   attempt is left.
   */
  predicate Concludes(posts: seq<Exchange>, batch: seq<Event>, maxRetries: int, r: PostResult) {
    if maxRetries < 0 then posts == [] && r == RetriesExhausted(0)
    else
      && 0 < |posts| <= maxRetries + 1 && SameBatch(posts, batch)
      && (forall i :: 0 <= i < |posts| - 1 ==> ToRetry(posts[i]))
      && var last := posts[|posts| - 1];
         match last.reply
         case None => r == Unreachable
         case Some(reply) =>
           if ToRetry(last) then |posts| == maxRetries + 1 && r == RetriesExhausted(reply.status)
           else r == Response(reply)
  }

  predicate SameBatch(posts: seq<Exchange>, batch: seq<Event>) {
    forall i :: 0 <= i < |posts| ==> posts[i].batch == batch
  }

  /** The reply asks for another attempt. */
  predicate ToRetry(x: Exchange) {
    x.reply.Some? && Retryable(x.reply.value.status)
  }

  /** The reply decides the batch: stored, or refused as malformed. */
  predicate Decisive(x: Exchange) {
    x.reply.Some? && (Ok(x.reply.value.status) || Malformed(x.reply.value.status))
  }

  /** The reply gives a response to the caller. */
  predicate Responds(x: Exchange) {
    x.reply.Some? && !Retryable(x.reply.value.status)
  }

  function Responses(talk: seq<Exchange>): nat {
    if talk == [] then 0 else (if Responds(talk[0]) then 1 else 0) + Responses(talk[1..])
  }

  /** The error that a reply ends the call with. */
  predicate Ends(x: Exchange, outcome: Outcome) {
    match x.reply
    case None => outcome == NetworkError
    case Some(reply) => !Decisive(x) && outcome == if reply.status == 401 then AuthError else RetryError(reply.status)
  }

  /** No attempt was left: the last `maxRetries + 1` replies were all retryable and to the same batch. */
  predicate Exhausted(talk: seq<Exchange>, maxRetries: nat) {
    && maxRetries < |talk|
    && forall i :: |talk| - 1 - maxRetries <= i < |talk| ==>
         ToRetry(talk[i]) && talk[i].batch == talk[|talk| - 1].batch
  }

  /** A retryable reply is followed by the same batch again; otherwise only decisions are followed by anything. */
  predicate Continues(talk: seq<Exchange>) {
    forall i :: 0 <= i < |talk| - 1 ==>
      Decisive(talk[i]) || (ToRetry(talk[i]) && talk[i + 1].batch == talk[i].batch)
  }

  /**
   How a call ends: an error is always that of the last reply, and a retryable one only when no attempt
   was left; a call without an error ends with a decision.
   */
  ghost predicate Conversed(talk: seq<Exchange>, maxRetries: int, outcome: Outcome) {
    && Continues(talk) && (maxRetries < 0 ==> talk == [])
    && if outcome.Done? then talk != [] ==> Decisive(talk[|talk| - 1])
       else if talk == [] then maxRetries < 0 && outcome == RetryError(0)
       else Ends(talk[|talk| - 1], outcome) && (ToRetry(talk[|talk| - 1]) ==> Exhausted(talk, maxRetries))
  }

  /** The call has said this much more, ended like this, and counted its responses from `n` to `m`. */
  ghost predicate Reported(before: seq<Exchange>, after: seq<Exchange>, maxRetries: int, outcome: Outcome, n: nat,
      m: nat)
  {
    && before <= after && Conversed(after[|before|..], maxRetries, outcome)
    && m == n + Responses(after[|before|..])
  }

  lemma NothingReported(talk: seq<Exchange>, maxRetries: int)
    ensures Reported(talk, talk, maxRetries, Done, 0, 0)
  {
    assert talk[|talk|..] == [];
  }

  lemma PostReported(talk: seq<Exchange>, posts: seq<Exchange>, batch: seq<Event>, maxRetries: int, r: PostResult,
      n: nat)
    requires Concludes(posts, batch, maxRetries, r)
    ensures Reported(talk, talk + posts, maxRetries, Verdict(r), n, n + if r.Response? then 1 else 0)
  {
    assert (talk + posts)[|talk|..] == posts;
    PostSaid(posts, batch, maxRetries, r);
  }

  lemma ReportedConcat(a: seq<Exchange>, b: seq<Exchange>, c: seq<Exchange>, maxRetries: int, outcome: Outcome,
      n: nat, m: nat, k: nat)
    requires Reported(a, b, maxRetries, Done, n, m) && Reported(b, c, maxRetries, outcome, m, k)
    ensures Reported(a, c, maxRetries, outcome, n, k)
  {
    assert c[|a|..] == b[|a|..] + c[|b|..];
    ConversedConcat(b[|a|..], c[|b|..], maxRetries, outcome);
  }

  /** What the caller makes of one batch's reply, bisection left aside. */
  function Verdict(r: PostResult): Outcome {
    match r
    case Unreachable => NetworkError
    case RetriesExhausted(status) => RetryError(status)
    case Response(reply) =>
      if Ok(reply.status) || Malformed(reply.status) then Done
      else if reply.status == 401 then AuthError
      else RetryError(reply.status)
  }

  lemma PostSaid(posts: seq<Exchange>, batch: seq<Event>, maxRetries: int, r: PostResult)
    requires Concludes(posts, batch, maxRetries, r)
    ensures Conversed(posts, maxRetries, Verdict(r))
    ensures Responses(posts) == if r.Response? then 1 else 0
  {
    PostResponds(posts, batch, maxRetries, r);
    if posts != [] {
      var last := posts[|posts| - 1];
      if last.reply.Some? && Retryable(last.reply.value.status) {
        assert Exhausted(posts, maxRetries);
      }
    }
  }

  lemma PostResponds(posts: seq<Exchange>, batch: seq<Event>, maxRetries: int, r: PostResult)
    requires Concludes(posts, batch, maxRetries, r)
    ensures Responses(posts) == if r.Response? then 1 else 0
  {
    if posts != [] {
      LastResponds(posts);
    }
  }

  lemma {:induction false} LastResponds(posts: seq<Exchange>)
    requires posts != [] && forall i :: 0 <= i < |posts| - 1 ==> !Responds(posts[i])
    ensures Responses(posts) == if Responds(posts[|posts| - 1]) then 1 else 0
    decreases |posts|
  {
    if |posts| > 1 {
      LastResponds(posts[1..]);
    } else {
      assert posts[1..] == [];
    }
  }

  lemma {:induction false} ResponsesConcat(a: seq<Exchange>, b: seq<Exchange>)
    ensures Responses(a + b) == Responses(a) + Responses(b)
    decreases |a|
  {
    if a == [] {
      assert a + b == b;
    } else {
      assert (a + b)[0] == a[0] && (a + b)[1..] == a[1..] + b;
      ResponsesConcat(a[1..], b);
    }
  }

  lemma ConversedConcat(a: seq<Exchange>, b: seq<Exchange>, maxRetries: int, outcome: Outcome)
    requires Conversed(a, maxRetries, Done) && Conversed(b, maxRetries, outcome)
    ensures Conversed(a + b, maxRetries, outcome) && Responses(a + b) == Responses(a) + Responses(b)
  {
    ResponsesConcat(a, b);
    ContinuesConcat(a, b);
    if b == [] {
      assert a + b == a;
    } else {
      assert (a + b)[|a + b| - 1] == b[|b| - 1];
      if !outcome.Done? && ToRetry(b[|b| - 1]) {
        ExhaustedAfter(a, b, maxRetries);
      }
    }
  }

  lemma ExhaustedAfter(a: seq<Exchange>, b: seq<Exchange>, maxRetries: nat)
    requires Exhausted(b, maxRetries)
    ensures Exhausted(a + b, maxRetries)
  {
    assert forall i :: 0 <= i < |b| ==> (a + b)[|a| + i] == b[i];
    forall i | |a + b| - 1 - maxRetries <= i < |a + b|
      ensures ToRetry((a + b)[i]) && (a + b)[i].batch == (a + b)[|a + b| - 1].batch
    {
      assert (a + b)[i] == b[i - |a|];
    }
  }

  lemma ContinuesConcat(a: seq<Exchange>, b: seq<Exchange>)
    requires Continues(a) && Continues(b) && (a != [] ==> Decisive(a[|a| - 1]))
    ensures Continues(a + b)
  {
    var all := a + b;
    forall i | 0 <= i < |all| - 1
      ensures Decisive(all[i]) || (ToRetry(all[i]) && all[i + 1].batch == all[i].batch)
    {
      if i < |a| - 1 {
        assert all[i] == a[i] && all[i + 1] == a[i + 1];
      } else if i == |a| - 1 {
        assert all[i] == a[i];
      } else {
        assert all[i] == b[i - |a|] && all[i + 1] == b[i - |a| + 1];
      }
    }
  }

  // ----- what has been decided -----

  datatype PostResult = Response(reply: Reply) | RetriesExhausted(status: nat) | Unreachable

  datatype Outcome = Done | AuthError | RetryError(status: nat) | NetworkError

  /** What a caller of the client can show for its events so far. */
  datatype Tally = Tally(accepted: nat, rejected: nat, poison: seq<Event>, ledger: Ledger)

  /** The acknowledgements given between two tallies. */
  function Since(t: Tally, t': Tally): seq<Ack>
    requires |t.ledger.acks| <= |t'.ledger.acks|
  {
    t'.ledger.acks[|t.ledger.acks|..]
  }

  /**
   From one tally to the other exactly these events were decided: the invalid ones set aside, in order,
   the valid ones acknowledged, once each, and the acknowledged counts added up.
   */
  ghost predicate Decides(ok: Validity, t: Tally, es: seq<Event>, t': Tally) {
    && |t.ledger.acks| <= |t'.ledger.acks|
    && Advances(t.ledger, Since(t, t'), t'.ledger)
    && Acknowledged(Since(t, t')) == Valid(ok, es)
    && t'.accepted == t.accepted + Counted(Since(t, t'))
    && t'.rejected == t.rejected + |Invalid(ok, es)|
    && t'.poison == t.poison + Invalid(ok, es)
  }

  /** A request stored without an acknowledgement shows in a later one of events that were stored before. */
  ghost predicate Accounted(t: Tally, t': Tally)
    requires |t.ledger.acks| <= |t'.ledger.acks|
  {
    t'.ledger.unanswered == t.ledger.unanswered || exists a :: a in Since(t, t') && !(Ids(a.batch) !! a.before)
  }

  ghost predicate DecidesAll(ok: Validity, t: Tally, es: seq<Event>, t': Tally) {
    Decides(ok, t, es, t') && Accounted(t, t')
  }

  lemma NothingDecided(ok: Validity, t: Tally, l: Ledger)
    requires Advances(t.ledger, [], l)
    ensures Decides(ok, t, [], t.(ledger := l))
  {
    assert Since(t, t.(ledger := l)) == [];
  }

  lemma AcceptedDecided(ok: Validity, t: Tally, batch: seq<Event>, more: seq<Ack>, l: Ledger)
    requires batch != [] && AllValid(ok, batch) && |more| == 1 && more[0].batch == batch && Advances(t.ledger, more, l)
    requires l.unanswered == t.ledger.unanswered || Ids(batch) <= more[0].before
    ensures DecidesAll(ok, t, batch, t.(accepted := t.accepted + Count(more[0]), ledger := l))
  {
    var t' := t.(accepted := t.accepted + Count(more[0]), ledger := l);
    assert Since(t, t') == more && more[1..] == [];
    SplitOfValid(ok, batch);
    assert batch[0].id in Ids(batch) && more[0] in Since(t, t');
  }

  lemma PoisonDecided(ok: Validity, t: Tally, batch: seq<Event>, l: Ledger)
    requires |batch| == 1 && !AllValid(ok, batch) && l == t.ledger
    ensures DecidesAll(ok, t, batch, t.(rejected := t.rejected + 1, poison := t.poison + [batch[0]], ledger := l))
  {
    var t' := t.(rejected := t.rejected + 1, poison := t.poison + [batch[0]], ledger := l);
    NoneAdvances(l);
    assert Since(t, t') == [] && batch[1..] == [] && !ok(batch[0]);
  }

  lemma DecidesConcat(ok: Validity, t: Tally, a: seq<Event>, u: Tally, b: seq<Event>, v: Tally)
    requires Decides(ok, t, a, u) && Decides(ok, u, b, v)
    ensures Decides(ok, t, a + b, v)
  {
    AdvancesConcat(t.ledger, Since(t, u), u.ledger, Since(u, v), v.ledger);
    assert Since(t, v) == Since(t, u) + Since(u, v);
    AcksConcat(Since(t, u), Since(u, v));
    ValidConcat(ok, a, b);
    InvalidConcat(ok, a, b);
    assert (t.poison + Invalid(ok, a)) + Invalid(ok, b) == t.poison + (Invalid(ok, a) + Invalid(ok, b));
  }

  lemma DecidesAllConcat(ok: Validity, t: Tally, a: seq<Event>, u: Tally, b: seq<Event>, v: Tally)
    requires DecidesAll(ok, t, a, u) && DecidesAll(ok, u, b, v)
    ensures DecidesAll(ok, t, a + b, v)
  {
    DecidesConcat(ok, t, a, u, b, v);
    AccountedConcat(t, u, v);
  }

  lemma AccountedConcat(t: Tally, u: Tally, v: Tally)
    requires t.ledger.acks <= u.ledger.acks <= v.ledger.acks && Accounted(t, u) && Accounted(u, v)
    ensures Accounted(t, v)
  {
    assert Since(t, v) == Since(t, u) + Since(u, v);
  }

  /** Some first part of the events has been decided, and nothing else has happened. */
  ghost predicate PartDecided(ok: Validity, t: Tally, es: seq<Event>, t': Tally) {
    exists m :: 0 <= m <= |es| && Decides(ok, t, es[..m], t')
  }

  lemma PartOfFirst(ok: Validity, t: Tally, a: seq<Event>, b: seq<Event>, t': Tally)
    requires PartDecided(ok, t, a, t')
    ensures PartDecided(ok, t, a + b, t')
  {
    var m :| 0 <= m <= |a| && Decides(ok, t, a[..m], t');
    assert (a + b)[..m] == a[..m];
  }

  lemma PartOfSecond(ok: Validity, t: Tally, a: seq<Event>, u: Tally, b: seq<Event>, t': Tally)
    requires Decides(ok, t, a, u) && PartDecided(ok, u, b, t')
    ensures PartDecided(ok, t, a + b, t')
  {
    var m :| 0 <= m <= |b| && Decides(ok, u, b[..m], t');
    DecidesConcat(ok, t, a, u, b[..m], t');
    assert (a + b)[..|a| + m] == a + b[..m];
  }

  /** What a submission of the events leaves behind: all of them decided, or an error and a first part. */
  ghost predicate Settles(ok: Validity, t: Tally, es: seq<Event>, t': Tally, outcome: Outcome) {
    if outcome.Done? then DecidesAll(ok, t, es, t') else PartDecided(ok, t, es, t')
  }

  lemma NothingSettled(ok: Validity, t: Tally, es: seq<Event>, l: Ledger, outcome: Outcome)
    requires Advances(t.ledger, [], l) && !outcome.Done?
    ensures Settles(ok, t, es, t.(ledger := l), outcome)
  {
    NothingDecided(ok, t, l);
    assert es[..0] == [];
  }

  /** The two halves of a refused batch, the second submitted only if the first was decided. */
  lemma HalvesSettle(ok: Validity, t: Tally, batch: seq<Event>, mid: nat, u: Tally, first: Outcome, v: Tally,
      second: Outcome)
    requires mid <= |batch| && Settles(ok, t, batch[..mid], u, first)
    requires first.Done? ==> Settles(ok, u, batch[mid..], v, second)
    ensures if first.Done? then Settles(ok, t, batch, v, second) else Settles(ok, t, batch, u, first)
  {
    var left, right := batch[..mid], batch[mid..];
    assert batch == left + right;
    if !first.Done? {
      PartOfFirst(ok, t, left, right, u);
    } else if second.Done? {
      DecidesAllConcat(ok, t, left, u, right, v);
    } else {
      PartOfSecond(ok, t, left, u, right, v);
    }
  }

  // ----- what the counts mean -----

  /** Every reply that could be read counted its whole batch. */
  predicate CountedWhole(acks: seq<Ack>) {
    forall i :: 0 <= i < |acks| && acks[i].accepted.Some? ==> acks[i].accepted.value == |acks[i].batch|
  }

  lemma {:induction false} CountsAddUpIff(acks: seq<Ack>)
    requires NeverOver(acks)
    ensures Counted(acks) <= |Acknowledged(acks)|
    ensures Counted(acks) == |Acknowledged(acks)| <==> CountedWhole(acks)
    decreases |acks|
  {
    if acks != [] {
      var rest := acks[1..];
      assert forall i :: 0 <= i < |rest| ==> rest[i] == acks[i + 1];
      CountsAddUpIff(rest);
      assert CountedWhole(acks) <==> Count(acks[0]) == |acks[0].batch| && CountedWhole(rest) by {
        assert forall i :: 0 < i < |acks| ==> acks[i] == rest[i - 1];
      }
    }
  }

  /**
   When all events have been decided and no reply counted more than its batch: accepted and rejected add
   up to the events if and only if every readable reply counted its whole batch.
   */
  lemma AddUpIff(ok: Validity, t: Tally, es: seq<Event>, t': Tally)
    requires Decides(ok, t, es, t') && NeverOver(Since(t, t'))
    ensures (t'.accepted - t.accepted) + (t'.rejected - t.rejected) == |es| <==> CountedWhole(Since(t, t'))
  {
    CountsAddUpIff(Since(t, t'));
    SplitIsComplete(ok, es);
  }

  /** For this repository's endpoint that is when none of the events had been stored before. */
  lemma CountedWholeMeaning(acks: seq<Ack>)
    requires Truthful(acks)
    ensures NeverOver(acks)
    ensures CountedWhole(acks) <==>
      forall a :: a in acks && a.accepted.Some? ==> DistinctIds(a.batch) && Ids(a.batch) !! a.before
  {
    forall i | 0 <= i < |acks| && acks[i].accepted.Some?
      ensures acks[i].accepted.value == |acks[i].batch| <==>
        DistinctIds(acks[i].batch) && Ids(acks[i].batch) !! acks[i].before
    {
      FreshMeaning(acks[i].before, acks[i].batch);
    }
  }

  lemma DistinctConcat(a: seq<Event>, b: seq<Event>)
    requires DistinctIds(a + b)
    ensures DistinctIds(a) && DistinctIds(b) && Ids(a) !! Ids(b) && Ids(a + b) == Ids(a) + Ids(b)
  {
    var all := a + b;
    assert forall i :: 0 <= i < |a| ==> all[i] == a[i];
    assert forall i :: 0 <= i < |b| ==> all[|a| + i] == b[i];
  }

  lemma {:induction false} FreshEventsAreCounted(stored: set<string>, acks: seq<Ack>, last: set<string>)
    requires Truthful(acks) && Chained(stored, acks, last)
    requires DistinctIds(Acknowledged(acks)) && Ids(Acknowledged(acks)) !! stored
    ensures CountedWhole(acks)
    decreases |acks|
  {
    if acks != [] {
      var b, rest := acks[0].batch, acks[1..];
      DistinctConcat(b, Acknowledged(rest));
      FreshMeaning(stored, b);
      assert forall i :: 0 <= i < |rest| ==> rest[i] == acks[i + 1];
      FreshEventsAreCounted(stored + Ids(b), rest, last);
      assert forall i :: 0 < i < |acks| ==> acks[i] == rest[i - 1];
    }
  }

  /**
   What a caller can check beforehand: the valid events are distinct and none of them is stored. Unless
   a stored request then goes unanswered, and perhaps is sent again, accepted and rejected add up to the
   events.
   */
  lemma FreshCallAddsUp(ok: Validity, t: Tally, es: seq<Event>, t': Tally)
    requires Decides(ok, t, es, t') && DistinctIds(Valid(ok, es)) && Ids(Valid(ok, es)) !! t.ledger.stored
    requires Truthful(Since(t, t')) && t'.ledger.unanswered == t.ledger.unanswered
    ensures (t'.accepted - t.accepted) + (t'.rejected - t.rejected) == |es|
  {
    FreshEventsAreCounted(t.ledger.stored, Since(t, t'), t'.ledger.stored);
    CountedWholeMeaning(Since(t, t'));
    AddUpIff(ok, t, es, t');
  }

  lemma DistinctTogether(a: seq<Event>, b: seq<Event>)
    requires DistinctIds(a) && DistinctIds(b) && Ids(a) !! Ids(b)
    ensures DistinctIds(a + b) && Ids(a + b) == Ids(a) + Ids(b)
  {
    var all := a + b;
    forall i, j | 0 <= i < j < |all| ensures all[i].id != all[j].id {
      if i < |a| <= j {
        assert a[i].id in Ids(a) && b[j - |a|].id in Ids(b);
      }
    }
    assert forall i :: 0 <= i < |a| ==> all[i] == a[i];
    assert forall i :: 0 <= i < |b| ==> all[|a| + i] == b[i];
  }

  lemma {:induction false} CountedWereFresh(stored: set<string>, acks: seq<Ack>, last: set<string>)
    requires Grows(stored, acks, last) && forall a :: a in acks ==> DistinctIds(a.batch) && Ids(a.batch) !! a.before
    ensures DistinctIds(Acknowledged(acks)) && Ids(Acknowledged(acks)) !! stored
    decreases |acks|
  {
    if acks != [] {
      assert acks[0] in acks;
      CountedWereFresh(acks[0].before + Ids(acks[0].batch), acks[1..], last);
      DistinctTogether(acks[0].batch, Acknowledged(acks[1..]));
    }
  }

  /**
   Exactly: when every event has been decided and every reply could be read, accepted and rejected add up
   to the events if and only if the valid events are distinct, none of them was stored, and no request was
   stored without its acknowledgement.
   */
  lemma FreshCallIff(ok: Validity, t: Tally, es: seq<Event>, t': Tally)
    requires DecidesAll(ok, t, es, t') && Truthful(Since(t, t'))
    requires forall a :: a in Since(t, t') ==> a.accepted.Some?
    ensures (t'.accepted - t.accepted) + (t'.rejected - t.rejected) == |es| <==>
      DistinctIds(Valid(ok, es)) && Ids(Valid(ok, es)) !! t.ledger.stored && t'.ledger.unanswered == t.ledger.unanswered
  {
    CountedWholeMeaning(Since(t, t'));
    AddUpIff(ok, t, es, t');
    if CountedWhole(Since(t, t')) {
      CountedWereFresh(t.ledger.stored, Since(t, t'), t'.ledger.stored);
    }
    if DistinctIds(Valid(ok, es)) && Ids(Valid(ok, es)) !! t.ledger.stored
      && t'.ledger.unanswered == t.ledger.unanswered {
      FreshCallAddsUp(ok, t, es, t');
    }
  }

  /**
   One valid event, nothing stored before. The server stores it, a gateway answers 502, and the retry is
   answered 200 with none accepted: everything is decided, yet accepted and rejected add up to nothing.
   */
  lemma RetryIsNotCounted(ok: Validity, e: Event)
    requires ok(e)
    ensures var l0 := Ledger([], {}, 0);
      var l1, l2 := Ledger([], {e.id}, 1), Ledger([Ack([e], Some(0), {e.id})], {e.id}, 1);
      && Answers(ok, l0, [e], Some(Reply(502, None)), l1) && Retryable(502)
      && Answers(ok, l1, [e], Some(Reply(200, Some(0))), l2) && Truthful(l2.acks)
      && DecidesAll(ok, Tally(0, 0, [], l0), [e], Tally(0, 0, [], l2))
  {
    var l0, l1 := Ledger([], {}, 0), Ledger([], {e.id}, 1);
    var ack := Ack([e], Some(0), {e.id});
    DistinctCons([e]);
    assert Ids([e][1..]) == {} && Ids([e]) == {e.id};
    assert [] + [ack] == [ack] && [ack][1..] == [] && [e][1..] == [];
    FreshMeaning({e.id}, [e]);
    AcceptedDecided(ok, Tally(0, 0, [], l0), [e], [ack], Ledger([ack], {e.id}, 1));
  }

  // ----- the client -----

  class Result {
    var accepted: nat
    var rejected: nat
    var batches: nat
    var poisonEvents: seq<Event>

    constructor ()
      ensures accepted == rejected == batches == 0 && poisonEvents == []
    {
      accepted, rejected, batches, poisonEvents := 0, 0, 0, [];
    }

    ghost function Shown(server: Server): Tally
      reads this, server
    {
      Tally(accepted, rejected, poisonEvents, server.Now())
    }
  }

  /** A wait in milliseconds, not necessarily whole. */
  type Delay = ms: real | ms >= 0.0

  class Client {
    const limits: Limits
    const maxRetries: int
    const backoffBase: Delay
    const server: Server
    /** How long each pause so far has been, in milliseconds. */
    ghost var waits: seq<nat>

    constructor (limits: Limits, maxRetries: int, backoffBase: Delay, server: Server)
      ensures this.limits == limits && this.maxRetries == maxRetries
      ensures this.backoffBase == backoffBase && this.server == server && waits == []
    {
      this.limits, this.maxRetries, this.backoffBase, this.server := limits, maxRetries, backoffBase, server;
      waits := [];
    }

    /** Full jitter: a random whole number of milliseconds up to `base * 2^attempt`. */
    method Backoff(attempt: nat, random: real) returns (ms: nat)
      requires 0.0 <= random < 1.0
      ensures ms as real <= random * Ceiling(backoffBase, attempt) < ms as real + 1.0
      ensures ms as real <= Ceiling(backoffBase, attempt)
    {
      var ceiling := Ceiling(backoffBase, attempt);
      JitterBelow(random, ceiling);
      ms := (random * ceiling).Floor;
    }

    /** The pause after an attempt. */
    method Sleep(attempt: nat)
      modifies this
      ensures exists ms: nat :: ms as real <= Ceiling(backoffBase, attempt) && waits == old(waits) + [ms]
    {
      var random: real := *;
      if !(0.0 <= random < 1.0) {
        random := 0.0;
      }
      var ms := Backoff(attempt, random);
      waits := waits + [ms];
    }

    /**
     One batch with retries. A retryable reply is followed by a pause and another attempt as long as one is
     left; a missing reply and any other one end the call.
     */
    method Post(batch: seq<Event>) returns (r: PostResult, ghost posts: seq<Exchange>, ghost more: seq<Ack>)
      modifies this, server
      ensures server.talk == old(server.talk) + posts && Concludes(posts, batch, maxRetries, r)
      ensures forall i :: 0 <= i < |posts| - 1 ==>
        posts[i].reply.Some? && (posts[i].reply.value.status == 429 || 500 <= posts[i].reply.value.status)
      ensures r.Response? ==> r.reply.status != 429 && r.reply.status < 500
      ensures PausedBetween(backoffBase, old(waits), waits, |posts|)
      ensures Advances(old(server.Now()), more, server.Now())
      ensures if r.Response? && Ok(r.reply.status)
        then AllValid(server.ok, batch) && |more| == 1 && more[0].batch == batch && more[0].accepted == r.reply.accepted
        else more == []
      ensures r.Response? && Malformed(r.reply.status) ==> !AllValid(server.ok, batch)
      ensures !AllValid(server.ok, batch) ==> server.Now() == old(server.Now())
      ensures more != [] ==> server.unanswered == old(server.unanswered) || Ids(batch) <= more[0].before
    {
      var last := 0;
      var attempt := 0;
      ghost var waits0, talk0, l0 := waits, server.talk, server.Now();
      NoneAdvances(l0);
      more, posts := [], [];
      while attempt <= maxRetries
        invariant 0 <= attempt && (attempt <= maxRetries + 1 || attempt == 0)
        invariant server.talk == talk0 + posts && |posts| == attempt && SameBatch(posts, batch)
        invariant forall i :: 0 <= i < |posts| ==> ToRetry(posts[i])
        invariant last == if posts == [] then 0 else posts[|posts| - 1].reply.value.status
        invariant PausedBetween(backoffBase, waits0, waits, if attempt <= maxRetries then attempt + 1 else attempt)
        invariant more == [] && Advances(l0, more, server.Now())
        invariant server.Now() == l0 || (AllValid(server.ok, batch) && Ids(batch) <= server.stored)
      {
        ghost var l := server.Now();
        var reply := server.Fetch(batch);
        posts := posts + [Exchange(batch, reply)];
        AnswerAdvances(server.ok, l0, l, batch, reply, server.Now());
        if reply.None? {
          return Unreachable, posts, [];
        }
        if !Retryable(reply.value.status) {
          return Response(reply.value), posts, AckOf(l, batch, reply);
        }
        last := reply.value.status;
        if attempt < maxRetries {
          Sleep(attempt);
        }
        attempt := attempt + 1;
      }
      return RetriesExhausted(last), posts, [];
    }

    /**
     One batch, bisected as long as the server refuses it as malformed. When every submission gets
     a decision, exactly the invalid events are set aside, in order, and exactly the valid ones have
     been acknowledged, once each; otherwise this holds of the part decided before the error.
     */
    method Submit(batch: seq<Event>, result: Result) returns (outcome: Outcome)
      requires batch != []
      modifies this, server, result
      ensures Settles(server.ok, old(result.Shown(server)), batch, result.Shown(server), outcome)
      ensures outcome.Done? ==> result.batches == old(result.batches) + Submits(server.ok, batch)
      ensures Reported(old(server.talk), server.talk, maxRetries, outcome, old(result.batches), result.batches)
      decreases |batch|, 1
    {
      ghost var t, ok := result.Shown(server), server.ok;
      var posted;
      ghost var more;
      ghost var posts, talk, count := [], server.talk, result.batches;
      posted, posts, more := Post(batch);
      PostReported(talk, posts, batch, maxRetries, posted, count);
      ghost var l := server.Now();
      if posted.Unreachable? {
        NothingSettled(ok, t, batch, l, NetworkError);
        return NetworkError;
      }
      if posted.RetriesExhausted? {
        NothingSettled(ok, t, batch, l, RetryError(posted.status));
        return RetryError(posted.status);
      }
      var reply := posted.reply;
      result.batches := result.batches + 1;
      if Ok(reply.status) {
        AcceptedDecided(ok, t, batch, more, l);
        result.accepted := result.accepted + if reply.accepted.Some? then reply.accepted.value else |batch|;
        return Done;
      }
      if reply.status == 401 {
        NothingSettled(ok, t, batch, l, AuthError);
        return AuthError;
      }
      if Malformed(reply.status) {
        if |batch| == 1 {
          PoisonDecided(ok, t, batch, l);
          result.rejected := result.rejected + 1;
          result.poisonEvents := result.poisonEvents + [batch[0]];
          return Done;
        }
        ghost var refused, refusals := server.talk, result.batches;
        outcome := SubmitHalves(batch, result);
        ReportedConcat(talk, refused, server.talk, maxRetries, outcome, count, refusals, result.batches);
        return;
      }
      NothingSettled(ok, t, batch, l, RetryError(reply.status));
      return RetryError(reply.status);
    }

    /** A refused batch, half by half; the second half waits until the first is decided. */
    method SubmitHalves(batch: seq<Event>, result: Result) returns (outcome: Outcome)
      requires |batch| > 1
      modifies this, server, result
      ensures Settles(server.ok, old(result.Shown(server)), batch, result.Shown(server), outcome)
      ensures outcome.Done? ==>
        result.batches == old(result.batches) + Submits(server.ok, batch[..|batch| / 2]) +
          Submits(server.ok, batch[|batch| / 2..])
      ensures Reported(old(server.talk), server.talk, maxRetries, outcome, old(result.batches), result.batches)
      decreases |batch|, 0
    {
      var mid := |batch| / 2;
      ghost var t, talk, count := result.Shown(server), server.talk, result.batches;
      var first := Submit(batch[..mid], result);
      ghost var u, between, half := result.Shown(server), server.talk, result.batches;
      outcome := first;
      if first.Done? {
        outcome := Submit(batch[mid..], result);
        ReportedConcat(talk, between, server.talk, maxRetries, outcome, count, half, result.batches);
      }
      HalvesSettle(server.ok, t, batch, mid, u, first, result.Shown(server), outcome);
    }

    /**
     All events, batch by batch. Done: the poison events are exactly the invalid ones in input order, each
     valid event has been acknowledged exactly once, and the accepted number is the sum of the counts the
     server reported. If none of them exceeds its batch, it completes the input exactly when every one was
     of a whole batch. An error leaves a first part decided, and is that of the last reply.
     */
    method Ingest(events: seq<Event>)
        returns (result: Result, outcome: Outcome, ghost batches: seq<seq<Event>>)
      modifies this, server
      ensures fresh(result)
      ensures GreedySplit(limits, batches) && Flatten(batches) == events
      ensures Settles(server.ok, Tally(0, 0, [], old(server.Now())), events, result.Shown(server), outcome)
      ensures Reported(old(server.talk), server.talk, maxRetries, outcome, 0, result.batches)
      ensures outcome.Done? ==>
        Complete(server.ok, old(server.Now()), events, batches, result.Shown(server), result.batches)
    {
      var bs := Batches(limits, events);
      batches := bs;
      result := new Result();
      ghost var start, talk := result.Shown(server), server.talk;
      outcome := SubmitAll(bs, result);
      if outcome.Done? {
        IngestEnds(server.ok, start.ledger, events, bs, result.Shown(server), result.batches);
      }
    }

    /** One batch after the other until one ends in an error. */
    method SubmitAll(batches: seq<seq<Event>>, result: Result) returns (outcome: Outcome)
      requires (forall i :: 0 <= i < |batches| ==> batches[i] != []) && result.batches == 0
      modifies this, server, result
      ensures Reported(old(server.talk), server.talk, maxRetries, outcome, 0, result.batches)
      ensures if outcome.Done?
        then IngestedTo(server.ok, old(result.Shown(server)), batches, |batches|, result.Shown(server), result.batches)
        else PartDecided(server.ok, old(result.Shown(server)), Flatten(batches), result.Shown(server))
    {
      outcome := Done;
      ghost var start, ok, talk := result.Shown(server), server.ok, server.talk;
      NothingReported(talk, maxRetries);
      IngestStarts(ok, start, batches);
      for i := 0 to |batches|
        invariant outcome == Done && IngestedTo(ok, start, batches, i, result.Shown(server), result.batches)
        invariant Reported(talk, server.talk, maxRetries, Done, 0, result.batches)
      {
        ghost var before, count, said := result.Shown(server), result.batches, server.talk;
        outcome := Submit(batches[i], result);
        ReportedConcat(talk, said, server.talk, maxRetries, outcome, 0, count, result.batches);
        if !outcome.Done? {
          IngestStops(ok, start, batches, i, before, count, result.Shown(server));
          return;
        }
        IngestNext(ok, start, batches, i, before, count, result.Shown(server));
      }
    }
  }

  /**
   The poison events are the invalid ones in input order; the acknowledged events are the valid ones, once
   each in order; accepted is the sum of the reported counts; and if none exceeds its batch, accepted and
   rejected add up exactly when every one was of a whole batch.
   */
  ghost predicate Complete(ok: Validity, l: Ledger, events: seq<Event>, batches: seq<seq<Event>>, t: Tally,
      count: nat)
    requires forall j :: 0 <= j < |batches| ==> batches[j] != []
  {
    && t.poison == Invalid(ok, events) && t.rejected == |Invalid(ok, events)|
    && count == TotalSubmits(ok, batches) && |l.acks| <= |t.ledger.acks|
    && var acks := t.ledger.acks[|l.acks|..];
       && Acknowledged(acks) == Valid(ok, events) && t.accepted == Counted(acks)
       && (NeverOver(acks) ==> (t.accepted + t.rejected == |events| <==> CountedWhole(acks)))
  }

  /** The first `i` batches have been decided. */
  ghost predicate IngestedTo(ok: Validity, start: Tally, batches: seq<seq<Event>>, i: nat, shown: Tally, count: nat)
    requires i <= |batches| && forall j :: 0 <= j < |batches| ==> batches[j] != []
  {
    DecidesAll(ok, start, Flatten(batches[..i]), shown) && count == TotalSubmits(ok, batches[..i])
  }

  lemma IngestStarts(ok: Validity, start: Tally, batches: seq<seq<Event>>)
    requires forall j :: 0 <= j < |batches| ==> batches[j] != []
    ensures IngestedTo(ok, start, batches, 0, start, 0)
  {
    NoneAdvances(start.ledger);
    NothingDecided(ok, start, start.ledger);
    assert start == start.(ledger := start.ledger);
  }

  lemma IngestEnds(ok: Validity, l: Ledger, events: seq<Event>, batches: seq<seq<Event>>, shown: Tally, count: nat)
    requires (forall j :: 0 <= j < |batches| ==> batches[j] != []) && Flatten(batches) == events
    requires IngestedTo(ok, Tally(0, 0, [], l), batches, |batches|, shown, count)
    ensures DecidesAll(ok, Tally(0, 0, [], l), events, shown) && Complete(ok, l, events, batches, shown, count)
  {
    assert batches[..|batches|] == batches;
    var start := Tally(0, 0, [], l);
    if NeverOver(Since(start, shown)) {
      AddUpIff(ok, start, events, shown);
    }
  }

  lemma IngestNext(ok: Validity, start: Tally, batches: seq<seq<Event>>, i: nat, before: Tally, count: nat,
      shown: Tally)
    requires i < |batches| && forall j :: 0 <= j < |batches| ==> batches[j] != []
    requires IngestedTo(ok, start, batches, i, before, count) && DecidesAll(ok, before, batches[i], shown)
    ensures IngestedTo(ok, start, batches, i + 1, shown, count + Submits(ok, batches[i]))
  {
    NextBatch(batches, i);
    DecidesAllConcat(ok, start, Flatten(batches[..i]), before, batches[i], shown);
  }

  lemma IngestStops(ok: Validity, start: Tally, batches: seq<seq<Event>>, i: nat, before: Tally, count: nat,
      shown: Tally)
    requires i < |batches| && forall j :: 0 <= j < |batches| ==> batches[j] != []
    requires IngestedTo(ok, start, batches, i, before, count) && PartDecided(ok, before, batches[i], shown)
    ensures PartDecided(ok, start, Flatten(batches), shown)
  {
    var done := Flatten(batches[..i]);
    PartOfSecond(ok, start, done, before, batches[i], shown);
    NextBatch(batches, i);
    LaterBatches(batches, i + 1);
    PartOfFirst(ok, start, done + batches[i], Flatten(batches[i + 1..]), shown);
  }

  function TotalSubmits(ok: Validity, batches: seq<seq<Event>>): nat
    requires forall i :: 0 <= i < |batches| ==> batches[i] != []
  {
    if batches == [] then 0 else TotalSubmits(ok, batches[..|batches| - 1]) + Submits(ok, batches[|batches| - 1])
  }

  lemma NextBatch(batches: seq<seq<Event>>, i: nat)
    requires i < |batches|
    ensures Flatten(batches[..i + 1]) == Flatten(batches[..i]) + batches[i]
    ensures batches[..i + 1][..i] == batches[..i]
  {
    FlattenSnoc(batches[..i], batches[i]);
    assert batches[..i + 1] == batches[..i] + [batches[i]];
  }

  lemma LaterBatches(batches: seq<seq<Event>>, i: nat)
    requires i <= |batches|
    ensures Flatten(batches) == Flatten(batches[..i]) + Flatten(batches[i..])
  {
    FlattenConcat(batches[..i], batches[i..]);
    assert batches == batches[..i] + batches[i..];
  }

  /** The longest wait after the given attempt. */
  function Ceiling(base: Delay, attempt: nat): Delay {
    CeilingNotNegative(base, attempt);
    base * Pow2(attempt) as real
  }

  lemma CeilingNotNegative(base: Delay, attempt: nat)
    ensures base * Pow2(attempt) as real >= 0.0
  {
  }

  /** The longest waits after the first `n` attempts, added up. */
  function Waits(base: Delay, n: nat): Delay {
    if n == 0 then 0.0 else Waits(base, n - 1) + Ceiling(base, n - 1)
  }

  lemma {:induction false} WaitsMeaning(base: Delay, n: nat)
    ensures Waits(base, n) == base * (Pow2(n) - 1) as real
    decreases n
  {
    if n > 0 {
      WaitsMeaning(base, n - 1);
      assert (Pow2(n) - 1) as real == (Pow2(n - 1) - 1) as real + Pow2(n - 1) as real;
    }
  }

  /** There was one pause between any two of the `n` attempts, none longer than its ceiling. */
  predicate PausedBetween(base: Delay, before: seq<nat>, after: seq<nat>, n: nat) {
    && before <= after && |after| == |before| + (if n > 0 then n - 1 else 0)
    && forall i :: |before| <= i < |after| ==> after[i] as real <= Ceiling(base, i - |before|)
  }

  function Total(waits: seq<nat>): nat {
    if waits == [] then 0 else Total(waits[..|waits| - 1]) + waits[|waits| - 1]
  }

  /** Over all attempts at one batch the pauses add up to at most the longest waits. */
  lemma PausesAddUp(base: Delay, before: seq<nat>, after: seq<nat>, n: nat, maxRetries: nat)
    requires PausedBetween(base, before, after, n) && n <= maxRetries + 1
    ensures Total(after[|before|..]) as real <= Waits(base, maxRetries)
  {
    var waits := after[|before|..];
    assert forall i :: 0 <= i < |waits| ==> waits[i] == after[|before| + i];
    TotalBelow(base, waits);
    WaitsGrow(base, |waits|, maxRetries);
  }

  lemma {:induction false} TotalBelow(base: Delay, waits: seq<nat>)
    requires forall i :: 0 <= i < |waits| ==> waits[i] as real <= Ceiling(base, i)
    ensures Total(waits) as real <= Waits(base, |waits|)
    decreases |waits|
  {
    if waits != [] {
      TotalBelow(base, waits[..|waits| - 1]);
    }
  }

  lemma {:induction false} WaitsGrow(base: Delay, m: nat, n: nat)
    requires m <= n
    ensures Waits(base, m) <= Waits(base, n)
    decreases n
  {
    if m < n {
      WaitsGrow(base, m, n - 1);
    }
  }

  lemma JitterBelow(random: real, ceiling: Delay)
    requires 0.0 <= random < 1.0
    ensures 0.0 <= random * ceiling <= ceiling && 0 <= (random * ceiling).Floor
  {
  }
}
