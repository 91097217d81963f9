/**
 Rate cards: which price applies to one unit of one model on one day.

 A card is effective over a range of days and belongs to a grain. Resolution filters the cards
 for a query, takes the one with the highest precedence, and falls back between dated and
 undated model ids.
 */
module RateCards {
  import opened Wrappers
  import opened Ordering

  /** Days as proleptic ordinals; the last one is 9999-12-31. */
  const MAX_DAY := 3652059

  type Day = d: int | 1 <= d <= MAX_DAY witness 1

  /** What distinguishes two cards besides their dates. */
  datatype Grain = Grain(provider: string, model: string, unit: string, tier: Option<string>,
                         mode: string, bracket: Option<string>, priority: int)

  datatype Card = Card(id: nat, grain: Grain, from: Day, to: Option<Day>, overriding: bool,
                       price: real, currency: string, source: string)

  datatype Query = Query(provider: string, unit: string, tier: Option<string>, mode: string,
                         bracket: Option<string>)

  datatype ResolvedRate = ResolvedRate(price: real, cardId: nat, currency: string, source: string)

  predicate InForce(from: Day, to: Option<Day>, d: Day) {
    from <= d && (to.None? || d <= to.value)
  }

  predicate EffectiveOn(c: Card, d: Day) {
    InForce(c.from, c.to, d)
  }

  /** A dimension matches when it is equal to the requested one or absent from the card. */
  predicate DimensionMatches(card: Option<string>, requested: Option<string>) {
    card.None? || card == requested
  }

  predicate Matches(c: Card, q: Query, model: string, on: Day) {
    && c.grain.provider == q.provider && c.grain.model == model
    && c.grain.unit == q.unit && c.grain.mode == q.mode
    && EffectiveOn(c, on)
    && DimensionMatches(c.grain.tier, q.tier)
    && DimensionMatches(c.grain.bracket, q.bracket)
  }

  // ----- precedence -----

  datatype Precedence = Precedence(tier: int, bracket: int, priority: int, overriding: int, from: int)

  function PrecedenceOf(c: Card, q: Query): Precedence {
    Precedence(if q.tier.Some? && c.grain.tier == q.tier then 1 else 0,
               if q.bracket.Some? && c.grain.bracket == q.bracket then 1 else 0,
               c.grain.priority,
               if c.overriding then 1 else 0,
               c.from)
  }

  /** Lexicographic comparison. */
  predicate Outranked(a: Precedence, b: Precedence) {
    || a.tier < b.tier
    || (a.tier == b.tier && a.bracket < b.bracket)
    || (a.tier == b.tier && a.bracket == b.bracket && a.priority < b.priority)
    || (a.tier == b.tier && a.bracket == b.bracket && a.priority == b.priority && a.overriding < b.overriding)
    || (a.tier == b.tier && a.bracket == b.bracket && a.priority == b.priority && a.overriding == b.overriding
        && a.from < b.from)
  }

  /** The position of the first matching card of maximal precedence, in row order. */
  function BestCard(cards: seq<Card>, q: Query, model: string, on: Day): (r: Option<nat>)
    ensures r.Some? ==> r.value < |cards| && Matches(cards[r.value], q, model, on)
  {
    if cards == [] then None else
    var last := cards[|cards| - 1];
    var best := BestCard(cards[..|cards| - 1], q, model, on);
    if !Matches(last, q, model, on) then best
    else if best.Some? && !Outranked(PrecedenceOf(cards[best.value], q), PrecedenceOf(last, q)) then best
    else Some(|cards| - 1)
  }

  /** `BestCard` finds a card whenever one matches, and no matching card outranks it. */
  lemma {:induction false} BestCardIsMaximal(cards: seq<Card>, q: Query, model: string, on: Day)
    ensures var r := BestCard(cards, q, model, on);
      && (r.Some? <==> exists i :: 0 <= i < |cards| && Matches(cards[i], q, model, on))
      && (r.Some? ==> forall i :: 0 <= i < |cards| && Matches(cards[i], q, model, on) ==>
            !Outranked(PrecedenceOf(cards[r.value], q), PrecedenceOf(cards[i], q)))
    decreases |cards|
  {
    if cards != [] {
      var init := cards[..|cards| - 1];
      BestCardIsMaximal(init, q, model, on);
      assert forall i :: 0 <= i < |init| ==> init[i] == cards[i];
      if exists i :: 0 <= i < |cards| && Matches(cards[i], q, model, on) {
        var i :| 0 <= i < |cards| && Matches(cards[i], q, model, on);
        assert i < |init| ==> Matches(init[i], q, model, on);
      }
    }
  }

  /** The columns that a card for a query has, on the day. */
  predicate Serves(c: Card, q: Query, model: string, on: Day) {
    && c.grain.provider == q.provider && c.grain.model == model && c.grain.unit == q.unit && c.grain.mode == q.mode
    && c.from <= on && (c.to.Some? ==> on <= c.to.value)
    && (c.grain.tier.Some? ==> c.grain.tier == q.tier) && (c.grain.bracket.Some? ==> c.grain.bracket == q.bracket)
  }

  /** There is a best card exactly when some card serves the query, and it is one of those. */
  lemma BestCardServes(cards: seq<Card>, q: Query, model: string, on: Day)
    ensures var r := BestCard(cards, q, model, on);
      && (r.Some? <==> exists i :: 0 <= i < |cards| && Serves(cards[i], q, model, on))
      && (r.Some? ==> Serves(cards[r.value], q, model, on))
  {
    BestCardIsMaximal(cards, q, model, on);
    assert forall i :: 0 <= i < |cards| ==> (Serves(cards[i], q, model, on) <==> Matches(cards[i], q, model, on));
  }

  predicate ExactTier(c: Card, q: Query) {
    q.tier.Some? && c.grain.tier == q.tier
  }

  predicate ExactBracket(c: Card, q: Query) {
    q.bracket.Some? && c.grain.bracket == q.bracket
  }

  /**
   The winner against any other match, rule by rule: a card for exactly the requested tier, among
   equals one for exactly the bracket, then the higher priority, then an override, then the later start.
   */
  lemma WinnerByRule(cards: seq<Card>, q: Query, model: string, on: Day, i: nat)
    requires i < |cards| && Matches(cards[i], q, model, on)
    ensures BestCard(cards, q, model, on).Some?
    ensures var c, w := cards[i], cards[BestCard(cards, q, model, on).value];
      && (ExactTier(c, q) ==> ExactTier(w, q))
      && (ExactTier(c, q) == ExactTier(w, q) ==>
          && (ExactBracket(c, q) ==> ExactBracket(w, q))
          && (ExactBracket(c, q) == ExactBracket(w, q) ==>
              && c.grain.priority <= w.grain.priority
              && (c.grain.priority == w.grain.priority ==>
                  && (c.overriding ==> w.overriding)
                  && (c.overriding == w.overriding ==> c.from <= w.from))))
  {
    BestCardIsMaximal(cards, q, model, on);
    assert !Outranked(PrecedenceOf(cards[BestCard(cards, q, model, on).value], q), PrecedenceOf(cards[i], q));
  }

  // ----- the dated and undated fallback -----

  predicate IsDigit(c: char) {
    '0' <= c <= '9'
  }

  /** Drops one trailing `-` followed by eight digits. */
  function BaseModelId(model: string): string {
    var n := |model|;
    if n >= 9 && model[n - 9] == '-' && (forall i :: n - 8 <= i < n ==> IsDigit(model[i])) then model[..n - 9]
    else model
  }

  predicate IsDate(digits: string) {
    |digits| == 8 && forall i :: 0 <= i < 8 ==> '0' <= digits[i] <= '9'
  }

  /** A dated id loses its date; any other id is its own base. */
  lemma BaseModelIdMeaning(model: string)
    ensures BaseModelId(model) != model <==> exists base, digits :: IsDate(digits) && model == base + "-" + digits
    ensures forall base, digits :: IsDate(digits) && model == base + "-" + digits ==> BaseModelId(model) == base
  {
    var n := |model|;
    if BaseModelId(model) != model {
      var base, digits := model[..n - 9], model[n - 8..];
      assert IsDate(digits) && model == base + "-" + digits;
    }
    forall base: string, digits: string | IsDate(digits) && model == base + "-" + digits
      ensures BaseModelId(model) == base && base != model
    {
      assert model[n - 9] == '-' && forall i :: n - 8 <= i < n ==> model[i] == digits[i - (n - 8)];
      assert model[..n - 9] == base;
    }
  }

  function InsertDescending(m: string, models: seq<string>): seq<string> {
    if models == [] then [m]
    else if m == models[0] then models
    else if Less(models[0], m) then [m] + models
    else [models[0]] + InsertDescending(m, models[1..])
  }

  predicate IsSnapshot(c: Card, provider: string, model: string) {
    c.grain.provider == provider && c.grain.model != model && BaseModelId(c.grain.model) == model
  }

  /** The snapshots of an undated id are the ids with a date behind it. */
  lemma IsSnapshotMeaning(c: Card, provider: string, model: string)
    ensures IsSnapshot(c, provider, model) <==>
      c.grain.provider == provider && exists digits :: IsDate(digits) && c.grain.model == model + "-" + digits
  {
    BaseModelIdMeaning(c.grain.model);
  }

  /** The distinct dated ids stored for an undated one, newest first. */
  function Snapshots(cards: seq<Card>, provider: string, model: string): seq<string> {
    if cards == [] then []
    else
      var rest := Snapshots(cards[..|cards| - 1], provider, model);
      var c := cards[|cards| - 1];
      if IsSnapshot(c, provider, model) then InsertDescending(c.grain.model, rest) else rest
  }

  function CandidateModels(cards: seq<Card>, provider: string, model: string): seq<string> {
    var base := BaseModelId(model);
    [model] + if base != model then [base] else Snapshots(cards, provider, model)
  }

  /** The first candidate model that has a card, and that card. */
  function FirstHit(cards: seq<Card>, q: Query, models: seq<string>, on: Day): (r: Option<nat>)
    ensures r.Some? ==> r.value < |cards|
  {
    if models == [] then None
    else
      var best := BestCard(cards, q, models[0], on);
      if best.Some? then best else FirstHit(cards, q, models[1..], on)
  }

  function ResolvedIndex(cards: seq<Card>, q: Query, model: string, on: Day): (r: Option<nat>)
    ensures r.Some? ==> r.value < |cards|
  {
    FirstHit(cards, q, CandidateModels(cards, q.provider, model), on)
  }

  function RateOf(c: Card): ResolvedRate {
    ResolvedRate(c.price, c.id, c.currency, c.source)
  }

  function Resolve(cards: seq<Card>, q: Query, model: string, on: Day): Option<ResolvedRate> {
    var i := ResolvedIndex(cards, q, model, on);
    if i.None? then None else Some(RateOf(cards[i.value]))
  }

  /** The search loop over the candidate models: the rate is that of the card it finds, column by column. */
  method ResolveRate(cards: seq<Card>, q: Query, model: string, on: Day) returns (rate: Option<ResolvedRate>)
    ensures rate == Resolve(cards, q, model, on)
    ensures rate.None? <==> ResolvedIndex(cards, q, model, on).None?
    ensures rate.Some? ==>
      var card := cards[ResolvedIndex(cards, q, model, on).value];
      && rate.value.price == card.price && rate.value.cardId == card.id
      && rate.value.currency == card.currency && rate.value.source == card.source
      && Serves(card, q, card.grain.model, on)
  {
    var models := CandidateModels(cards, q.provider, model);
    var i := 0;
    while i < |models|
      invariant 0 <= i <= |models|
      invariant FirstHit(cards, q, models, on) == FirstHit(cards, q, models[i..], on)
    {
      var best := BestCard(cards, q, models[i], on);
      if best.Some? {
        BestCardServes(cards, q, models[i], on);
        return Some(RateOf(cards[best.value]));
      }
      i := i + 1;
    }
    return None;
  }

  lemma {:induction false} FirstHitServes(cards: seq<Card>, q: Query, models: seq<string>, on: Day)
    requires FirstHit(cards, q, models, on).Some?
    ensures var c := cards[FirstHit(cards, q, models, on).value];
      Serves(c, q, c.grain.model, on) && c.grain.model in models
    decreases |models|
  {
    BestCardServes(cards, q, models[0], on);
    if BestCard(cards, q, models[0], on).None? {
      FirstHitServes(cards, q, models[1..], on);
    }
  }

  /** The resolved card serves the query under one of the candidate ids. */
  lemma ResolvedServes(cards: seq<Card>, q: Query, model: string, on: Day)
    requires ResolvedIndex(cards, q, model, on).Some?
    ensures var c := cards[ResolvedIndex(cards, q, model, on).value];
      Serves(c, q, c.grain.model, on) && c.grain.model in CandidateModels(cards, q.provider, model)
  {
    FirstHitServes(cards, q, CandidateModels(cards, q.provider, model), on);
  }

  predicate Descending(models: seq<string>) {
    forall i, j :: 0 <= i < j < |models| ==> Less(models[j], models[i])
  }

  lemma {:induction false} InsertDescendingSorted(m: string, models: seq<string>)
    requires Descending(models)
    ensures Descending(InsertDescending(m, models))
    ensures forall x :: x in InsertDescending(m, models) <==> x == m || x in models
    decreases |models|
  {
    if models != [] && m != models[0] {
      if Less(models[0], m) {
        forall j | 0 <= j < |models| ensures Less(models[j], m) {
          if j > 0 {
            LessTransitive(models[j], models[0], m);
          }
        }
      } else {
        LessTotal(models[0], m);
        InsertDescendingSorted(m, models[1..]);
        assert forall x :: x in models <==> x == models[0] || x in models[1..];
        var r := InsertDescending(m, models[1..]);
        forall j | 0 <= j < |r| ensures Less(r[j], models[0]) {
          assert r[j] in r;
          if r[j] != m {
            var i :| 0 <= i < |models[1..]| && models[1..][i] == r[j];
            assert models[i + 1] == r[j];
          }
        }
      }
    }
  }

  /** The fallback list of an undated id: every stored snapshot id once, newest first. */
  lemma {:induction false} SnapshotsSorted(cards: seq<Card>, provider: string, model: string)
    ensures Descending(Snapshots(cards, provider, model))
    ensures forall m :: m in Snapshots(cards, provider, model) <==>
              exists i :: 0 <= i < |cards| && IsSnapshot(cards[i], provider, model) && cards[i].grain.model == m
    decreases |cards|
  {
    if cards != [] {
      var init, last := cards[..|cards| - 1], cards[|cards| - 1];
      SnapshotsSorted(init, provider, model);
      var rest := Snapshots(init, provider, model);
      InsertDescendingSorted(last.grain.model, rest);
      forall m
        ensures m in Snapshots(cards, provider, model) <==>
                  exists i :: 0 <= i < |cards| && IsSnapshot(cards[i], provider, model) && cards[i].grain.model == m
      {
        if m in rest {
          var i :| 0 <= i < |init| && IsSnapshot(init[i], provider, model) && init[i].grain.model == m;
          assert IsSnapshot(cards[i], provider, model) && cards[i].grain.model == m;
        }
        if exists i :: 0 <= i < |cards| && IsSnapshot(cards[i], provider, model) && cards[i].grain.model == m {
          var i :| 0 <= i < |cards| && IsSnapshot(cards[i], provider, model) && cards[i].grain.model == m;
          if i < |init| {
            assert IsSnapshot(init[i], provider, model) && init[i].grain.model == m;
          }
        }
        if IsSnapshot(last, provider, model) && last.grain.model == m {
          assert IsSnapshot(cards[|cards| - 1], provider, model);
        }
      }
    }
  }

  // ----- overlaps -----

  /** Over a descending list the first hit is the hit of the greatest id that has one. */
  lemma {:induction false} FirstHitIsNewest(cards: seq<Card>, q: Query, models: seq<string>, on: Day)
    requires Descending(models)
    ensures var r := FirstHit(cards, q, models, on);
      && (r.None? ==> forall m :: m in models ==> BestCard(cards, q, m, on).None?)
      && (r.Some? ==> var newest := cards[r.value].grain.model;
           && newest in models && r == BestCard(cards, q, newest, on)
           && forall m :: m in models && BestCard(cards, q, m, on).Some? ==> m == newest || Less(m, newest))
    decreases |models|
  {
    if models != [] {
      FirstHitIsNewest(cards, q, models[1..], on);
      forall m | m in models && m != models[0] ensures m in models[1..] && Less(m, models[0]) {
        var i :| 0 <= i < |models| && models[i] == m;
        assert models[1..][i - 1] == m;
      }
    }
  }

  /** The position is that of the best card of the newest dated snapshot that has one. */
  predicate OfNewestSnapshot(cards: seq<Card>, q: Query, model: string, on: Day, r: Option<nat>) {
    if r.None? then
      forall i :: 0 <= i < |cards| && IsSnapshot(cards[i], q.provider, model) ==>
        BestCard(cards, q, cards[i].grain.model, on).None?
    else
      && r.value < |cards| && IsSnapshot(cards[r.value], q.provider, model)
      && r == BestCard(cards, q, cards[r.value].grain.model, on)
      && forall i :: 0 <= i < |cards| && IsSnapshot(cards[i], q.provider, model) ==>
           BestCard(cards, q, cards[i].grain.model, on).None? || !Less(cards[r.value].grain.model, cards[i].grain.model)
  }

  /**
   The fallback rule: the model's own best card; without one, a dated id takes its base's best card
   and an undated id that of its newest dated snapshot that has one.
   */
  lemma FallbackRule(cards: seq<Card>, q: Query, model: string, on: Day)
    ensures var r, own, base := ResolvedIndex(cards, q, model, on), BestCard(cards, q, model, on), BaseModelId(model);
      if own.Some? then r == own
      else if base != model then r == BestCard(cards, q, base, on)
      else OfNewestSnapshot(cards, q, model, on, r)
  {
    var base := BaseModelId(model);
    if base != model {
      FirstHitCons(cards, q, model, [base], on);
      FirstHitCons(cards, q, base, [], on);
      assert [base] + [] == [base];
    } else {
      FirstHitCons(cards, q, model, Snapshots(cards, q.provider, model), on);
      NewestSnapshotHits(cards, q, model, on);
    }
  }

  lemma FirstHitCons(cards: seq<Card>, q: Query, first: string, rest: seq<string>, on: Day)
    ensures FirstHit(cards, q, [first] + rest, on) ==
      if BestCard(cards, q, first, on).Some? then BestCard(cards, q, first, on) else FirstHit(cards, q, rest, on)
  {
    assert ([first] + rest)[1..] == rest;
  }

  lemma NewestSnapshotHits(cards: seq<Card>, q: Query, model: string, on: Day)
    ensures OfNewestSnapshot(cards, q, model, on, FirstHit(cards, q, Snapshots(cards, q.provider, model), on))
  {
    var snapshots := Snapshots(cards, q.provider, model);
    var r := FirstHit(cards, q, snapshots, on);
    SnapshotsSorted(cards, q.provider, model);
    FirstHitIsNewest(cards, q, snapshots, on);
    forall i | 0 <= i < |cards| && IsSnapshot(cards[i], q.provider, model) && r.Some?
      ensures BestCard(cards, q, cards[i].grain.model, on).None?
        || !Less(cards[r.value].grain.model, cards[i].grain.model)
    {
      if Less(cards[i].grain.model, cards[r.value].grain.model) {
        LessAsymmetric(cards[i].grain.model, cards[r.value].grain.model);
      }
      LessIrreflexive(cards[i].grain.model);
    }
  }

  /** Two cards of one grain are never effective on the same day. */
  ghost predicate NoOverlap(cards: seq<Card>) {
    forall i, j, d: Day :: 0 <= i < j < |cards| && cards[i].grain == cards[j].grain ==>
      !(EffectiveOn(cards[i], d) && EffectiveOn(cards[j], d))
  }

  /** Under that invariant, distinct cards that match one query differ in tier, bracket or priority rank. */
  lemma MatchingCardsNeverTie(cards: seq<Card>, q: Query, model: string, on: Day, i: nat, j: nat)
    requires NoOverlap(cards) && i < |cards| && j < |cards| && i != j
    requires Matches(cards[i], q, model, on) && Matches(cards[j], q, model, on)
    ensures var a, b := PrecedenceOf(cards[i], q), PrecedenceOf(cards[j], q);
      a.tier != b.tier || a.bracket != b.bracket || a.priority != b.priority
  {
    assert EffectiveOn(cards[i], on) && EffectiveOn(cards[j], on);
    assert cards[i].grain != cards[j].grain;
  }

  lemma OutrankedTotal(a: Precedence, b: Precedence)
    requires a.tier != b.tier || a.bracket != b.bracket || a.priority != b.priority
    ensures Outranked(a, b) <==> !Outranked(b, a)
  {
  }

  /** The chosen card strictly outranks every other match. */
  lemma UniqueWinner(cards: seq<Card>, q: Query, model: string, on: Day, i: nat)
    requires NoOverlap(cards) && i < |cards| && Matches(cards[i], q, model, on)
    ensures var r := BestCard(cards, q, model, on);
      r.Some? && (i == r.value || Outranked(PrecedenceOf(cards[i], q), PrecedenceOf(cards[r.value], q)))
  {
    BestCardIsMaximal(cards, q, model, on);
    var r := BestCard(cards, q, model, on);
    if i != r.value {
      MatchingCardsNeverTie(cards, q, model, on, i, r.value);
      OutrankedTotal(PrecedenceOf(cards[i], q), PrecedenceOf(cards[r.value], q));
    }
  }

  /** The choice does not depend on the order in which rows come back from the table. */
  lemma RowOrderIrrelevant(a: seq<Card>, b: seq<Card>, q: Query, model: string, on: Day)
    requires NoOverlap(a) && multiset(a) == multiset(b)
    ensures var i, j := BestCard(a, q, model, on), BestCard(b, q, model, on);
      (i.Some? <==> j.Some?) && (i.Some? ==> a[i.value] == b[j.value])
  {
    BestCardIsMaximal(a, q, model, on);
    BestCardIsMaximal(b, q, model, on);
    var i, j := BestCard(a, q, model, on), BestCard(b, q, model, on);
    if i.Some? {
      assert a[i.value] in multiset(b);
    }
    if j.Some? {
      assert b[j.value] in multiset(a);
      var k :| 0 <= k < |a| && a[k] == b[j.value];
      UniqueWinner(a, q, model, on, k);
      var n :| 0 <= n < |b| && b[n] == a[i.value];
      assert !Outranked(PrecedenceOf(b[j.value], q), PrecedenceOf(b[n], q));
    }
  }

  lemma {:induction false} DescendingUnique(a: seq<string>, b: seq<string>)
    requires Descending(a) && Descending(b) && forall m :: m in a <==> m in b
    ensures a == b
    decreases |a|
  {
    assert b != [] ==> b[0] in a;
    if a != [] {
      assert a[0] in b;
      if a[0] != b[0] {
        LessAsymmetric(b[0], a[0]);
        assert false;
      }
      forall m ensures m in a[1..] <==> m in b[1..] {
        LessIrreflexive(a[0]);
        assert m in a <==> m == a[0] || m in a[1..];
        assert m in b <==> m == b[0] || m in b[1..];
      }
      DescendingUnique(a[1..], b[1..]);
      assert a == [a[0]] + a[1..] && b == [b[0]] + b[1..];
    }
  }

  lemma SnapshotsRowOrder(a: seq<Card>, b: seq<Card>, provider: string, model: string)
    requires multiset(a) == multiset(b)
    ensures Snapshots(a, provider, model) == Snapshots(b, provider, model)
  {
    SnapshotsSorted(a, provider, model);
    SnapshotsSorted(b, provider, model);
    forall m ensures m in Snapshots(a, provider, model) <==> m in Snapshots(b, provider, model) {
      if m in Snapshots(a, provider, model) {
        var i :| 0 <= i < |a| && IsSnapshot(a[i], provider, model) && a[i].grain.model == m;
        assert a[i] in multiset(b);
      }
      if m in Snapshots(b, provider, model) {
        var i :| 0 <= i < |b| && IsSnapshot(b[i], provider, model) && b[i].grain.model == m;
        assert b[i] in multiset(a);
      }
    }
    DescendingUnique(Snapshots(a, provider, model), Snapshots(b, provider, model));
  }

  lemma {:induction false} FirstHitRowOrder(a: seq<Card>, b: seq<Card>, q: Query, models: seq<string>, on: Day)
    requires NoOverlap(a) && multiset(a) == multiset(b)
    ensures var i, j := FirstHit(a, q, models, on), FirstHit(b, q, models, on);
      (i.Some? <==> j.Some?) && (i.Some? ==> a[i.value] == b[j.value])
    decreases |models|
  {
    if models != [] {
      RowOrderIrrelevant(a, b, q, models[0], on);
      FirstHitRowOrder(a, b, q, models[1..], on);
    }
  }

  /** The resolved rate as a whole is a function of the set of stored cards. */
  lemma ResolveRowOrder(a: seq<Card>, b: seq<Card>, q: Query, model: string, on: Day)
    requires NoOverlap(a) && multiset(a) == multiset(b)
    ensures Resolve(a, q, model, on) == Resolve(b, q, model, on)
  {
    SnapshotsRowOrder(a, b, q.provider, model);
    FirstHitRowOrder(a, b, q, CandidateModels(a, q.provider, model), on);
  }
}
