/**
 The texts under which the privacy scan reports what it removed: a root, and for every step of the path
 a dot and the key, or the index in brackets. Different paths can have the same text.
 */
module PathTexts {
  import opened ContentScan

  function Digit(d: nat): char
    requires d < 10
  {
    (48 + d) as char
  }

  function Decimal(n: nat): string {
    (if n < 10 then [] else Decimal(n / 10)) + [Digit(n % 10)]
  }

  function StepText(s: Step): string {
    match s
    case Key(key) => ['.'] + key
    case Index(index) => ['['] + (Decimal(index) + [']'])
  }

  function Text(p: Path): string {
    if p == [] then [] else StepText(p[0]) + Text(p[1..])
  }

  /** The dotted text of a path below a root. */
  function Render(root: string, p: Path): string {
    root + Text(p)
  }

  lemma {:induction false} TextConcat(p: Path, q: Path)
    ensures Text(p + q) == Text(p) + Text(q)
    decreases |p|
  {
    if p == [] {
      assert p + q == q;
    } else {
      assert (p + q)[0] == p[0] && (p + q)[1..] == p[1..] + q;
      TextConcat(p[1..], q);
    }
  }

  lemma TextOne(s: Step)
    ensures Text([s]) == StepText(s)
  {
    assert [s][1..] == [];
  }

  /** One step further, the text grows by that of the step. */
  lemma RenderSnoc(root: string, p: Path, s: Step)
    ensures Render(root, p + [s]) == Render(root, p) + StepText(s)
  {
    TextConcat(p, [s]);
    TextOne(s);
  }

  // ----- the scan as it reports -----

  function RenderAll(root: string, paths: seq<Path>): seq<string> {
    if paths == [] then [] else [Render(root, paths[0])] + RenderAll(root, paths[1..])
  }

  lemma {:induction false} RenderAllConcat(root: string, a: seq<Path>, b: seq<Path>)
    ensures RenderAll(root, a + b) == RenderAll(root, a) + RenderAll(root, b)
    decreases |a|
  {
    if a == [] {
      assert a + b == b;
    } else {
      assert (a + b)[0] == a[0] && (a + b)[1..] == a[1..] + b;
      RenderAllConcat(root, a[1..], b);
    }
  }

  lemma {:induction false} RenderAllAt(root: string, paths: seq<Path>)
    ensures |RenderAll(root, paths)| == |paths|
    ensures forall i :: 0 <= i < |paths| ==> RenderAll(root, paths)[i] == Render(root, paths[i])
    decreases |paths|
  {
    if paths != [] {
      RenderAllAt(root, paths[1..]);
    }
  }

  lemma RenderAllOne(root: string, p: Path)
    ensures RenderAll(root, [p]) == [Render(root, p)]
  {
    assert [p][1..] == [];
  }

  /** What the scan reports of one item more. */
  lemma ItemReported(root: string, bad: KeyTest, items: seq<Json>, i: nat, steps: Path)
    requires i < |items|
    ensures RenderAll(root, HitsInItems(bad, items[..i + 1], steps)) ==
      RenderAll(root, HitsInItems(bad, items[..i], steps)) + RenderAll(root, Hits(bad, items[i], steps + [Index(i)]))
  {
    assert items[..i + 1][..i] == items[..i];
    RenderAllConcat(root, HitsInItems(bad, items[..i], steps), Hits(bad, items[i], steps + [Index(i)]));
  }

  /** What it reports of one field more: a content key itself, or what is below any other. */
  lemma FieldReported(root: string, bad: KeyTest, fields: seq<Field>, i: nat, steps: Path)
    requires i < |fields|
    ensures var below := steps + [Key(fields[i].key)];
      RenderAll(root, HitsInFields(bad, fields[..i + 1], steps)) ==
      RenderAll(root, HitsInFields(bad, fields[..i], steps))
      + if bad(fields[i].key) then [Render(root, below)] else RenderAll(root, Hits(bad, fields[i].value, below))
  {
    var below := steps + [Key(fields[i].key)];
    assert fields[..i + 1][..i] == fields[..i];
    RenderAllOne(root, below);
    RenderAllConcat(root, HitsInFields(bad, fields[..i], steps),
                    if bad(fields[i].key) then [below] else Hits(bad, fields[i].value, below));
  }

  lemma RegroupAll(a: seq<string>, b: seq<string>, c: seq<string>)
    ensures (a + b) + c == a + (b + c)
  {
  }

  lemma ItemsStep(root: string, bad: KeyTest, items: seq<Json>, i: nat, steps: Path,
                  hits: seq<string>, before: seq<string>, after: seq<string>)
    requires i < |items| && before == hits + RenderAll(root, HitsInItems(bad, items[..i], steps))
    requires after == before + RenderAll(root, Hits(bad, items[i], steps + [Index(i)]))
    ensures after == hits + RenderAll(root, HitsInItems(bad, items[..i + 1], steps))
  {
    ItemReported(root, bad, items, i, steps);
    RegroupAll(hits, RenderAll(root, HitsInItems(bad, items[..i], steps)),
        RenderAll(root, Hits(bad, items[i], steps + [Index(i)])));
  }

  lemma FieldsStep(root: string, bad: KeyTest, fields: seq<Field>, i: nat, steps: Path,
                   hits: seq<string>, before: seq<string>, after: seq<string>)
    requires i < |fields| && before == hits + RenderAll(root, HitsInFields(bad, fields[..i], steps))
    requires var below := steps + [Key(fields[i].key)];
      after == before + if bad(fields[i].key) then [Render(root, below)]
        else RenderAll(root, Hits(bad, fields[i].value, below))
    ensures after == hits + RenderAll(root, HitsInFields(bad, fields[..i + 1], steps))
  {
    FieldReported(root, bad, fields, i, steps);
    var below := steps + [Key(fields[i].key)];
    var more := if bad(fields[i].key) then [Render(root, below)]
      else RenderAll(root, Hits(bad, fields[i].value, below));
    RegroupAll(hits, RenderAll(root, HitsInFields(bad, fields[..i], steps)), more);
  }

  /** Collects the texts of the content-key paths and returns a cleaned copy. */
  method ScanContentKeys(bad: KeyTest, value: Json, path: string, hits: seq<string>, ghost root: string,
      ghost steps: Path)
      returns (cleaned: Json, found: seq<string>)
    requires path == Render(root, steps)
    ensures cleaned == Clean(bad, value)
    ensures found == hits + RenderAll(root, Hits(bad, value, steps))
    decreases value, 1
  {
    found := hits;
    match value {
      case Scalar(_) =>
        cleaned := value;
      case Arr(items) =>
        var kept;
        kept, found := ScanItems(bad, items, path, hits, root, steps);
        cleaned := Arr(kept);
      case Obj(fields) =>
        var kept;
        kept, found := ScanFields(bad, fields, path, hits, root, steps);
        cleaned := Obj(kept);
    }
  }

  method ScanItems(bad: KeyTest, items: seq<Json>, path: string, hits: seq<string>, ghost root: string,
      ghost steps: Path)
      returns (kept: seq<Json>, found: seq<string>)
    requires path == Render(root, steps)
    ensures kept == CleanItems(bad, items)
    ensures found == hits + RenderAll(root, HitsInItems(bad, items, steps))
    decreases items, 0
  {
    kept, found := [], hits;
    for index := 0 to |items|
      invariant kept == CleanItems(bad, items[..index])
      invariant found == hits + RenderAll(root, HitsInItems(bad, items[..index], steps))
    {
      assert items[..index + 1][..index] == items[..index];
      RenderSnoc(root, steps, Index(index));
      ghost var before := found;
      var child;
      child, found := ScanContentKeys(bad, items[index], path + StepText(Index(index)), found, root,
        steps + [Index(index)]);
      ItemsStep(root, bad, items, index, steps, hits, before, found);
      kept := kept + [child];
    }
    assert items[..|items|] == items;
  }

  method ScanFields(bad: KeyTest, fields: seq<Field>, path: string, hits: seq<string>, ghost root: string,
      ghost steps: Path)
      returns (kept: seq<Field>, found: seq<string>)
    requires path == Render(root, steps)
    ensures kept == CleanFields(bad, fields)
    ensures found == hits + RenderAll(root, HitsInFields(bad, fields, steps))
    decreases fields, 0
  {
    kept, found := [], hits;
    for i := 0 to |fields|
      invariant kept == CleanFields(bad, fields[..i])
      invariant found == hits + RenderAll(root, HitsInFields(bad, fields[..i], steps))
    {
      assert fields[..i + 1][..i] == fields[..i];
      var key := fields[i].key;
      var childPath := path + StepText(Key(key));
      RenderSnoc(root, steps, Key(key));
      ghost var before := found;
      if bad(key) {
        found := found + [childPath];
        FieldsStep(root, bad, fields, i, steps, hits, before, found);
        continue;
      }
      var child;
      child, found := ScanContentKeys(bad, fields[i].value, childPath, found, root, steps + [Key(key)]);
      FieldsStep(root, bad, fields, i, steps, hits, before, found);
      kept := kept + [Field(key, child)];
    }
    assert fields[..|fields|] == fields;
  }

  // ----- texts of plain keys -----

  /** No character of the key can be taken for a step of a path. */
  predicate PlainKey(key: string) {
    forall i :: 0 <= i < |key| ==> key[i] != '.' && key[i] != '['
  }

  predicate Plain(p: Path) {
    forall i :: 0 <= i < |p| && p[i].Key? ==> PlainKey(p[i].key)
  }

  predicate StartsStep(s: string) {
    s == [] || s[0] == '.' || s[0] == '['
  }

  lemma TextStart(p: Path)
    ensures p != [] ==> Text(p) != [] && Text(p)[0] == if p[0].Key? then '.' else '['
    ensures StartsStep(Text(p))
  {
  }

  lemma {:induction false} DecimalDigits(n: nat)
    ensures Decimal(n) != [] && forall i :: 0 <= i < |Decimal(n)| ==> '0' <= Decimal(n)[i] <= '9'
    decreases n
  {
    if n >= 10 {
      DecimalDigits(n / 10);
    }
  }

  lemma {:induction false} DecimalInjective(m: nat, n: nat)
    requires Decimal(m) == Decimal(n)
    ensures m == n
    decreases m
  {
    var a, b := Decimal(m), Decimal(n);
    assert a[|a| - 1] == Digit(m % 10) && b[|b| - 1] == Digit(n % 10);
    if m >= 10 {
      DecimalDigits(m / 10);
    }
    if n >= 10 {
      DecimalDigits(n / 10);
    }
    if m >= 10 && n >= 10 {
      assert a[..|a| - 1] == Decimal(m / 10) && b[..|b| - 1] == Decimal(n / 10);
      DecimalInjective(m / 10, n / 10);
    }
  }

  /** The number of characters before the first one that stops. */
  function Run(s: string, stop: char -> bool): nat {
    if s == [] || stop(s[0]) then 0 else 1 + Run(s[1..], stop)
  }

  lemma {:induction false} RunConcat(a: string, x: string, stop: char -> bool)
    requires (forall i :: 0 <= i < |a| ==> !stop(a[i])) && (x != [] ==> stop(x[0]))
    ensures Run(a + x, stop) == |a|
    decreases |a|
  {
    if a == [] {
      assert a + x == x;
    } else {
      assert (a + x)[0] == a[0] && (a + x)[1..] == a[1..] + x;
      RunConcat(a[1..], x, stop);
    }
  }

  /** A text is cut in one way at the first character that stops it. */
  lemma CutAtStop(stop: char -> bool, a: string, x: string, b: string, y: string)
    requires a + x == b + y
    requires (forall i :: 0 <= i < |a| ==> !stop(a[i])) && (x != [] ==> stop(x[0]))
    requires (forall i :: 0 <= i < |b| ==> !stop(b[i])) && (y != [] ==> stop(y[0]))
    ensures a == b && x == y
  {
    var s := a + x;
    RunConcat(a, x, stop);
    RunConcat(b, y, stop);
    assert s[..|a|] == a && s[..|b|] == b && s[|a|..] == x && s[|b|..] == y;
  }

  /** What follows the first character of a step and a further text. */
  lemma AfterFirst(c: char, a: string, x: string)
    ensures (([c] + a) + x)[1..] == a + x && (([c] + a) + x)[0] == c
  {
  }

  lemma Regroup(a: string, b: string, c: string)
    ensures (a + b) + c == a + (b + c)
  {
  }

  lemma SameKeyStep(k: string, x: string, l: string, y: string)
    requires PlainKey(k) && PlainKey(l) && StartsStep(x) && StartsStep(y)
    requires StepText(Key(k)) + x == StepText(Key(l)) + y
    ensures k == l && x == y
  {
    AfterFirst('.', k, x);
    AfterFirst('.', l, y);
    CutAtStop(c => c == '.' || c == '[', k, x, l, y);
  }

  lemma SameIndexStep(m: nat, x: string, n: nat, y: string)
    requires StepText(Index(m)) + x == StepText(Index(n)) + y
    ensures m == n && x == y
  {
    var a, b := Decimal(m), Decimal(n);
    AfterFirst('[', a + [']'], x);
    AfterFirst('[', b + [']'], y);
    Regroup(a, [']'], x);
    Regroup(b, [']'], y);
    SameDigits(m, [']'] + x, n, [']'] + y);
    assert ([']'] + x)[1..] == x && ([']'] + y)[1..] == y;
  }

  lemma SameDigits(m: nat, x: string, n: nat, y: string)
    requires Decimal(m) + x == Decimal(n) + y && x != [] && x[0] == ']' && y != [] && y[0] == ']'
    ensures m == n && x == y
  {
    DecimalDigits(m);
    DecimalDigits(n);
    CutAtStop(c => c == ']', Decimal(m), x, Decimal(n), y);
    DecimalInjective(m, n);
  }

  lemma {:induction false} PlainTextsDiffer(p: Path, q: Path)
    requires Plain(p) && Plain(q) && Text(p) == Text(q)
    ensures p == q
    decreases |p|
  {
    TextStart(p);
    TextStart(q);
    if p != [] {
      TextStart(p[1..]);
      TextStart(q[1..]);
      if p[0].Key? {
        SameKeyStep(p[0].key, Text(p[1..]), q[0].key, Text(q[1..]));
      } else {
        SameIndexStep(p[0].index, Text(p[1..]), q[0].index, Text(q[1..]));
      }
      PlainTextsDiffer(p[1..], q[1..]);
      assert p == [p[0]] + p[1..] && q == [q[0]] + q[1..];
    }
  }

  /** Paths whose keys contain neither a dot nor an opening bracket have different texts when they differ. */
  lemma PlainPathsDiffer(root: string, p: Path, q: Path)
    requires Plain(p) && Plain(q) && Render(root, p) == Render(root, q)
    ensures p == q
  {
    assert Render(root, p)[|root|..] == Text(p) && Render(root, q)[|root|..] == Text(q);
    PlainTextsDiffer(p, q);
  }

  /** Where no reported key contains a dot or an opening bracket, no text is reported twice. */
  lemma ReportedTextsDiffer(root: string, bad: KeyTest, v: Json)
    requires WellFormed(v) && forall p :: p in Hits(bad, v, []) ==> Plain(p)
    ensures var texts := RenderAll(root, Hits(bad, v, []));
      forall i, j :: 0 <= i < j < |texts| ==> texts[i] != texts[j]
  {
    var hits := Hits(bad, v, []);
    HitsAreDistinct(bad, v, []);
    RenderAllAt(root, hits);
    forall i, j | 0 <= i < j < |hits| ensures Render(root, hits[i]) != Render(root, hits[j]) {
      if Render(root, hits[i]) == Render(root, hits[j]) {
        PlainPathsDiffer(root, hits[i], hits[j]);
      }
    }
  }

  // ----- when a key shares its text -----

  /** The key ends in a decimal number in brackets. */
  ghost predicate EndsInIndex(key: string) {
    exists j, n :: 0 <= j <= |key| && key[j..] == StepText(Index(n))
  }

  ghost predicate SharesText(p: Path) {
    exists q :: q != p && Text(q) == Text(p)
  }

  lemma DotSplits(key: string, i: nat)
    requires i < |key| && key[i] == '.'
    ensures Text([Key(key[..i]), Key(key[i + 1..])]) == Text([Key(key)])
  {
    TextOne(Key(key));
    TextOne(Key(key[i + 1..]));
    assert [Key(key[..i]), Key(key[i + 1..])][1..] == [Key(key[i + 1..])];
    assert key == key[..i] + (['.'] + key[i + 1..]);
    assert ['.'] + (key[..i] + (['.'] + key[i + 1..])) == (['.'] + key[..i]) + (['.'] + key[i + 1..]);
  }

  lemma IndexSplits(key: string, j: nat, n: nat)
    requires j <= |key| && key[j..] == StepText(Index(n))
    ensures Text([Key(key[..j]), Index(n)]) == Text([Key(key)])
  {
    TextOne(Key(key));
    TextOne(Index(n));
    assert [Key(key[..j]), Index(n)][1..] == [Index(n)];
    assert key == key[..j] + key[j..];
    assert ['.'] + (key[..j] + key[j..]) == (['.'] + key[..j]) + key[j..];
  }

  /** The text of a path that is not empty has a dot in it, or ends in an index. */
  lemma {:induction false} TextHasDotOrIndex(p: Path)
    requires p != []
    ensures '.' in Text(p) || EndsInIndex(Text(p))
    decreases |p|
  {
    var head, tail := StepText(p[0]), Text(p[1..]);
    if p[0].Key? {
      assert Text(p)[0] == '.';
    } else if |p| == 1 {
      assert Text(p)[0..] == StepText(Index(p[0].index));
    } else {
      TextHasDotOrIndex(p[1..]);
      DotOrIndexToo(head, tail);
    }
  }

  lemma EndsInIndexToo(head: string, tail: string)
    requires EndsInIndex(tail)
    ensures EndsInIndex(head + tail)
  {
    var j, n :| 0 <= j <= |tail| && tail[j..] == StepText(Index(n));
    assert (head + tail)[|head| + j..] == tail[j..];
  }

  /** A key shares its text with some other path exactly when it contains a dot or ends in an index. */
  lemma SharesTextIff(key: string)
    ensures SharesText([Key(key)]) <==> '.' in key || EndsInIndex(key)
  {
    if '.' in key {
      var i :| 0 <= i < |key| && key[i] == '.';
      DotSplits(key, i);
      OtherPath(key, [Key(key[..i]), Key(key[i + 1..])]);
    }
    if EndsInIndex(key) {
      var j, n :| 0 <= j <= |key| && key[j..] == StepText(Index(n));
      IndexSplits(key, j, n);
      OtherPath(key, [Key(key[..j]), Index(n)]);
    }
    if SharesText([Key(key)]) {
      var q :| q != [Key(key)] && Text(q) == Text([Key(key)]);
      TextOne(Key(key));
      OtherPathNeedsDotOrIndex(key, q);
    }
  }

  lemma OtherPath(key: string, q: Path)
    requires |q| == 2 && Text(q) == Text([Key(key)])
    ensures SharesText([Key(key)])
  {
    assert |q| != |[Key(key)]|;
  }

  lemma OtherPathNeedsDotOrIndex(key: string, q: Path)
    requires q != [Key(key)] && Text(q) == StepText(Key(key))
    ensures '.' in key || EndsInIndex(key)
  {
    TextStart(q);
    assert q != [] && q[0].Key?;
    var tail := Text(q[1..]);
    AfterFirst('.', q[0].key, tail);
    AfterFirst('.', key, []);
    assert StepText(Key(key)) + [] == StepText(Key(key)) && key + [] == key;
    assert q == [q[0]] + q[1..] && q[0].key + [] == q[0].key;
    if |q| > 1 {
      TextHasDotOrIndex(q[1..]);
      DotOrIndexToo(q[0].key, tail);
    }
  }

  lemma DotOrIndexToo(head: string, tail: string)
    requires '.' in tail || EndsInIndex(tail)
    ensures '.' in head + tail || EndsInIndex(head + tail)
  {
    if '.' in tail {
      var i :| 0 <= i < |tail| && tail[i] == '.';
      assert (head + tail)[|head| + i] == '.';
    } else {
      EndsInIndexToo(head, tail);
    }
  }

  // ----- inputs whose reports coincide -----

  lemma FieldHits(bad: KeyTest, init: seq<Field>, f: Field, path: Path)
    ensures HitsInFields(bad, init + [f], path) ==
      HitsInFields(bad, init, path) + if bad(f.key) then [path + [Key(f.key)]]
        else Hits(bad, f.value, path + [Key(f.key)])
  {
    assert (init + [f])[..|init|] == init;
  }

  /** An object with one field. */
  function Single(key: string, v: Json): Json {
    Obj([Field(key, v)])
  }

  lemma SingleHit(bad: KeyTest, key: string, v: Json, path: Path)
    requires bad(key)
    ensures Hits(bad, Single(key, v), path) == [path + [Key(key)]]
  {
    FieldHits(bad, [], Field(key, v), path);
    assert [] + [Field(key, v)] == [Field(key, v)];
  }

  /** What is reported of one field of an object at the top. */
  function FieldOnly(bad: KeyTest, f: Field): seq<Path> {
    if bad(f.key) then [[Key(f.key)]] else Hits(bad, f.value, [Key(f.key)])
  }

  lemma OneField(bad: KeyTest, init: seq<Field>, f: Field)
    ensures HitsInFields(bad, init + [f], []) == HitsInFields(bad, init, []) + FieldOnly(bad, f)
  {
    FieldHits(bad, init, f, []);
    assert [] + [Key(f.key)] == [Key(f.key)];
  }

  lemma TwoFields(bad: KeyTest, f: Field, g: Field)
    ensures Hits(bad, Obj([f, g]), []) == FieldOnly(bad, f) + FieldOnly(bad, g)
  {
    OneField(bad, [], f);
    OneField(bad, [f], g);
    assert [] + [f] == [f] && [f] + [g] == [f, g];
    assert HitsInFields(bad, [f], []) == FieldOnly(bad, f);
  }

  lemma DotAt(a: string, b: string)
    ensures var dotted := a + (['.'] + b);
      |a| < |dotted| && dotted[|a|] == '.' && dotted[..|a|] == a && dotted[|a| + 1..] == b
  {
  }

  /** A nested key, and a key that contains the dot: both are reported, as the same text. */
  lemma DottedPathsCoincide(bad: KeyTest, a: string, b: string, v: Json, w: Json)
    requires bad(b) && bad(a + (['.'] + b)) && !bad(a)
    ensures var dotted := a + (['.'] + b);
      && Hits(bad, Obj([Field(a, Single(b, v)), Field(dotted, w)]), []) == [[Key(a), Key(b)], [Key(dotted)]]
      && Text([Key(a), Key(b)]) == Text([Key(dotted)])
  {
    var dotted := a + (['.'] + b);
    TwoFields(bad, Field(a, Single(b, v)), Field(dotted, w));
    SingleHit(bad, b, v, [Key(a)]);
    assert [Key(a)] + [Key(b)] == [Key(a), Key(b)];
    DotAt(a, b);
    DotSplits(dotted, |a|);
  }

  /** An item of a list, and a field of a key that ends like an index: no key contains a dot. */
  lemma BracketedPathsCoincide(bad: KeyTest, a: string, b: string, v: Json, w: Json)
    requires bad(b) && !bad(a) && !bad(a + StepText(Index(0)))
    ensures var bracketed := a + StepText(Index(0));
      && Hits(bad, Obj([Field(bracketed, Single(b, v)), Field(a, Arr([Single(b, w)]))]), []) ==
           [[Key(bracketed), Key(b)], [Key(a), Index(0), Key(b)]]
      && Text([Key(bracketed), Key(b)]) == Text([Key(a), Index(0), Key(b)])
  {
    var bracketed := a + StepText(Index(0));
    TwoFields(bad, Field(bracketed, Single(b, v)), Field(a, Arr([Single(b, w)])));
    SingleHit(bad, b, v, [Key(bracketed)]);
    SingleHit(bad, b, w, [Key(a), Index(0)]);
    assert [Key(a)] + [Index(0)] == [Key(a), Index(0)] && [Single(b, w)][..0] == [];
    assert HitsInItems(bad, [Single(b, w)], [Key(a)]) == Hits(bad, Single(b, w), [Key(a)] + [Index(0)]);
    assert [Key(bracketed)] + [Key(b)] == [Key(bracketed), Key(b)]
      && [Key(a), Index(0)] + [Key(b)] == [Key(a), Index(0), Key(b)];
    IndexSplits(bracketed, |a|, 0);
    assert bracketed[..|a|] == a && bracketed[|a|..] == StepText(Index(0));
    TextConcat([Key(bracketed)], [Key(b)]);
    TextConcat([Key(a), Index(0)], [Key(b)]);
  }

  lemma ProgramTest()
    ensures LooksLikeContent("text") && !LooksLikeContent("x")
  {
    assert "text" <= NormalizeKey("text")[0..];
    assert CONTENT_KEY_TOKENS[4] == "text" && Contains(NormalizeKey("text"), CONTENT_KEY_TOKENS[4]);
  }

  /** Under the program's own test both happen: `{"x": {"text": ..}, "x.text": ..}` reports one text twice. */
  lemma ProgramReportsTwice(v: Json, w: Json)
    ensures var hits :=
        Hits(LooksLikeContent, Obj([Field("x", Single("text", v)), Field("x" + (['.'] + "text"), w)]), []);
      |hits| == 2 && hits[0] != hits[1] && Text(hits[0]) == Text(hits[1])
  {
    ProgramTest();
    LongerKeysOffendToo("x" + ['.'], "text", "");
    assert "x" + ['.'] + "text" + "" == "x" + (['.'] + "text");
    DottedPathsCoincide(LooksLikeContent, "x", "text", v, w);
  }
}
