/**
 The privacy scan: it removes every key that looks like content from a JSON tree and reports where
 it removed one.

 Which keys look like content is a parameter of the theorems. `LooksLikeContent` is the program's
 own test, for keys of ASCII characters.
 */
module ContentScan {
  import opened Wrappers

  datatype Json = Scalar(text: string) | Arr(items: seq<Json>) | Obj(fields: seq<Field>)

  datatype Field = Field(key: string, value: Json)

  type KeyTest = string -> bool

  // ----- the program's own test -----

  const CONTENT_KEY_TOKENS := [
    "prompt", "response", "message", "content", "text", "arguments", "path", "code", "snippet", "completion", "body"]

  function Lower(c: char): char {
    if 'A' <= c <= 'Z' then (c as int + 32) as char else c
  }

  predicate IsAlphanumeric(c: char) {
    'a' <= c <= 'z' || 'A' <= c <= 'Z' || '0' <= c <= '9'
  }

  function NormalizeKey(key: string): string {
    if key == [] then [] else (if IsAlphanumeric(key[0]) then [Lower(key[0])] else []) + NormalizeKey(key[1..])
  }

  predicate Contains(s: string, token: string) {
    exists i :: 0 <= i <= |s| && token <= s[i..]
  }

  predicate LooksLikeContent(key: string) {
    exists t :: 0 <= t < |CONTENT_KEY_TOKENS| && Contains(NormalizeKey(key), CONTENT_KEY_TOKENS[t])
  }

  lemma {:induction false} NormalizeConcat(a: string, b: string)
    ensures NormalizeKey(a + b) == NormalizeKey(a) + NormalizeKey(b)
    decreases |a|
  {
    if a == [] {
      assert a + b == b;
    } else {
      var head := if IsAlphanumeric(a[0]) then [Lower(a[0])] else [];
      assert (a + b)[0] == a[0] && (a + b)[1..] == a[1..] + b;
      NormalizeConcat(a[1..], b);
      assert head + (NormalizeKey(a[1..]) + NormalizeKey(b)) == head + NormalizeKey(a[1..]) + NormalizeKey(b);
    }
  }

  lemma ContainedInLonger(before: string, s: string, after: string, token: string)
    requires Contains(s, token)
    ensures Contains(before + s + after, token)
  {
    var i :| 0 <= i <= |s| && token <= s[i..];
    assert (before + s + after)[|before| + i..] == s[i..] + after;
  }

  /** The test over-rejects: whatever surrounds an offending key, the longer key offends as well. */
  lemma LongerKeysOffendToo(before: string, key: string, after: string)
    requires LooksLikeContent(key)
    ensures LooksLikeContent(before + key + after)
  {
    NormalizeConcat(before + key, after);
    NormalizeConcat(before, key);
    OffendsByPart(NormalizeKey(before), NormalizeKey(key), NormalizeKey(after), NormalizeKey(before + key + after));
  }

  lemma OffendsByPart(before: string, s: string, after: string, whole: string)
    requires exists t :: 0 <= t < |CONTENT_KEY_TOKENS| && Contains(s, CONTENT_KEY_TOKENS[t])
    requires whole == before + s + after
    ensures exists t :: 0 <= t < |CONTENT_KEY_TOKENS| && Contains(whole, CONTENT_KEY_TOKENS[t])
  {
    var t :| 0 <= t < |CONTENT_KEY_TOKENS| && Contains(s, CONTENT_KEY_TOKENS[t]);
    ContainedInLonger(before, s, after, CONTENT_KEY_TOKENS[t]);
  }

  lemma NormalizeOne(c: char)
    ensures NormalizeKey([c]) == if IsAlphanumeric(c) then [Lower(c)] else []
  {
    assert [c][1..] == [];
  }

  /** Case and separators hide nothing: both spellings of a letter count alike, other characters not at all. */
  lemma SpellingIrrelevant(before: string, c: char, after: string)
    ensures 'A' <= c <= 'Z' ==>
      (LooksLikeContent(before + [c] + after) <==> LooksLikeContent(before + [(c as int + 32) as char] + after))
    ensures !('a' <= c <= 'z') && !('A' <= c <= 'Z') && !('0' <= c <= '9') ==>
      (LooksLikeContent(before + [c] + after) <==> LooksLikeContent(before + after))
    ensures 'a' <= c <= 'z' || '0' <= c <= '9' ==>
      NormalizeKey(before + [c] + after) == NormalizeKey(before) + [c] + NormalizeKey(after)
  {
    NormalizeConcat(before + [c], after);
    NormalizeConcat(before, [c]);
    NormalizeConcat(before, after);
    NormalizeOne(c);
    assert NormalizeKey(before) + [] == NormalizeKey(before);
    if 'A' <= c <= 'Z' {
      var lower := (c as int + 32) as char;
      NormalizeConcat(before + [lower], after);
      NormalizeConcat(before, [lower]);
      NormalizeOne(lower);
    }
  }

  // ----- paths -----

  datatype Step = Key(key: string) | Index(index: nat)

  type Path = seq<Step>

  function FieldValue(fields: seq<Field>, key: string): Option<Json> {
    if fields == [] then None
    else if fields[0].key == key then Some(fields[0].value)
    else FieldValue(fields[1..], key)
  }

  function Child(v: Json, s: Step): Option<Json> {
    match v
    case Scalar(_) => None
    case Arr(items) => if s.Index? && s.index < |items| then Some(items[s.index]) else None
    case Obj(fields) => if s.Key? then FieldValue(fields, s.key) else None
  }

  /** The value at a path. */
  function At(v: Json, p: Path): Option<Json>
    decreases |p|
  {
    if p == [] then Some(v)
    else
      match Child(v, p[0])
      case None => None
      case Some(c) => At(c, p[1..])
  }

  predicate StepOffends(bad: KeyTest, s: Step) {
    s.Key? && bad(s.key)
  }

  predicate Offends(bad: KeyTest, p: Path) {
    exists i :: 0 <= i < |p| && StepOffends(bad, p[i])
  }

  lemma OffendsCons(bad: KeyTest, p: Path)
    requires p != []
    ensures Offends(bad, p) <==> StepOffends(bad, p[0]) || Offends(bad, p[1..])
  {
    if Offends(bad, p[1..]) {
      var i :| 0 <= i < |p[1..]| && StepOffends(bad, p[1..][i]);
      assert StepOffends(bad, p[i + 1]);
    }
    forall i | 0 < i < |p| && StepOffends(bad, p[i]) ensures Offends(bad, p[1..]) {
      assert StepOffends(bad, p[1..][i - 1]);
    }
  }

  /** An object's keys are pairwise different, throughout the tree. */
  predicate WellFormed(v: Json) {
    match v
    case Scalar(_) => true
    case Arr(items) => forall i :: 0 <= i < |items| ==> WellFormed(items[i])
    case Obj(fields) =>
      && (forall i, j :: 0 <= i < j < |fields| ==> fields[i].key != fields[j].key)
      && (forall i :: 0 <= i < |fields| ==> WellFormed(fields[i].value))
  }

  // ----- the scan -----

  function Clean(bad: KeyTest, v: Json): Json
    decreases v, 1
  {
    match v
    case Scalar(_) => v
    case Arr(items) => Arr(CleanItems(bad, items))
    case Obj(fields) => Obj(CleanFields(bad, fields))
  }

  function CleanItems(bad: KeyTest, items: seq<Json>): (r: seq<Json>)
    ensures |r| == |items|
    decreases items, 0
  {
    if items == [] then [] else CleanItems(bad, items[..|items| - 1]) + [Clean(bad, items[|items| - 1])]
  }

  function CleanFields(bad: KeyTest, fields: seq<Field>): seq<Field>
    decreases fields, 0
  {
    if fields == [] then []
    else
      var f := fields[|fields| - 1];
      var init := CleanFields(bad, fields[..|fields| - 1]);
      if bad(f.key) then init else init + [Field(f.key, Clean(bad, f.value))]
  }

  /** The paths the scan reports, in the order it visits the tree. */
  function Hits(bad: KeyTest, v: Json, path: Path): seq<Path>
    decreases v, 1
  {
    match v
    case Scalar(_) => []
    case Arr(items) => HitsInItems(bad, items, path)
    case Obj(fields) => HitsInFields(bad, fields, path)
  }

  function HitsInItems(bad: KeyTest, items: seq<Json>, path: Path): seq<Path>
    decreases items, 0
  {
    if items == [] then []
    else
      var n := |items| - 1;
      HitsInItems(bad, items[..n], path) + Hits(bad, items[n], path + [Index(n)])
  }

  function HitsInFields(bad: KeyTest, fields: seq<Field>, path: Path): seq<Path>
    decreases fields, 0
  {
    if fields == [] then []
    else
      var f := fields[|fields| - 1];
      HitsInFields(bad, fields[..|fields| - 1], path)
      + if bad(f.key) then [path + [Key(f.key)]] else Hits(bad, f.value, path + [Key(f.key)])
  }

  // ----- what is left -----

  lemma {:induction false} CleanItemAt(bad: KeyTest, items: seq<Json>, i: nat)
    requires i < |items|
    ensures CleanItems(bad, items)[i] == Clean(bad, items[i])
    decreases |items|
  {
    if i < |items| - 1 {
      CleanItemAt(bad, items[..|items| - 1], i);
    }
  }

  lemma {:induction false} FieldValueSnoc(init: seq<Field>, f: Field, key: string)
    ensures FieldValue(init + [f], key) ==
      if FieldValue(init, key).Some? then FieldValue(init, key)
      else if f.key == key then Some(f.value) else None
    decreases |init|
  {
    if init == [] {
      assert init + [f] == [f] && [f][1..] == [];
    } else {
      assert (init + [f])[0] == init[0] && (init + [f])[1..] == init[1..] + [f];
      FieldValueSnoc(init[1..], f, key);
    }
  }

  function CleanOption(bad: KeyTest, v: Option<Json>): Option<Json> {
    match v
    case None => None
    case Some(w) => Some(Clean(bad, w))
  }

  lemma {:induction false} CleanFieldValue(bad: KeyTest, fields: seq<Field>, key: string)
    ensures FieldValue(CleanFields(bad, fields), key) ==
      if bad(key) then None else CleanOption(bad, FieldValue(fields, key))
    decreases |fields|
  {
    if fields != [] {
      var init, f := fields[..|fields| - 1], fields[|fields| - 1];
      assert fields == init + [f];
      CleanFieldValue(bad, init, key);
      FieldValueSnoc(init, f, key);
      if !bad(f.key) {
        FieldValueSnoc(CleanFields(bad, init), Field(f.key, Clean(bad, f.value)), key);
      }
    }
  }

  lemma CleanChild(bad: KeyTest, v: Json, s: Step)
    ensures Child(Clean(bad, v), s) == if StepOffends(bad, s) then None else CleanOption(bad, Child(v, s))
  {
    match v
    case Scalar(_) =>
    case Arr(items) =>
      if s.Index? && s.index < |items| {
        CleanItemAt(bad, items, s.index);
      }
    case Obj(fields) =>
      if s.Key? {
        CleanFieldValue(bad, fields, s.key);
      }
  }

  /**
   The cleaned tree, path by path: nothing is left at a path with a content key, and at every other
   path there is what was there before, cleaned. Positions in lists do not shift.
   */
  lemma {:induction false} CleanAt(bad: KeyTest, v: Json, p: Path)
    ensures At(Clean(bad, v), p) == if Offends(bad, p) then None else CleanOption(bad, At(v, p))
    decreases |p|
  {
    if p != [] {
      OffendsCons(bad, p);
      CleanChild(bad, v, p[0]);
      if !StepOffends(bad, p[0]) && Child(v, p[0]).Some? {
        CleanAt(bad, Child(v, p[0]).value, p[1..]);
      }
    }
  }

  /** A scalar whose path has no content key survives unchanged. */
  lemma ScalarsSurvive(bad: KeyTest, v: Json, p: Path)
    requires At(v, p).Some? && At(v, p).value.Scalar?
    ensures At(Clean(bad, v), p) == if Offends(bad, p) then None else At(v, p)
  {
    CleanAt(bad, v, p);
  }

  // ----- what is reported -----

  /** A path that ends in a content key and has none before it. */
  predicate Shallowest(bad: KeyTest, v: Json, p: Path) {
    p != [] && StepOffends(bad, p[|p| - 1]) && !Offends(bad, p[..|p| - 1]) && At(v, p).Some?
  }

  lemma ShallowestCons(bad: KeyTest, v: Json, p: Path)
    requires p != []
    ensures Shallowest(bad, v, p) <==>
      && Child(v, p[0]).Some?
      && (if StepOffends(bad, p[0]) then |p| == 1 else Shallowest(bad, Child(v, p[0]).value, p[1..]))
  {
    if |p| == 1 {
      assert p[1..] == [] && p[..|p| - 1] == [];
      assert !Offends(bad, p[..|p| - 1]);
      assert Child(v, p[0]).Some? ==> At(v, p) == At(Child(v, p[0]).value, []);
    } else {
      OffendsCons(bad, p[..|p| - 1]);
      assert p[..|p| - 1][1..] == p[1..][..|p| - 2];
      assert p[1..][|p| - 2] == p[|p| - 1];
    }
  }

  /** The path `q` continues `path` with the step `s`. */
  predicate Through(q: Path, path: Path, s: Step) {
    |path| < |q| && q[..|path|] == path && q[|path|] == s
  }

  lemma ThroughMeaning(q: Path, path: Path, s: Step)
    ensures Through(q, path, s) <==> |path + [s]| <= |q| && q[..|path| + 1] == path + [s]
  {
    if |path| < |q| {
      assert q[..|path| + 1] == q[..|path|] + [q[|path|]];
    }
  }

  /** What is reported below one step. */
  predicate ReportedBelow(bad: KeyTest, q: Path, path: Path, s: Step, v: Json) {
    Through(q, path, s) && (if StepOffends(bad, s) then |q| == |path| + 1 else Shallowest(bad, v, q[|path| + 1..]))
  }

  lemma {:induction false} HitsMeaning(bad: KeyTest, v: Json, path: Path, q: Path)
    requires WellFormed(v)
    ensures q in Hits(bad, v, path) <==> |path| <= |q| && q[..|path|] == path && Shallowest(bad, v, q[|path|..])
    decreases v, 1
  {
    if |path| < |q| && q[..|path|] == path {
      ShallowestCons(bad, v, q[|path|..]);
      assert q[|path|..][1..] == q[|path| + 1..];
    }
    match v
    case Scalar(_) =>
    case Arr(items) =>
      HitsInItemsMeaning(bad, items, path, q);
      if |path| < |q| && q[|path|].Index? && q[|path|].index < |items| {
        assert q[|path|] == Index(q[|path|].index);
      }
    case Obj(fields) =>
      HitsInFieldsMeaning(bad, fields, path, q);
      if |path| < |q| && q[|path|].Key? {
        FieldValueMeaning(fields, q[|path|].key);
      }
  }

  lemma {:induction false} HitsInItemsMeaning(bad: KeyTest, items: seq<Json>, path: Path, q: Path)
    requires forall i :: 0 <= i < |items| ==> WellFormed(items[i])
    ensures q in HitsInItems(bad, items, path) <==>
      exists i :: 0 <= i < |items| && ReportedBelow(bad, q, path, Index(i), items[i])
    decreases items, 0
  {
    if items != [] {
      var n := |items| - 1;
      HitsInItemsMeaning(bad, items[..n], path, q);
      HitsMeaning(bad, items[n], path + [Index(n)], q);
      ThroughMeaning(q, path, Index(n));
      assert forall i :: 0 <= i < n ==> items[..n][i] == items[i];
    }
  }

  /** The path is one of those reported below some field. */
  predicate ReportedInFields(bad: KeyTest, q: Path, path: Path, fields: seq<Field>) {
    exists i :: 0 <= i < |fields| && ReportedBelow(bad, q, path, Key(fields[i].key), fields[i].value)
  }

  lemma ReportedInFieldsSnoc(bad: KeyTest, q: Path, path: Path, fields: seq<Field>)
    requires fields != []
    ensures var n := |fields| - 1;
      ReportedInFields(bad, q, path, fields) <==>
        ReportedInFields(bad, q, path, fields[..n]) || ReportedBelow(bad, q, path, Key(fields[n].key), fields[n].value)
  {
    var n := |fields| - 1;
    assert forall i :: 0 <= i < n ==> fields[..n][i] == fields[i];
  }

  lemma {:induction false} FieldHitsMeaning(bad: KeyTest, f: Field, path: Path, q: Path)
    requires WellFormed(f.value)
    ensures q in (if bad(f.key) then [path + [Key(f.key)]] else Hits(bad, f.value, path + [Key(f.key)])) <==>
      ReportedBelow(bad, q, path, Key(f.key), f.value)
    decreases f.value, 2
  {
    ThroughMeaning(q, path, Key(f.key));
    if bad(f.key) {
      assert Through(q, path, Key(f.key)) && |q| == |path| + 1 <==> q == path + [Key(f.key)];
    } else {
      HitsMeaning(bad, f.value, path + [Key(f.key)], q);
    }
  }

  lemma {:induction false} HitsInFieldsMeaning(bad: KeyTest, fields: seq<Field>, path: Path, q: Path)
    requires forall i :: 0 <= i < |fields| ==> WellFormed(fields[i].value)
    ensures q in HitsInFields(bad, fields, path) <==> ReportedInFields(bad, q, path, fields)
    decreases fields, 0
  {
    if fields != [] {
      var n := |fields| - 1;
      assert forall i :: 0 <= i < n ==> fields[..n][i] == fields[i];
      HitsInFieldsMeaning(bad, fields[..n], path, q);
      FieldHitsMeaning(bad, fields[n], path, q);
      ReportedInFieldsSnoc(bad, q, path, fields);
    }
  }

  lemma {:induction false} FieldValueMeaning(fields: seq<Field>, key: string)
    requires forall i, j :: 0 <= i < j < |fields| ==> fields[i].key != fields[j].key
    ensures forall i :: 0 <= i < |fields| && fields[i].key == key ==> FieldValue(fields, key) == Some(fields[i].value)
    ensures FieldValue(fields, key).Some? <==> exists i :: 0 <= i < |fields| && fields[i].key == key
    decreases |fields|
  {
    if fields != [] {
      FieldValueMeaning(fields[1..], key);
      assert forall i :: 0 < i < |fields| ==> fields[i] == fields[1..][i - 1];
    }
  }

  /** The report lists exactly the shallowest paths to a content key. */
  lemma ReportMeaning(bad: KeyTest, v: Json, p: Path)
    requires WellFormed(v)
    ensures p in Hits(bad, v, []) <==> Shallowest(bad, v, p)
  {
    HitsMeaning(bad, v, [], p);
    assert p[..0] == [] && p[0..] == p;
  }

  /** No path is reported twice. */
  lemma {:induction false} HitsAreDistinct(bad: KeyTest, v: Json, path: Path)
    requires WellFormed(v)
    ensures Distinct(Hits(bad, v, path))
    decreases v, 1
  {
    match v
    case Scalar(_) =>
    case Arr(items) => HitsInItemsAreDistinct(bad, items, path);
    case Obj(fields) => HitsInFieldsAreDistinct(bad, fields, path);
  }

  predicate Distinct(paths: seq<Path>) {
    forall i, j :: 0 <= i < j < |paths| ==> paths[i] != paths[j]
  }

  lemma DistinctConcat(a: seq<Path>, b: seq<Path>)
    requires Distinct(a) && Distinct(b) && forall x :: x in a ==> x !in b
    ensures Distinct(a + b)
  {
    forall i, j | 0 <= i < j < |a + b| ensures (a + b)[i] != (a + b)[j] {
      if i < |a| <= j {
        assert a[i] in a && b[j - |a|] in b;
      }
    }
  }

  lemma {:induction false} HitsInItemsAreDistinct(bad: KeyTest, items: seq<Json>, path: Path)
    requires forall i :: 0 <= i < |items| ==> WellFormed(items[i])
    ensures Distinct(HitsInItems(bad, items, path))
    decreases items, 0
  {
    if items != [] {
      var n := |items| - 1;
      var last := Hits(bad, items[n], path + [Index(n)]);
      HitsInItemsAreDistinct(bad, items[..n], path);
      HitsAreDistinct(bad, items[n], path + [Index(n)]);
      forall x | x in HitsInItems(bad, items[..n], path) ensures x !in last {
        HitsInItemsMeaning(bad, items[..n], path, x);
        HitsMeaning(bad, items[n], path + [Index(n)], x);
        ThroughMeaning(x, path, Index(n));
      }
      DistinctConcat(HitsInItems(bad, items[..n], path), last);
    }
  }

  lemma {:induction false} HitsInFieldsAreDistinct(bad: KeyTest, fields: seq<Field>, path: Path)
    requires WellFormed(Obj(fields))
    ensures Distinct(HitsInFields(bad, fields, path))
    decreases fields, 0
  {
    if fields != [] {
      var n := |fields| - 1;
      var f, init := fields[n], fields[..n];
      var last := if bad(f.key) then [path + [Key(f.key)]] else Hits(bad, f.value, path + [Key(f.key)]);
      assert forall i :: 0 <= i < n ==> init[i] == fields[i];
      HitsInFieldsAreDistinct(bad, init, path);
      if !bad(f.key) {
        HitsAreDistinct(bad, f.value, path + [Key(f.key)]);
      }
      forall x | x in HitsInFields(bad, init, path) ensures x !in last {
        HitsInFieldsMeaning(bad, init, path, x);
        ThroughMeaning(x, path, Key(f.key));
        if !bad(f.key) {
          HitsMeaning(bad, f.value, path + [Key(f.key)], x);
        }
      }
      DistinctConcat(HitsInFields(bad, init, path), last);
    }
  }

  // ----- the scan as an operation on trees -----

  /** Nothing is reported exactly when nothing is changed. */
  lemma {:induction false} SilentIffUnchanged(bad: KeyTest, v: Json, path: Path)
    ensures Hits(bad, v, path) == [] <==> Clean(bad, v) == v
    decreases v, 1
  {
    match v
    case Scalar(_) =>
    case Arr(items) => SilentItems(bad, items, path);
    case Obj(fields) => SilentFields(bad, fields, path);
  }

  lemma {:induction false} SilentItems(bad: KeyTest, items: seq<Json>, path: Path)
    ensures HitsInItems(bad, items, path) == [] <==> CleanItems(bad, items) == items
    decreases items, 0
  {
    if items != [] {
      var n := |items| - 1;
      SilentItems(bad, items[..n], path);
      SilentIffUnchanged(bad, items[n], path + [Index(n)]);
      SnocEqual(CleanItems(bad, items[..n]), Clean(bad, items[n]), items);
    }
  }

  lemma SnocEqual<T>(init: seq<T>, last: T, whole: seq<T>)
    requires |whole| == |init| + 1
    ensures init + [last] == whole <==> init == whole[..|init|] && last == whole[|init|]
  {
    assert whole == whole[..|init|] + [whole[|init|]];
    assert (init + [last])[..|init|] == init;
  }

  lemma {:induction false} SilentFields(bad: KeyTest, fields: seq<Field>, path: Path)
    ensures HitsInFields(bad, fields, path) == [] <==> CleanFields(bad, fields) == fields
    ensures |CleanFields(bad, fields)| <= |fields|
    decreases fields, 0
  {
    if fields != [] {
      var n := |fields| - 1;
      var f, kept := fields[n], CleanFields(bad, fields[..n]);
      SilentFields(bad, fields[..n], path);
      if !bad(f.key) {
        SilentIffUnchanged(bad, f.value, path + [Key(f.key)]);
        if |kept| == n {
          SnocEqual(kept, Field(f.key, Clean(bad, f.value)), fields);
        }
      }
    }
  }

  /** Scanning what has been scanned changes nothing and reports nothing. */
  lemma {:induction false} ScanIsIdempotent(bad: KeyTest, v: Json, path: Path)
    ensures Clean(bad, Clean(bad, v)) == Clean(bad, v)
    ensures Hits(bad, Clean(bad, v), path) == []
    decreases v, 2
  {
    CleanTwice(bad, v);
    SilentIffUnchanged(bad, Clean(bad, v), path);
  }

  lemma {:induction false} CleanTwice(bad: KeyTest, v: Json)
    ensures Clean(bad, Clean(bad, v)) == Clean(bad, v)
    decreases v, 1
  {
    match v
    case Scalar(_) =>
    case Arr(items) => CleanItemsTwice(bad, items);
    case Obj(fields) => CleanFieldsTwice(bad, fields);
  }

  lemma {:induction false} CleanItemsTwice(bad: KeyTest, items: seq<Json>)
    ensures CleanItems(bad, CleanItems(bad, items)) == CleanItems(bad, items)
    decreases items, 0
  {
    if items != [] {
      var n := |items| - 1;
      var kept := CleanItems(bad, items[..n]);
      CleanItemsTwice(bad, items[..n]);
      CleanTwice(bad, items[n]);
      assert (kept + [Clean(bad, items[n])])[..n] == kept;
    }
  }

  lemma {:induction false} CleanFieldsTwice(bad: KeyTest, fields: seq<Field>)
    ensures CleanFields(bad, CleanFields(bad, fields)) == CleanFields(bad, fields)
    decreases fields, 0
  {
    if fields != [] {
      var n := |fields| - 1;
      var kept, f := CleanFields(bad, fields[..n]), fields[n];
      CleanFieldsTwice(bad, fields[..n]);
      CleanTwice(bad, f.value);
      assert (kept + [Field(f.key, Clean(bad, f.value))])[..|kept|] == kept;
    }
  }

  // ----- depth -----

  function Max(a: nat, b: nat): nat {
    if a >= b then a else b
  }

  /** The nesting depth of containers. */
  function JsonDepth(v: Json): nat
    decreases v, 1
  {
    match v
    case Scalar(_) => 0
    case Arr(items) => 1 + ItemsDepth(items)
    case Obj(fields) => 1 + FieldsDepth(fields)
  }

  function ItemsDepth(items: seq<Json>): nat
    decreases items, 0
  {
    if items == [] then 0 else Max(ItemsDepth(items[..|items| - 1]), JsonDepth(items[|items| - 1]))
  }

  function FieldsDepth(fields: seq<Field>): nat
    decreases fields, 0
  {
    if fields == [] then 0 else Max(FieldsDepth(fields[..|fields| - 1]), JsonDepth(fields[|fields| - 1].value))
  }

  /** Cleaning never makes a tree deeper, so it cannot break the depth limit. */
  lemma {:induction false} CleanIsNoDeeper(bad: KeyTest, v: Json)
    ensures JsonDepth(Clean(bad, v)) <= JsonDepth(v)
    decreases v, 1
  {
    match v
    case Scalar(_) =>
    case Arr(items) => CleanItemsNoDeeper(bad, items);
    case Obj(fields) => CleanFieldsNoDeeper(bad, fields);
  }

  lemma {:induction false} CleanItemsNoDeeper(bad: KeyTest, items: seq<Json>)
    ensures ItemsDepth(CleanItems(bad, items)) <= ItemsDepth(items)
    decreases items, 0
  {
    if items != [] {
      var n := |items| - 1;
      var kept := CleanItems(bad, items[..n]);
      CleanItemsNoDeeper(bad, items[..n]);
      CleanIsNoDeeper(bad, items[n]);
      assert (kept + [Clean(bad, items[n])])[..n] == kept;
    }
  }

  lemma {:induction false} CleanFieldsNoDeeper(bad: KeyTest, fields: seq<Field>)
    ensures FieldsDepth(CleanFields(bad, fields)) <= FieldsDepth(fields)
    decreases fields, 0
  {
    if fields != [] {
      var n := |fields| - 1;
      var kept, f := CleanFields(bad, fields[..n]), fields[n];
      CleanFieldsNoDeeper(bad, fields[..n]);
      CleanIsNoDeeper(bad, f.value);
      assert (kept + [Field(f.key, Clean(bad, f.value))])[..|kept|] == kept;
    }
  }

  /** No path to a container is longer than the depth allows. */
  lemma {:induction false} DepthBoundsPaths(v: Json, p: Path)
    requires At(v, p).Some? && !At(v, p).value.Scalar?
    ensures |p| < JsonDepth(v)
    decreases |p|
  {
    if p != [] {
      match v {
        case Arr(items) => ItemDepth(items, p[0].index);
        case Obj(fields) => FieldDepth(fields, p[0].key);
      }
      DepthBoundsPaths(Child(v, p[0]).value, p[1..]);
    }
  }

  lemma {:induction false} ItemDepth(items: seq<Json>, i: nat)
    requires i < |items|
    ensures JsonDepth(items[i]) <= ItemsDepth(items)
    decreases |items|
  {
    if i < |items| - 1 {
      ItemDepth(items[..|items| - 1], i);
    }
  }

  lemma {:induction false} FieldDepth(fields: seq<Field>, key: string)
    requires FieldValue(fields, key).Some?
    ensures JsonDepth(FieldValue(fields, key).value) <= FieldsDepth(fields)
    decreases |fields|
  {
    var init, f := fields[..|fields| - 1], fields[|fields| - 1];
    assert fields == init + [f];
    FieldValueSnoc(init, f, key);
    if FieldValue(init, key).Some? {
      FieldDepth(init, key);
    }
  }

  /** Some item is as deep as the items together. */
  lemma {:induction false} DeepestItem(items: seq<Json>) returns (i: nat)
    requires items != []
    ensures i < |items| && JsonDepth(items[i]) == ItemsDepth(items)
    decreases |items|
  {
    var n := |items| - 1;
    i := n;
    if n > 0 && JsonDepth(items[n]) < ItemsDepth(items[..n]) {
      i := DeepestItem(items[..n]);
    }
  }

  lemma {:induction false} DeepestField(fields: seq<Field>) returns (i: nat)
    requires fields != []
    ensures i < |fields| && JsonDepth(fields[i].value) == FieldsDepth(fields)
    decreases |fields|
  {
    var n := |fields| - 1;
    i := n;
    if n > 0 && JsonDepth(fields[n].value) < FieldsDepth(fields[..n]) {
      i := DeepestField(fields[..n]);
    }
  }

  lemma {:induction false} FieldValueAt(fields: seq<Field>, i: nat)
    requires i < |fields| && forall a, b :: 0 <= a < b < |fields| ==> fields[a].key != fields[b].key
    ensures FieldValue(fields, fields[i].key) == Some(fields[i].value)
    decreases |fields|
  {
    if i > 0 {
      FieldValueAt(fields[1..], i - 1);
    }
  }

  lemma StepDown(v: Json, s: Step, c: Json, p: Path)
    requires Child(v, s) == Some(c)
    ensures At(v, [s] + p) == At(c, p)
  {
    assert ([s] + p)[1..] == p;
  }

  /** One path to a container is as long as the depth allows. */
  lemma {:induction false} DepthIsReached(v: Json) returns (p: Path)
    requires WellFormed(v) && !v.Scalar?
    ensures |p| == JsonDepth(v) - 1 && At(v, p).Some? && !At(v, p).value.Scalar?
    decreases v
  {
    p := [];
    match v {
      case Arr(items) =>
        if items != [] {
          var i := DeepestItem(items);
          if !items[i].Scalar? {
            var rest := DepthIsReached(items[i]);
            StepDown(v, Index(i), items[i], rest);
            p := [Index(i)] + rest;
          }
        }
      case Obj(fields) =>
        if fields != [] {
          var i := DeepestField(fields);
          if !fields[i].value.Scalar? {
            var rest := DepthIsReached(fields[i].value);
            FieldValueAt(fields, i);
            StepDown(v, Key(fields[i].key), fields[i].value, rest);
            p := [Key(fields[i].key)] + rest;
          }
        }
    }
  }

  /** The depth is the length of the longest path to a container, counting the container itself. */
  lemma DepthMeaning(v: Json, d: nat)
    requires WellFormed(v) && !v.Scalar?
    ensures d < JsonDepth(v) <==> exists p :: |p| == d && At(v, p).Some? && !At(v, p).value.Scalar?
  {
    if exists p :: |p| == d && At(v, p).Some? && !At(v, p).value.Scalar? {
      var p :| |p| == d && At(v, p).Some? && !At(v, p).value.Scalar?;
      DepthBoundsPaths(v, p);
    }
    if d < JsonDepth(v) {
      var p := DepthIsReached(v);
      PrefixIsContainer(v, p, d);
      assert |p[..d]| == d;
    }
  }

  /** What has something below it is a container. */
  lemma {:induction false} PrefixIsContainer(v: Json, p: Path, d: nat)
    requires d <= |p| && At(v, p).Some? && !At(v, p).value.Scalar?
    ensures At(v, p[..d]).Some? && !At(v, p[..d]).value.Scalar?
    decreases d
  {
    if d > 0 {
      PrefixIsContainer(Child(v, p[0]).value, p[1..], d - 1);
      assert p[..d][0] == p[0] && p[..d][1..] == p[1..][..d - 1];
    }
  }
}
