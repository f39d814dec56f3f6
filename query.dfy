/** The model's normalisation helpers: turning a client's JSON body into
    write payloads (`parseJsonQuery`), de-duplicating a batch of them
    (`deDupJsonQueryArray`), and the per-row filter that `getByContents`
    builds from a JSON body. */
module Query {
  import opened Wrappers
  import opened JsValue
  import opened Schema

  /** A write payload: the object `newJsonQuery` that `parseJsonQuery`
      builds, holding only recognised keys. */
  type Payload = map<string, Json>

  /** A recognised key's value as written: `null` and `""` become `null`. */
  function Canonical(v: Json): (r: Json)
    ensures r != JStr("")
    ensures r == JNull <==> IsBlank(v)
  {
    if IsBlank(v) then JNull else v
  }

  /** The recognised keys among the first n of Keys that q holds, each with
      its canonical value. */
  function NormalizedUpTo(q: Json, n: nat): Payload
    requires n <= |Keys|
  {
    map k | k in Keys[..n] && Get(q, k).Present? :: Canonical(Get(q, k).v)
  }

  /** Some key of the payload holds a value other than `null`. */
  predicate HasNonNull(p: Payload)
  {
    exists k :: k in p && p[k] != JNull
  }

  /** What `parseJsonQuery(q, insertMode)` returns, `null` being None. */
  function Parsed(q: Json, insertMode: bool): (r: Option<Payload>)
    ensures !IsJson(q) || KeyCount(q) == 0 ==> r == None
    ensures r.Some? ==> forall k :: k in r.value <==> k in Keys && Get(q, k).Present?
    ensures r.Some? ==> forall k :: k in r.value ==> r.value[k] == Canonical(Get(q, k).v)
    ensures insertMode ==>
      (r.Some? <==> exists k :: k in Keys && Get(q, k).Present? && !IsBlank(Get(q, k).v))
    ensures !insertMode ==>
      (r.Some? <==> exists k :: k in Keys && Get(q, k).Present?)
  {
    if !IsJson(q) || KeyCount(q) < 1 then None
    else
      var p := NormalizedUpTo(q, |Keys|);
      assert Keys[..|Keys|] == Keys;
      assert p == map[] <==> !exists k :: k in Keys && Get(q, k).Present? by {
        if exists k :: k in Keys && Get(q, k).Present? {
          var k :| k in Keys && Get(q, k).Present?;
          assert k in p;
        }
      }
      assert HasNonNull(p) <==> exists k :: k in Keys && Get(q, k).Present? && !IsBlank(Get(q, k).v) by {
        if exists k :: k in Keys && Get(q, k).Present? && !IsBlank(Get(q, k).v) {
          var k :| k in Keys && Get(q, k).Present? && !IsBlank(Get(q, k).v);
          assert k in p && p[k] != JNull;
        }
      }
      if insertMode && !HasNonNull(p) then None
      else if !insertMode && |p| < 1 then None
      else Some(p)
  }

  /** `parseJsonQuery`: copies each recognised key that q holds, turning
      `null` and `""` into `null`, and records whether some key had a
      non-blank value. Insert mode rejects a body without one; update mode
      rejects a body with no recognised key. */
  method ParseJsonQuery(q: Json, insertMode: bool) returns (r: Option<Payload>)
    ensures r == Parsed(q, insertMode)
  {
    if !IsJson(q) || KeyCount(q) < 1 {
      return None;
    }
    var newJsonQuery: Payload := map[];
    var hasNotNullValue := false;
    for i := 0 to |Keys|
      invariant newJsonQuery == NormalizedUpTo(q, i)
      invariant hasNotNullValue == HasNonNull(newJsonQuery)
    {
      var key := Keys[i];
      assert Keys[..i + 1] == Keys[..i] + [key];
      assert key !in newJsonQuery;
      var f := Get(q, key);
      if f.Present? {
        if f.v == JNull || f.v == JStr("") {
          ghost var before := newJsonQuery;
          newJsonQuery := newJsonQuery[key := JNull];
          assert HasNonNull(newJsonQuery) ==> HasNonNull(before) by {
            if HasNonNull(newJsonQuery) {
              var k :| k in newJsonQuery && newJsonQuery[k] != JNull;
              assert k in before && before[k] != JNull;
            }
          }
        } else {
          newJsonQuery := newJsonQuery[key := f.v];
          hasNotNullValue := true;
          assert newJsonQuery[key] != JNull;
        }
      }
    }
    if insertMode && !hasNotNullValue {
      return None;
    } else if !insertMode && |newJsonQuery| < 1 {
      return None;
    }
    return Some(newJsonQuery);
  }

  /** `parseJsonQuery(elm, true)` as an element of the array that `create`
      maps over its body: the payload object, or `null`. */
  function ParseOrNull(elm: Json): Json
  {
    match Parsed(elm, true)
    case Some(p) => JObj(p)
    case None => JNull
  }

  // ------------------------------------------------------------------
  // De-duplication of a batch
  // ------------------------------------------------------------------

  /** `elm2[key] === elm[key]` for every recognised key, for two different
      elements of one array. */
  predicate SameKeys(a: Json, b: Json)
  {
    forall k :: k in Keys ==> StrictEquals(Get(a, k), Get(b, k))
  }

  lemma SameKeysSymmetricTransitive(a: Json, b: Json, c: Json)
    ensures SameKeys(a, b) ==> SameKeys(b, a)
    ensures SameKeys(a, b) && SameKeys(b, c) ==> SameKeys(a, c)
  {
    forall k | k in Keys {
      StrictEqualsSymmetricTransitive(Get(a, k), Get(b, k), Get(c, k));
    }
  }

  /** The index that `self.findIndex(...)` returns for element i, scanning
      from j: the first object at or after j that agrees with element i on
      every key, element i itself matching at its own index (both sides are
      then the same value, so every `===` holds). */
  function FindIndex(xs: seq<Json>, i: nat, j: nat): nat
    requires j <= i < |xs| && IsJson(xs[i])
    decreases i - j
  {
    if j == i then i
    else if IsJson(xs[j]) && SameKeys(xs[j], xs[i]) then j
    else FindIndex(xs, i, j + 1)
  }

  /** The `filter` callback of `deDupJsonQueryArray` for element i. */
  predicate Kept(xs: seq<Json>, i: nat)
    requires i < |xs|
  {
    IsJson(xs[i]) && FindIndex(xs, i, 0) == i
  }

  /** The elements from index `from` on that the filter keeps, in order. */
  function Survivors(xs: seq<Json>, from: nat): seq<Json>
    requires from <= |xs|
    decreases |xs| - from
  {
    if from == |xs| then []
    else (if Kept(xs, from) then [xs[from]] else []) + Survivors(xs, from + 1)
  }

  /** `deDupJsonQueryArray(v)`: null (None) for a non-array, otherwise the
      elements that are objects or arrays and that no earlier such element
      agrees with on both keys. */
  function DeDupJsonQueryArray(v: Json): Option<seq<Json>>
  {
    if v.JArr? then Some(Survivors(v.items, 0)) else None
  }

  /** FindIndex returns i exactly when no object between j and i agrees with
      element i, and otherwise the first one that does. */
  lemma {:induction false} FindIndexSpec(xs: seq<Json>, i: nat, j: nat)
    requires j <= i < |xs| && IsJson(xs[i])
    ensures var r := FindIndex(xs, i, j);
      && j <= r <= i
      && (r < i ==> IsJson(xs[r]) && SameKeys(xs[r], xs[i]))
      && forall m :: j <= m < r ==> !(IsJson(xs[m]) && SameKeys(xs[m], xs[i]))
    decreases i - j
  {
    if j < i && !(IsJson(xs[j]) && SameKeys(xs[j], xs[i])) {
      FindIndexSpec(xs, i, j + 1);
    }
  }

  /** An element is kept exactly when it is an object or an array and no
      earlier such element agrees with it on both keys. */
  lemma KeptIff(xs: seq<Json>, i: nat)
    requires i < |xs|
    ensures Kept(xs, i) <==>
      IsJson(xs[i]) && forall j :: 0 <= j < i ==> !(IsJson(xs[j]) && SameKeys(xs[j], xs[i]))
  {
    if IsJson(xs[i]) {
      FindIndexSpec(xs, i, 0);
    }
  }

  /** Every survivor from index `from` on is a kept element at or after it. */
  lemma {:induction false} SurvivorOrigin(xs: seq<Json>, from: nat, y: Json)
    requires from <= |xs|
    requires y in Survivors(xs, from)
    ensures exists b :: from <= b < |xs| && xs[b] == y && Kept(xs, b)
    decreases |xs| - from
  {
    if !(Kept(xs, from) && y == xs[from]) {
      SurvivorOrigin(xs, from + 1, y);
    }
  }

  /** Every kept element at or after `from` survives. */
  lemma {:induction false} KeptSurvives(xs: seq<Json>, from: nat, b: nat)
    requires from <= b < |xs| && Kept(xs, b)
    ensures xs[b] in Survivors(xs, from)
    decreases b - from
  {
    if from < b {
      KeptSurvives(xs, from + 1, b);
    }
  }

  /** Membership: the output holds exactly the kept elements. */
  lemma SurvivorsMembers(xs: seq<Json>, y: Json)
    ensures y in Survivors(xs, 0) <==> exists i :: 0 <= i < |xs| && Kept(xs, i) && xs[i] == y
  {
    if y in Survivors(xs, 0) {
      SurvivorOrigin(xs, 0, y);
    }
    if exists i :: 0 <= i < |xs| && Kept(xs, i) && xs[i] == y {
      var i :| 0 <= i < |xs| && Kept(xs, i) && xs[i] == y;
      KeptSurvives(xs, 0, i);
    }
  }

  /** a is an order-preserving subsequence of b. */
  predicate IsSubsequence<T(==)>(a: seq<T>, b: seq<T>)
    decreases |b|
  {
    a == [] || (b != [] && ((a[0] == b[0] && IsSubsequence(a[1..], b[1..])) || IsSubsequence(a, b[1..])))
  }

  /** The output keeps the order of the input. */
  lemma {:induction false} SurvivorsSubsequence(xs: seq<Json>, from: nat)
    requires from <= |xs|
    ensures IsSubsequence(Survivors(xs, from), xs[from..])
    decreases |xs| - from
  {
    if from < |xs| {
      SurvivorsSubsequence(xs, from + 1);
      assert xs[from..][1..] == xs[from + 1..];
      var rest := Survivors(xs, from + 1);
      var out := Survivors(xs, from);
      assert xs[from..] != [] && xs[from..][0] == xs[from];
      if Kept(xs, from) {
        assert out == [xs[from]] + rest && out[1..] == rest;
      } else {
        assert out == rest;
      }
    }
  }

  /** Every element is an object or an array. */
  predicate AllJson(ys: seq<Json>)
  {
    forall t :: 0 <= t < |ys| ==> IsJson(ys[t])
  }

  /** No two elements agree on both keys. */
  predicate PairwiseDistinct(ys: seq<Json>)
  {
    forall s, t :: 0 <= s < t < |ys| ==> !SameKeys(ys[s], ys[t])
  }

  /** The output holds only objects and arrays, and no two of its elements
      agree on both keys. */
  lemma {:induction false} SurvivorsDistinct(xs: seq<Json>, from: nat)
    requires from <= |xs|
    ensures AllJson(Survivors(xs, from))
    ensures PairwiseDistinct(Survivors(xs, from))
    decreases |xs| - from
  {
    if from < |xs| {
      SurvivorsDistinct(xs, from + 1);
      var rest := Survivors(xs, from + 1);
      var out := Survivors(xs, from);
      if Kept(xs, from) {
        assert out == [xs[from]] + rest;
        forall t | 1 <= t < |out| ensures !SameKeys(out[0], out[t]) {
          assert out[t] == rest[t - 1] && out[t] in rest;
          SurvivorOrigin(xs, from + 1, out[t]);
          var b :| from + 1 <= b < |xs| && xs[b] == out[t] && Kept(xs, b);
          KeptIff(xs, b);
          assert !(IsJson(xs[from]) && SameKeys(xs[from], xs[b]));
        }
        forall s, t | 1 <= s < t < |out| ensures !SameKeys(out[s], out[t]) {
          assert out[s] == rest[s - 1] && out[t] == rest[t - 1];
        }
      } else {
        assert out == rest;
      }
    }
  }

  /** Every object or array of the input is kept, or an earlier kept element
      agrees with it on both keys: the first occurrence represents it. */
  lemma FirstOccurrenceKept(xs: seq<Json>, i: nat)
    requires i < |xs| && IsJson(xs[i])
    ensures Kept(xs, i) || exists j :: 0 <= j < i && Kept(xs, j) && SameKeys(xs[j], xs[i])
  {
    var j := FindIndex(xs, i, 0);
    FindIndexSpec(xs, i, 0);
    if j < i {
      forall m | 0 <= m < j ensures !(IsJson(xs[m]) && SameKeys(xs[m], xs[j])) {
        SameKeysSymmetricTransitive(xs[m], xs[j], xs[i]);
      }
      KeptIff(xs, j);
    }
  }

  /** An array of objects and arrays no two of which agree is left as it is. */
  lemma {:induction false} DistinctSurvives(ys: seq<Json>, from: nat)
    requires from <= |ys|
    requires AllJson(ys) && PairwiseDistinct(ys)
    ensures Survivors(ys, from) == ys[from..]
    decreases |ys| - from
  {
    if from < |ys| {
      DistinctSurvives(ys, from + 1);
      KeptIff(ys, from);
      assert ys[from..] == [ys[from]] + ys[from + 1..];
    }
  }

  /** De-duplicating twice is de-duplicating once. */
  lemma DeDupIdempotent(xs: seq<Json>)
    ensures DeDupJsonQueryArray(JArr(Survivors(xs, 0))) == Some(Survivors(xs, 0))
  {
    var out := Survivors(xs, 0);
    SurvivorsDistinct(xs, 0);
    DistinctSurvives(out, 0);
    assert out[0..] == out;
  }

  // ------------------------------------------------------------------
  // The batch that create inserts
  // ------------------------------------------------------------------

  /** The payload held by an element of the de-duplicated array. */
  function FieldsOf(v: Json): Payload
  {
    if v.JObj? then v.fields else map[]
  }

  /** The array `create` hands to de-duplication: each element of the body
      parsed in insert mode, `null` where it is rejected. */
  function ParsedItems(items: seq<Json>): seq<Json>
  {
    seq(|items|, i requires 0 <= i < |items| => ParseOrNull(items[i]))
  }

  /** `newQueryJsonArray` of `create`: None where `create` answers -1 before
      reaching the store. */
  function Batch(body: Json): Option<seq<Payload>>
  {
    if body.JArr? then
      match DeDupJsonQueryArray(JArr(ParsedItems(body.items)))
      case Some(kept) => Some(seq(|kept|, i requires 0 <= i < |kept| => FieldsOf(kept[i])))
      case None => None
    else
      match Parsed(body, true)
      case Some(p) => Some([p])
      case None => None
  }

  /** A list without objects or arrays de-duplicates to nothing. */
  lemma {:induction false} SurvivorsOfNonJson(xs: seq<Json>, from: nat)
    requires from <= |xs|
    requires forall i :: 0 <= i < |xs| ==> !IsJson(xs[i])
    ensures Survivors(xs, from) == []
    decreases |xs| - from
  {
    if from < |xs| {
      SurvivorsOfNonJson(xs, from + 1);
    }
  }

  /** An array none of whose elements parses in insert mode, `[]` included,
      becomes an empty batch rather than a rejected one. */
  lemma EmptyBatch(items: seq<Json>)
    requires forall i :: 0 <= i < |items| ==> Parsed(items[i], true).None?
    ensures Batch(JArr(items)) == Some([])
  {
    var xs := ParsedItems(items);
    assert forall i :: 0 <= i < |xs| ==> xs[i] == JNull;
    SurvivorsOfNonJson(xs, 0);
    assert DeDupJsonQueryArray(JArr(xs)) == Some([]);
    var empty: seq<Json> := [];
    assert seq(|empty|, i requires 0 <= i < |empty| => FieldsOf(empty[i])) == [];
  }

  /** A single body becomes a batch of one valid payload, or is rejected. */
  lemma BatchOfObject(body: Json)
    requires !body.JArr?
    ensures Batch(body).Some? <==> Parsed(body, true).Some?
    ensures Batch(body).Some? ==> Batch(body) == Some([Parsed(body, true).value])
  {
  }

  /** An array body is never rejected before the store: each payload of the
      batch comes from a valid element, no two payloads agree on both keys,
      and every valid element is in the batch or agrees with an earlier one
      that is. An invalid element is silently dropped. */
  lemma BatchOfArray(items: seq<Json>)
    ensures Batch(JArr(items)).Some?
    ensures var b := Batch(JArr(items)).value;
      && (forall t :: 0 <= t < |b| ==>
            exists i :: 0 <= i < |items| && Parsed(items[i], true) == Some(b[t]))
      && (forall s, t :: 0 <= s < t < |b| ==> !SameKeys(JObj(b[s]), JObj(b[t])))
      && (forall i :: 0 <= i < |items| && Parsed(items[i], true).Some? ==>
            exists t :: 0 <= t < |b| && (SameKeys(JObj(b[t]), JObj(Parsed(items[i], true).value)) ||
                        b[t] == Parsed(items[i], true).value))
  {
    var xs := ParsedItems(items);
    var kept := Survivors(xs, 0);
    var b := Batch(JArr(items)).value;
    SurvivorsDistinct(xs, 0);
    assert forall t :: 0 <= t < |kept| ==> kept[t].JObj? by {
      forall t | 0 <= t < |kept| ensures kept[t].JObj? {
        assert kept[t] in kept;
        SurvivorOrigin(xs, 0, kept[t]);
      }
    }
    assert forall t :: 0 <= t < |b| ==> JObj(b[t]) == kept[t];
    forall t | 0 <= t < |b|
      ensures exists i :: 0 <= i < |items| && Parsed(items[i], true) == Some(b[t])
    {
      assert kept[t] in kept;
      SurvivorOrigin(xs, 0, kept[t]);
      var i :| 0 <= i < |xs| && xs[i] == kept[t] && Kept(xs, i);
      assert Parsed(items[i], true) == Some(b[t]);
    }
    forall i | 0 <= i < |items| && Parsed(items[i], true).Some?
      ensures exists t :: 0 <= t < |b| && (SameKeys(JObj(b[t]), JObj(Parsed(items[i], true).value)) ||
                          b[t] == Parsed(items[i], true).value)
    {
      FirstOccurrenceKept(xs, i);
      var j := if Kept(xs, i) then i else
        var j :| 0 <= j < i && Kept(xs, j) && SameKeys(xs[j], xs[i]); j;
      KeptSurvives(xs, 0, j);
      var t :| 0 <= t < |kept| && kept[t] == xs[j];
      assert JObj(b[t]) == xs[j];
    }
  }

  // ------------------------------------------------------------------
  // The filter of getByContents
  // ------------------------------------------------------------------

  /** `p` occurs in `s` as a contiguous, case-sensitive substring. */
  function Contains(s: string, p: string): bool
    decreases |s|
  {
    p <= s || (|s| > 0 && Contains(s[1..], p))
  }

  /** p sits in s at offset i. */
  predicate OccursAt(s: string, p: string, i: int)
  {
    0 <= i && i + |p| <= |s| && s[i..i + |p|] == p
  }

  /** Contains means: p sits at some offset of s. */
  lemma {:induction false} ContainsIff(s: string, p: string)
    ensures Contains(s, p) <==> exists i :: OccursAt(s, p, i)
    decreases |s|
  {
    if p <= s {
      assert s[0..|p|] == p;
      assert OccursAt(s, p, 0);
    } else if |s| > 0 {
      ContainsIff(s[1..], p);
      if exists i :: OccursAt(s, p, i) {
        var i :| OccursAt(s, p, i);
        if i > 0 {
          assert s[1..][i - 1..i - 1 + |p|] == s[i..i + |p|];
          assert OccursAt(s[1..], p, i - 1);
        }
      }
      if Contains(s[1..], p) {
        var i :| OccursAt(s[1..], p, i);
        assert s[i + 1..i + 1 + |p|] == s[1..][i..i + |p|];
        assert OccursAt(s, p, i + 1);
      }
    }
  }

  /** The restriction one key of a filter body puts on its column. */
  datatype Condition =
    | AnyValue               // the key is absent: the dummy `1=1`
    | BlankValue             // null or "": column IS NULL OR column = ''
    | Substring(text: string) // otherwise: column LIKE %text%

  function ConditionFor(q: Json, key: string): Condition
  {
    match Get(q, key)
    case Absent => AnyValue
    case Present(v) => if IsBlank(v) then BlankValue else Substring(ToText(v))
  }

  predicate Satisfies(cell: Option<string>, c: Condition)
  {
    match c
    case AnyValue => true
    case BlankValue => cell == None || cell == Some("")
    case Substring(text) => cell.Some? && Contains(cell.value, text)
  }

  /** The WHERE clause of `getByContents(q)`: one condition per key, all of
      them holding. */
  predicate RowMatches(q: Json, r: Row)
  {
    forall k :: k in Keys ==> Satisfies(r.Column(k), ConditionFor(q, k))
  }

  /** What the filter means, key by key: an absent key accepts any row, a
      blank one accepts a blank column, and any other value accepts a
      non-null column in which its text occurs. */
  lemma RowMatchesIff(q: Json, r: Row)
    ensures RowMatches(q, r) <==> forall k :: k in Keys ==> ColumnAccepted(q, k, r.Column(k))
  {
    forall k | k in Keys
      ensures Satisfies(r.Column(k), ConditionFor(q, k)) <==> ColumnAccepted(q, k, r.Column(k))
    {
      match Get(q, k)
      case Absent =>
      case Present(v) =>
        if !IsBlank(v) && r.Column(k).Some? {
          ContainsIff(r.Column(k).value, ToText(v));
        }
    }
  }

  /** The meaning of one key of a filter body for one column value. */
  ghost predicate ColumnAccepted(q: Json, k: string, cell: Option<string>)
  {
    match Get(q, k)
    case Absent => true
    case Present(v) =>
      if IsBlank(v) then Blank(cell)
      else cell.Some? && exists i :: OccursAt(cell.value, ToText(v), i)
  }

  /** A body with neither recognised key, `{}` or an array included, puts no
      restriction on the rows. */
  lemma NoKeysMatchesAll(q: Json, r: Row)
    requires forall k :: k in Keys ==> Get(q, k).Absent?
    ensures RowMatches(q, r)
  {
  }

  /** `{ja: null}` selects the rows whose `ja` is null or "", and no others. */
  lemma BlankJaFilter(r: Row)
    ensures RowMatches(JObj(map["ja" := JNull]), r) <==> Blank(r.ja)
  {
    var q := JObj(map["ja" := JNull]);
    KeysAre();
    assert ConditionFor(q, "en") == AnyValue;
    assert ConditionFor(q, "ja") == BlankValue;
    assert RowMatches(q, r) <==> Satisfies(r.ja, BlankValue) && Satisfies(r.en, AnyValue);
  }

  /** `{ja: "", en: b}` normalises to `{ja: null, en: b}` in either mode:
      the empty string is stored as NULL. */
  lemma NormaliseBlankJa(b: string, insertMode: bool)
    requires b != ""
    ensures Parsed(JObj(map["ja" := JStr(""), "en" := JStr(b)]), insertMode) ==
      Some(map["ja" := JNull, "en" := JStr(b)])
  {
    var q := JObj(map["ja" := JStr(""), "en" := JStr(b)]);
    assert Get(q, "en").Present? && !IsBlank(Get(q, "en").v);
    KeysAre();
    var r := Parsed(q, insertMode);
    assert r.Some?;
    assert "ja" in r.value && "en" in r.value;
    assert r.value.Keys == {"ja", "en"};
    assert r.value["ja"] == JNull && r.value["en"] == JStr(b);
    var m := map["ja" := JNull, "en" := JStr(b)];
    assert m.Keys == {"ja", "en"};
    assert r.value == m;
  }

  /** `{en: null}` is a valid update that clears `en`, and no insert. */
  lemma NullOnlyBody()
    ensures Parsed(JObj(map["en" := JNull]), false) == Some(map["en" := JNull])
    ensures Parsed(JObj(map["en" := JNull]), true) == None
  {
    var q := JObj(map["en" := JNull]);
    KeysAre();
    assert Get(q, "en") == Present(JNull);
    assert forall k :: Get(q, k).Present? <==> k == "en";
    var r := Parsed(q, false);
    assert r.Some?;
    assert r.value.Keys == {"en"} && r.value["en"] == JNull;
    var m := map["en" := JNull];
    assert m.Keys == {"en"};
    assert r.value == m;
  }

  /** A body holding one recognised key with a non-empty string parses
      to itself in either mode. */
  lemma ParsedOne(key: string, a: string, insertMode: bool)
    requires key in Keys && a != ""
    ensures Parsed(JObj(map[key := JStr(a)]), insertMode) == Some(map[key := JStr(a)])
  {
    var q := JObj(map[key := JStr(a)]);
    assert Get(q, key) == Present(JStr(a)) && !IsBlank(JStr(a));
    var r := Parsed(q, insertMode);
    assert r.Some?;
    assert forall k :: Get(q, k).Present? <==> k == key;
    assert key in r.value && r.value[key] == JStr(a);
    assert r.value.Keys == {key};
    var m := map[key := JStr(a)];
    assert m.Keys == {key};
    assert r.value == m;
  }

  /** A body `{ja: a, en: b}` of two non-empty strings parses to itself in
      either mode. */
  lemma ParsedPair(a: string, b: string, insertMode: bool)
    requires a != "" && b != ""
    ensures Parsed(JObj(map["ja" := JStr(a), "en" := JStr(b)]), insertMode) ==
      Some(map["ja" := JStr(a), "en" := JStr(b)])
  {
    var q := JObj(map["ja" := JStr(a), "en" := JStr(b)]);
    KeysAre();
    assert Get(q, "ja") == Present(JStr(a)) && !IsBlank(JStr(a));
    var r := Parsed(q, insertMode);
    assert r.Some?;
    assert "ja" in r.value && "en" in r.value;
    assert r.value.Keys == {"ja", "en"};
    assert r.value["ja"] == JStr(a) && r.value["en"] == JStr(b);
    var m := map["ja" := JStr(a), "en" := JStr(b)];
    assert m.Keys == {"ja", "en"};
    assert r.value == m;
  }

  /** `[{A,B}, {C,D}, {A,B}]` de-duplicates to `[{A,B}, {C,D}]`. */
  lemma DeDupExample()
    ensures
      var ab := JObj(map["ja" := JStr("A"), "en" := JStr("B")]);
      var cd := JObj(map["ja" := JStr("C"), "en" := JStr("D")]);
      DeDupJsonQueryArray(JArr([ab, cd, ab])) == Some([ab, cd])
  {
    var ab := JObj(map["ja" := JStr("A"), "en" := JStr("B")]);
    var cd := JObj(map["ja" := JStr("C"), "en" := JStr("D")]);
    var xs := [ab, cd, ab];
    assert !SameKeys(ab, cd) by {
      assert Get(ab, "ja") == Present(JStr("A")) && Get(cd, "ja") == Present(JStr("C"));
      assert "ja" in Keys;
    }
    KeysAre();
    assert SameKeys(ab, ab) by {
      forall k | k in Keys ensures StrictEquals(Get(ab, k), Get(ab, k)) {
        assert k == "ja" || k == "en";
      }
    }
    assert Kept(xs, 0);
    KeptIff(xs, 1);
    KeptIff(xs, 2);
    assert !Kept(xs, 2) by {
      assert IsJson(xs[0]) && SameKeys(xs[0], xs[2]);
    }
    assert Survivors(xs, 3) == [];
    assert Survivors(xs, 2) == [];
    assert Kept(xs, 1);
    assert Survivors(xs, 1) == [cd];
    assert Survivors(xs, 0) == [ab, cd];
  }
}
