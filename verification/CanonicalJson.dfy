/**
 * Canonical JSON: the one-shot form that rebuilds each object with sorted keys
 * and lets the runtime order its properties, and the streaming form that emits
 * the sorted keys directly.
 */
module CanonicalJson {
  import opened Quorum
  import opened Sorting
  import opened CanonicalText
  import opened JsonReader

  const MAX_DEPTH := 64
  const MAX_SAFE := 9_007_199_254_740_991
  const CHUNK := 16 * 1024

  // -------------------------------------------------------------------------
  // Key orders
  // -------------------------------------------------------------------------

  function Codes(t: Text): (codes: seq<int>)
    ensures |codes| == |t| && forall i :: 0 <= i < |t| ==> codes[i] == t[i] as int
  {
    seq(|t|, i requires 0 <= i < |t| => t[i] as int)
  }

  predicate NameLess(a: Text, b: Text) { LexLess(Codes(a), Codes(b)) }

  predicate FieldLess(f: Field, g: Field) { NameLess(f.key, g.key) }

  lemma NameLessAsymmetric(a: Text, b: Text)
    ensures !(NameLess(a, b) && NameLess(b, a))
    ensures a != b ==> NameLess(a, b) || NameLess(b, a)
  {
    LexTotal(Codes(a), Codes(b));
    if Codes(a) == Codes(b) {
      forall i | 0 <= i < |a| ensures |a| == |b| && a[i] == b[i] {
        assert Codes(a)[i] == Codes(b)[i];
      }
    }
  }

  lemma FieldOrder()
    ensures StrictWeakOrder(FieldLess)
  {
    forall x: Field, y: Field ensures !(FieldLess(x, y) && FieldLess(y, x)) {
      NameLessAsymmetric(x.key, y.key);
    }
    forall x: Field, y: Field, z: Field | !FieldLess(y, x) && !FieldLess(z, y) ensures !FieldLess(z, x) {
      NameLessAsymmetric(x.key, y.key);
      NameLessAsymmetric(y.key, z.key);
      if FieldLess(z, x) && x.key != y.key { LexTransitive(Codes(z.key), Codes(x.key), Codes(y.key)); }
    }
  }

  /** The array index a property key stands for (section 6.1.7 of ECMA-262), if any. */
  function ArrayIndex(key: Text): Option<nat> {
    if key != [] && (forall i :: 0 <= i < |key| ==> IsDigit(key[i])) && (key[0] != 48 || |key| == 1)
       && DecimalValue(key) < 0xFFFF_FFFF
    then Some(DecimalValue(key)) else None
  }

  /** Exactly the decimal numerals below 2^32 - 1 are array indexes. */
  lemma ArrayIndexIff(key: Text, n: nat)
    ensures ArrayIndex(key) == Some(n) <==> key == Digits(n) && n < 4_294_967_295
  {
    DigitsReadBack(n);
    if ArrayIndex(key) == Some(n) { DigitsOfValue(key); }
  }

  /** Own properties list array indexes in ascending order before all other keys. */
  predicate MovesBefore(f: Field, g: Field) {
    ArrayIndex(f.key).Some? &&
      (ArrayIndex(g.key).None? || ArrayIndex(f.key).value < ArrayIndex(g.key).value)
  }

  lemma RuntimeOrder()
    ensures StrictWeakOrder(MovesBefore)
  {
  }

  function SortFields(fields: seq<Field>): (sorted: seq<Field>)
    ensures multiset(sorted) == multiset(fields) && Sorted(FieldLess, sorted)
    ensures |sorted| == |fields| && forall f :: f in sorted <==> f in fields
  {
    FieldOrder();
    SortBySorts(FieldLess, fields);
    SameMembers(SortBy(FieldLess, fields), fields);
    SortBy(FieldLess, fields)
  }

  // -------------------------------------------------------------------------
  // Arrangements of a value
  // -------------------------------------------------------------------------

  /** Every object's fields sorted by key and then, in the one-shot form, moved by the runtime. */
  function Arrange(v: Value, runtime: bool): Value
    decreases v
  {
    match v
    case Arr(items) => Arr(ArrangeItems(items, runtime))
    case Obj(fields) =>
      var each := ArrangeFields(v, SortFields(fields), runtime);
      Obj(if runtime then SortBy(MovesBefore, each) else each)
    case _ => v
  }

  function ArrangeItems(items: seq<Value>, runtime: bool): (r: seq<Value>)
    ensures |r| == |items|
    decreases items
  {
    if items == [] then [] else [Arrange(items[0], runtime)] + ArrangeItems(items[1..], runtime)
  }

  function ArrangeFields(v: Value, fields: seq<Field>, runtime: bool): (r: seq<Field>)
    requires v.Obj? && forall f :: f in fields ==> f in v.fields
    ensures |r| == |fields| && forall i :: 0 <= i < |r| ==> r[i].key == fields[i].key
    decreases v, |fields|
  {
    if fields == [] then []
    else
      assert fields[0] in v.fields;
      [Field(fields[0].key, Arrange(fields[0].value, runtime))] + ArrangeFields(v, fields[1..], runtime)
  }

  lemma {:induction false} ArrangeItemsAt(items: seq<Value>, runtime: bool, i: nat)
    requires i < |items|
    ensures ArrangeItems(items, runtime)[i] == Arrange(items[i], runtime)
    decreases i
  {
    if i > 0 { ArrangeItemsAt(items[1..], runtime, i - 1); }
  }

  lemma {:induction false} ArrangeFieldsAt(v: Value, fields: seq<Field>, runtime: bool, i: nat)
    requires v.Obj? && (forall f :: f in fields ==> f in v.fields) && i < |fields|
    ensures ArrangeFields(v, fields, runtime)[i] == Field(fields[i].key, Arrange(fields[i].value, runtime))
    decreases i
  {
    if i > 0 { ArrangeFieldsAt(v, fields[1..], runtime, i - 1); }
  }

  /** An object holds each key once. */
  predicate Keyed(fields: seq<Field>) {
    forall i, j :: 0 <= i < j < |fields| ==> fields[i].key != fields[j].key
  }

  predicate WellFormed(v: Value)
    decreases v
  {
    match v
    case Arr(items) => forall i :: 0 <= i < |items| ==> WellFormed(items[i])
    case Obj(fields) => Keyed(fields) && forall i :: 0 <= i < |fields| ==> WellFormed(fields[i].value)
    case _ => true
  }

  /** Containers nest at most 64 deep below the root and every number is a safe integer. */
  predicate Encodable(v: Value, depth: nat)
    decreases v
  {
    match v
    case Num(n) => -MAX_SAFE <= n <= MAX_SAFE
    case Arr(items) => depth <= MAX_DEPTH && forall i :: 0 <= i < |items| ==> Encodable(items[i], depth + 1)
    case Obj(fields) => depth <= MAX_DEPTH && forall i :: 0 <= i < |fields| ==> Encodable(fields[i].value, depth + 1)
    case _ => true
  }

  // ---- One-shot -------------------------------------------------------------

  function Normalize(v: Value, depth: nat): Option<Value>
    decreases v
  {
    match v
    case Num(n) => if -MAX_SAFE <= n <= MAX_SAFE then Some(v) else None
    case Arr(items) =>
      if depth > MAX_DEPTH then None
      else
        (match NormalizeItems(items, depth + 1)
         case None => None
         case Some(r) => Some(Arr(r)))
    case Obj(fields) =>
      if depth > MAX_DEPTH then None
      else
        (match NormalizeFields(v, SortFields(fields), depth + 1)
         case None => None
         case Some(r) => Some(Obj(SortBy(MovesBefore, r))))
    case _ => Some(v)
  }

  function NormalizeItems(items: seq<Value>, depth: nat): Option<seq<Value>>
    decreases items
  {
    if items == [] then Some([])
    else
      var first, rest := Normalize(items[0], depth), NormalizeItems(items[1..], depth);
      if first.None? || rest.None? then None else Some([first.value] + rest.value)
  }

  function NormalizeFields(v: Value, fields: seq<Field>, depth: nat): Option<seq<Field>>
    requires v.Obj? && forall f :: f in fields ==> f in v.fields
    decreases v, |fields|
  {
    if fields == [] then Some([])
    else
      assert fields[0] in v.fields;
      var first, rest := Normalize(fields[0].value, depth), NormalizeFields(v, fields[1..], depth);
      if first.None? || rest.None? then None else Some([Field(fields[0].key, first.value)] + rest.value)
  }

  /** `canonicalJson`: None is a thrown error. */
  function CanonicalText1(v: Value): Option<Text> {
    match Normalize(v, 0)
    case None => None
    case Some(n) => Some(Encode(n))
  }

  lemma {:induction false} NormalizeIs(v: Value, depth: nat)
    ensures Normalize(v, depth) == if Encodable(v, depth) then Some(Arrange(v, true)) else None
    decreases v
  {
    match v
    case Arr(items) =>
      if depth <= MAX_DEPTH {
        NormalizeItemsIs(items, depth + 1);
        NormalizeArray(v, depth);
      }
    case Obj(fields) =>
      if depth <= MAX_DEPTH {
        NormalizeFieldsIs(v, SortFields(fields), depth + 1);
        NormalizeObject(v, depth);
      }
    case _ =>
  }

  ghost predicate ItemsEncodable(items: seq<Value>, depth: nat) {
    forall i :: 0 <= i < |items| ==> Encodable(items[i], depth)
  }

  lemma NormalizeArray(v: Value, depth: nat)
    requires v.Arr? && depth <= MAX_DEPTH
    requires NormalizeItems(v.items, depth + 1) ==
      if ItemsEncodable(v.items, depth + 1) then Some(ArrangeItems(v.items, true)) else None
    ensures Normalize(v, depth) == if Encodable(v, depth) then Some(Arrange(v, true)) else None
  {
  }

  ghost predicate AllEncodable(fields: seq<Field>, depth: nat) {
    forall f :: f in fields ==> Encodable(f.value, depth)
  }

  lemma NormalizeObject(v: Value, depth: nat)
    requires v.Obj? && depth <= MAX_DEPTH
    requires NormalizeFields(v, SortFields(v.fields), depth + 1) ==
      if AllEncodable(SortFields(v.fields), depth + 1) then Some(ArrangeFields(v, SortFields(v.fields), true)) else None
    ensures Normalize(v, depth) == if Encodable(v, depth) then Some(Arrange(v, true)) else None
  {
    EncodableSorted(v, depth);
  }

  lemma EncodableSorted(v: Value, depth: nat)
    requires v.Obj? && depth <= MAX_DEPTH
    ensures Encodable(v, depth) <==> AllEncodable(SortFields(v.fields), depth + 1)
  {
    assert forall i :: 0 <= i < |v.fields| ==> v.fields[i] in SortFields(v.fields);
  }

  lemma {:induction false} NormalizeItemsIs(items: seq<Value>, depth: nat)
    ensures NormalizeItems(items, depth) ==
      if ItemsEncodable(items, depth) then Some(ArrangeItems(items, true)) else None
    decreases items
  {
    if items != [] {
      NormalizeIs(items[0], depth);
      NormalizeItemsIs(items[1..], depth);
      assert forall i :: 1 <= i < |items| ==> items[i] == items[1..][i - 1];
    }
  }

  lemma {:induction false} NormalizeFieldsIs(v: Value, fields: seq<Field>, depth: nat)
    requires v.Obj? && forall f :: f in fields ==> f in v.fields
    ensures NormalizeFields(v, fields, depth) ==
      if AllEncodable(fields, depth) then Some(ArrangeFields(v, fields, true)) else None
    decreases v, |fields|
  {
    if fields != [] {
      assert fields[0] in v.fields;
      NormalizeIs(fields[0].value, depth);
      NormalizeFieldsIs(v, fields[1..], depth);
      assert fields == [fields[0]] + fields[1..];
    }
  }

  /** How many containers are nested in one another. */
  function Depth(v: Value): nat
    decreases v
  {
    match v
    case Arr(items) => 1 + Deepest(items)
    case Obj(fields) => 1 + DeepestField(fields)
    case _ => 0
  }

  function Deepest(items: seq<Value>): nat
    decreases items
  {
    if items == [] then 0
    else var first, rest := Depth(items[0]), Deepest(items[1..]); if first > rest then first else rest
  }

  function DeepestField(fields: seq<Field>): nat
    decreases fields
  {
    if fields == [] then 0
    else var first, rest := Depth(fields[0].value), DeepestField(fields[1..]); if first > rest then first else rest
  }

  lemma {:induction false} DeepestIs(items: seq<Value>, bound: nat)
    ensures Deepest(items) <= bound <==> forall i :: 0 <= i < |items| ==> Depth(items[i]) <= bound
    decreases |items|
  {
    if items != [] {
      DeepestIs(items[1..], bound);
      assert forall i :: 1 <= i < |items| ==> items[i] == items[1..][i - 1];
    }
  }

  lemma {:induction false} DeepestFieldIs(fields: seq<Field>, bound: nat)
    ensures DeepestField(fields) <= bound <==> forall i :: 0 <= i < |fields| ==> Depth(fields[i].value) <= bound
    decreases |fields|
  {
    if fields != [] {
      DeepestFieldIs(fields[1..], bound);
      assert forall i :: 1 <= i < |fields| ==> fields[i] == fields[1..][i - 1];
    }
  }

  predicate SafeNumbers(v: Value)
    decreases v
  {
    match v
    case Num(n) => -9_007_199_254_740_991 <= n <= 9_007_199_254_740_991
    case Arr(items) => forall i :: 0 <= i < |items| ==> SafeNumbers(items[i])
    case Obj(fields) => forall i :: 0 <= i < |fields| ==> SafeNumbers(fields[i].value)
    case _ => true
  }

  lemma {:induction false} EncodableIs(v: Value, depth: nat)
    requires depth <= 65
    ensures Encodable(v, depth) <==> SafeNumbers(v) && depth + Depth(v) <= 65
    decreases v
  {
    match v
    case Arr(items) =>
      if depth < 65 {
        forall i | 0 <= i < |items|
          ensures Encodable(items[i], depth + 1) <==> SafeNumbers(items[i]) && Depth(items[i]) <= 64 - depth
        {
          EncodableIs(items[i], depth + 1);
        }
        DeepestIs(items, 64 - depth);
      }
    case Obj(fields) =>
      if depth < 65 {
        forall i | 0 <= i < |fields|
          ensures Encodable(fields[i].value, depth + 1) <==>
                  SafeNumbers(fields[i].value) && Depth(fields[i].value) <= 64 - depth
        {
          EncodableIs(fields[i].value, depth + 1);
        }
        DeepestFieldIs(fields, 64 - depth);
      }
    case _ =>
  }

  /** Main result: exactly the values of safe integers that nest at most 65 containers have a canonical text. */
  lemma CanonicalIff(v: Value)
    ensures CanonicalText1(v).Some? <==> SafeNumbers(v) && Depth(v) <= 65
    ensures CanonicalText1(v).Some? ==> Parse(CanonicalText1(v).value) == Some(Arrange(v, true))
  {
    NormalizeIs(v, 0);
    EncodableIs(v, 0);
    ParseEncode(Arrange(v, true));
  }

  // -------------------------------------------------------------------------
  // When the two forms agree
  // -------------------------------------------------------------------------

  /** No key that sorts later is moved in front of one that sorts earlier. */
  ghost predicate KeysAgree(fields: seq<Field>) {
    forall f, g :: f in fields && g in fields && FieldLess(f, g) ==> !MovesBefore(g, f)
  }

  ghost predicate OrderSafe(v: Value)
    decreases v
  {
    match v
    case Arr(items) => forall i :: 0 <= i < |items| ==> OrderSafe(items[i])
    case Obj(fields) => KeysAgree(fields) && forall i :: 0 <= i < |fields| ==> OrderSafe(fields[i].value)
    case _ => true
  }

  lemma KeyedSort(fields: seq<Field>)
    requires Keyed(fields)
    ensures Keyed(SortFields(fields))
    ensures forall i, j :: 0 <= i < j < |fields| ==> FieldLess(SortFields(fields)[i], SortFields(fields)[j])
  {
    var s := SortFields(fields);
    SameMembers(s, fields);
    KeyedPermutes(fields, s);
    forall i, j | 0 <= i < j < |fields| ensures FieldLess(s[i], s[j]) {
      NameLessAsymmetric(s[i].key, s[j].key);
    }
  }

  lemma {:induction false} KeyedOnce(fields: seq<Field>, f: Field)
    requires Keyed(fields)
    ensures multiset(fields)[f] <= 1
    decreases |fields|
  {
    if fields != [] {
      var init, last := fields[..|fields| - 1], fields[|fields| - 1];
      KeyedOnce(init, f);
      assert fields == init + [last];
      assert f == last ==> f !in init;
    }
  }

  lemma KeyedPermutes(s: seq<Field>, t: seq<Field>)
    requires Keyed(s) && multiset(s) == multiset(t)
    ensures Keyed(t)
  {
    SameMembers(s, t);
    forall i, j | 0 <= i < j < |t| ensures t[i].key != t[j].key {
      KeyedOnce(s, t[i]);
      CountedTwice(t, i, j);
      assert t[i] in s && t[j] in s;
      var k :| 0 <= k < |s| && s[k] == t[i];
      var l :| 0 <= l < |s| && s[l] == t[j];
    }
  }

  /** The streamed form lists the keys of an object in strictly ascending order of code units. */
  lemma StreamedKeysAscend(v: Value, i: nat, j: nat)
    requires v.Obj? && Keyed(v.fields) && i < j < |v.fields|
    ensures var fields := Arrange(v, false).fields;
      |fields| == |v.fields| && FirstSmaller(Codes(fields[i].key), Codes(fields[j].key))
  {
    KeyedSort(v.fields);
    var s := SortFields(v.fields);
    LexLessIs(Codes(s[i].key), Codes(s[j].key));
  }

  /** Rearranging fields without moving any key moves nothing. */
  lemma SameKeysSameFields(s: seq<Field>, t: seq<Field>)
    requires Keyed(s) && multiset(s) == multiset(t) && |s| == |t| && forall i :: 0 <= i < |s| ==> s[i].key == t[i].key
    ensures s == t
  {
    SameMembers(s, t);
    forall i | 0 <= i < |s| ensures s[i] == t[i] {
      assert t[i] in s;
      var k :| 0 <= k < |s| && s[k] == t[i];
    }
  }

  lemma StrictPosition(s: seq<Field>, i: nat, j: nat)
    requires i < |s| && j < |s| && FieldLess(s[i], s[j])
    requires forall k, l :: 0 <= k < l < |s| ==> FieldLess(s[k], s[l])
    ensures i < j
  {
    NameLessAsymmetric(s[i].key, s[j].key);
  }

  lemma AgreeIsSorted(fields: seq<Field>, each: seq<Field>)
    requires Keyed(fields) && |each| == |fields|
    requires forall i :: 0 <= i < |each| ==> each[i].key == SortFields(fields)[i].key
    ensures KeysAgree(fields) <==> Sorted(MovesBefore, each)
  {
    var s := SortFields(fields);
    KeyedSort(fields);
    SameMembers(s, fields);
    if KeysAgree(fields) {
      forall i, j | 0 <= i < j < |each| ensures !MovesBefore(each[j], each[i]) {
        assert s[i] in fields && s[j] in fields && FieldLess(s[i], s[j]);
        assert MovesBefore(each[j], each[i]) == MovesBefore(s[j], s[i]);
      }
    }
    if Sorted(MovesBefore, each) {
      forall f, g | f in fields && g in fields && FieldLess(f, g) ensures !MovesBefore(g, f) {
        var i :| 0 <= i < |s| && s[i] == f;
        var j :| 0 <= j < |s| && s[j] == g;
        StrictPosition(s, i, j);
        assert MovesBefore(each[j], each[i]) == MovesBefore(g, f);
      }
    }
  }

  lemma {:induction false} ArrangedAlike(v: Value)
    requires WellFormed(v)
    ensures Arrange(v, false) == Arrange(v, true) <==> OrderSafe(v)
    decreases v
  {
    match v
    case Arr(items) =>
      forall i | 0 <= i < |items|
        ensures ArrangeItems(items, false)[i] == ArrangeItems(items, true)[i] <==> OrderSafe(items[i])
      {
        ArrangedAlike(items[i]);
        ArrangeItemsAt(items, false, i);
        ArrangeItemsAt(items, true, i);
      }
    case Obj(fields) => FieldsArrangedAlike(v);
    case _ =>
  }

  lemma {:induction false} FieldsArrangedAlike(v: Value)
    requires WellFormed(v) && v.Obj?
    ensures Arrange(v, false) == Arrange(v, true) <==> OrderSafe(v)
    decreases v, 0
  {
    var s := SortFields(v.fields);
    forall i | 0 <= i < |s|
      ensures ArrangeFields(v, s, false)[i] == ArrangeFields(v, s, true)[i] <==> OrderSafe(s[i].value)
    {
      assert s[i] in v.fields;
      ArrangedAlike(s[i].value);
      ArrangeFieldsAt(v, s, false, i);
      ArrangeFieldsAt(v, s, true, i);
    }
    AlikeByFields(v, s, ArrangeFields(v, s, false), ArrangeFields(v, s, true));
  }

  lemma AlikeByFields(v: Value, s: seq<Field>, plain: seq<Field>, moved: seq<Field>)
    requires v.Obj? && Keyed(v.fields) && s == SortFields(v.fields)
    requires plain == ArrangeFields(v, s, false) && moved == ArrangeFields(v, s, true)
    requires forall i :: 0 <= i < |s| ==> (plain[i] == moved[i] <==> OrderSafe(s[i].value))
    ensures Arrange(v, false) == Arrange(v, true) <==> OrderSafe(v)
  {
    AlikeWhenUnmoved(v, s, plain, moved);
    SafeWhenUnmoved(v, s, plain, moved);
  }

  lemma AlikeWhenUnmoved(v: Value, s: seq<Field>, plain: seq<Field>, moved: seq<Field>)
    requires v.Obj? && Keyed(v.fields) && s == SortFields(v.fields)
    requires plain == ArrangeFields(v, s, false) && moved == ArrangeFields(v, s, true)
    ensures Arrange(v, false) == Arrange(v, true) <==> plain == moved && Sorted(MovesBefore, moved)
  {
    ArrangedObject(v, s);
    MovedAlike(v.fields, plain, moved);
  }

  lemma SafeWhenUnmoved(v: Value, s: seq<Field>, plain: seq<Field>, moved: seq<Field>)
    requires v.Obj? && Keyed(v.fields) && s == SortFields(v.fields) && |plain| == |moved| == |s|
    requires forall i :: 0 <= i < |s| ==> moved[i].key == s[i].key && (plain[i] == moved[i] <==> OrderSafe(s[i].value))
    ensures OrderSafe(v) <==> plain == moved && Sorted(MovesBefore, moved)
  {
    SafeBySorted(v, s);
    PointwiseAlike(s, plain, moved);
    AgreeIsSorted(v.fields, moved);
  }

  lemma ArrangedObject(v: Value, s: seq<Field>)
    requires v.Obj? && s == SortFields(v.fields)
    ensures Arrange(v, false) == Obj(ArrangeFields(v, s, false))
    ensures Arrange(v, true) == Obj(SortBy(MovesBefore, ArrangeFields(v, s, true)))
  {
  }

  ghost predicate AllSafe(fields: seq<Field>) {
    forall i :: 0 <= i < |fields| ==> OrderSafe(fields[i].value)
  }

  lemma PointwiseAlike(s: seq<Field>, plain: seq<Field>, moved: seq<Field>)
    requires |s| == |plain| == |moved|
    requires forall i :: 0 <= i < |s| ==> (plain[i] == moved[i] <==> OrderSafe(s[i].value))
    ensures plain == moved <==> AllSafe(s)
  {
  }

  lemma SafeBySorted(v: Value, s: seq<Field>)
    requires v.Obj? && s == SortFields(v.fields)
    ensures OrderSafe(v) <==> KeysAgree(v.fields) && AllSafe(s)
  {
    assert forall i :: 0 <= i < |s| ==> s[i] in v.fields;
    assert forall i :: 0 <= i < |v.fields| ==> v.fields[i] in s;
  }

  lemma MovedAlike(fields: seq<Field>, plain: seq<Field>, moved: seq<Field>)
    requires Keyed(fields) && |plain| == |moved| == |fields|
    requires forall i :: 0 <= i < |fields| ==> plain[i].key == moved[i].key == SortFields(fields)[i].key
    ensures plain == SortBy(MovesBefore, moved) <==> plain == moved && Sorted(MovesBefore, moved)
  {
    var r := SortBy(MovesBefore, moved);
    RuntimeOrder();
    SortBySorts(MovesBefore, moved);
    KeyedSort(fields);
    SameMembers(SortFields(fields), fields);
    assert Keyed(moved);
    if plain == r { SameKeysSameFields(moved, r); }
    if Sorted(MovesBefore, moved) { SortedStays(MovesBefore, moved); }
  }

  /** Main result: the streamed text equals the one-shot text exactly when no object has keys the runtime moves. */
  lemma StreamingMatches(v: Value)
    requires WellFormed(v) && Encodable(v, 0)
    ensures CanonicalText1(v) == Some(Encode(Arrange(v, false))) <==> OrderSafe(v)
  {
    NormalizeIs(v, 0);
    ArrangedAlike(v);
    if Encode(Arrange(v, true)) == Encode(Arrange(v, false)) { EncodeInjective(Arrange(v, true), Arrange(v, false)); }
  }

  predicate NoIndexKeys(v: Value)
    decreases v
  {
    match v
    case Arr(items) => forall i :: 0 <= i < |items| ==> NoIndexKeys(items[i])
    case Obj(fields) => forall i :: 0 <= i < |fields| ==>
      ArrayIndex(fields[i].key).None? && NoIndexKeys(fields[i].value)
    case _ => true
  }

  /** In particular, a value without array-index keys streams to its one-shot text. */
  lemma {:induction false} NoIndexKeysSafe(v: Value)
    requires NoIndexKeys(v)
    ensures OrderSafe(v)
    decreases v
  {
    match v
    case Arr(items) =>
      forall i | 0 <= i < |items| ensures OrderSafe(items[i]) { NoIndexKeysSafe(items[i]); }
    case Obj(fields) =>
      forall i | 0 <= i < |fields| ensures OrderSafe(fields[i].value) { NoIndexKeysSafe(fields[i].value); }
    case _ =>
  }

  /** The keys "10" and "9": sorted that way by code unit, listed the other way by the runtime. */
  lemma IndexKeysDiffer()
    ensures var v := Obj([Field([49, 48], Null), Field([57], Null)]);
      WellFormed(v) && Encodable(v, 0) && CanonicalText1(v) != Some(Encode(Arrange(v, false)))
  {
    var ten, nine := Field([49, 48], Null), Field([57], Null);
    var v := Obj([ten, nine]);
    assert DecimalValue([49, 48][..1]) == 1 && DecimalValue([49, 48]) == 10 && DecimalValue([57]) == 9;
    assert FieldLess(ten, nine) && MovesBefore(nine, ten) && ten in v.fields && nine in v.fields;
    StreamingMatches(v);
  }

  // -------------------------------------------------------------------------
  // Equal texts mean equal values up to key order
  // -------------------------------------------------------------------------

  ghost predicate Same(v: Value, w: Value)
    decreases v
  {
    match v
    case Arr(items) => w.Arr? && |items| == |w.items| && forall i :: 0 <= i < |items| ==> Same(items[i], w.items[i])
    case Obj(fields) =>
      && w.Obj?
      && (forall i :: 0 <= i < |fields| ==> SameIn(fields[i], w.fields))
      && (forall j :: 0 <= j < |w.fields| ==> SameOf(fields, w.fields[j]))
    case _ => v == w
  }

  ghost predicate SameIn(f: Field, fields: seq<Field>)
    decreases f
  {
    exists j :: 0 <= j < |fields| && f.key == fields[j].key && Same(f.value, fields[j].value)
  }

  ghost predicate SameOf(fields: seq<Field>, g: Field)
    decreases fields
  {
    exists i :: 0 <= i < |fields| && fields[i].key == g.key && Same(fields[i].value, g.value)
  }

  function Arranged(f: Field): Field { Field(f.key, Arrange(f.value, true)) }

  ghost predicate ArrangedFrom(g: Field, fields: seq<Field>) {
    exists i :: 0 <= i < |fields| && g == Arranged(fields[i])
  }

  /** The arranged fields of an object, in key order. */
  function Each(v: Value): (each: seq<Field>)
    requires v.Obj?
    ensures |each| == |v.fields| && forall i :: 0 <= i < |each| ==> each[i].key == SortFields(v.fields)[i].key
  {
    ArrangeFields(v, SortFields(v.fields), true)
  }

  lemma EachAt(v: Value, k: nat)
    requires v.Obj? && k < |v.fields|
    ensures Each(v)[k] == Arranged(SortFields(v.fields)[k])
  {
    ArrangeFieldsAt(v, SortFields(v.fields), true, k);
  }

  lemma EachHolds(v: Value, g: Field)
    requires v.Obj? && ArrangedFrom(g, v.fields)
    ensures g in Each(v)
  {
    var s := SortFields(v.fields);
    var i :| 0 <= i < |v.fields| && g == Arranged(v.fields[i]);
    assert v.fields[i] in s;
    var k :| 0 <= k < |s| && s[k] == v.fields[i];
    EachAt(v, k);
  }

  lemma EachOnlyHolds(v: Value, g: Field)
    requires v.Obj? && g in Each(v)
    ensures ArrangedFrom(g, v.fields)
  {
    var s := SortFields(v.fields);
    var k :| 0 <= k < |v.fields| && Each(v)[k] == g;
    EachAt(v, k);
    assert s[k] in v.fields;
    var i :| 0 <= i < |v.fields| && v.fields[i] == s[k];
  }

  lemma MovedMembers(v: Value)
    requires v.Obj?
    ensures forall g :: g in Arrange(v, true).fields <==> g in Each(v)
  {
    RuntimeOrder();
    SortBySorts(MovesBefore, Each(v));
    SameMembers(SortBy(MovesBefore, Each(v)), Each(v));
  }

  /** Fields arranged from a keyed object depend only on which arranged fields there are. */
  lemma SameFieldsSameOrder(a: seq<Field>, b: seq<Field>)
    requires Keyed(a) && Keyed(b) && Sorted(FieldLess, a) && Sorted(FieldLess, b)
    requires forall f :: f in a <==> f in b
    ensures a == b
  {
    forall f ensures multiset(a)[f] == multiset(b)[f] {
      KeyedOnce(a, f);
      KeyedOnce(b, f);
      assert f in a <==> f in multiset(a);
      assert f in b <==> f in multiset(b);
    }
    assert multiset(a) == multiset(b);
    forall i, j | 0 <= i < |a| && 0 <= j < |a| && a[i] != a[j] ensures FieldLess(a[i], a[j]) || FieldLess(a[j], a[i]) {
      NameLessAsymmetric(a[i].key, a[j].key);
      assert i != j;
      assert a[i].key != a[j].key;
    }
    SortedIsUnique(FieldLess, a, b);
  }

  lemma EachSorted(v: Value)
    requires v.Obj? && Keyed(v.fields)
    ensures Keyed(Each(v)) && Sorted(FieldLess, Each(v))
  {
    var s, each := SortFields(v.fields), Each(v);
    KeyedSort(v.fields);
    forall i, j | 0 <= i < j < |each| ensures each[i].key != each[j].key && !FieldLess(each[j], each[i]) {
      assert s[i].key != s[j].key && !FieldLess(s[j], s[i]);
    }
  }

  lemma {:induction false} SameIsArrangedAlike(v: Value, w: Value)
    requires WellFormed(v) && WellFormed(w)
    ensures Same(v, w) <==> Arrange(v, true) == Arrange(w, true)
    decreases v
  {
    match v
    case Arr(items) =>
      if w.Arr? && |items| == |w.items| {
        forall i | 0 <= i < |items|
          ensures Same(items[i], w.items[i]) <==> ArrangeItems(items, true)[i] == ArrangeItems(w.items, true)[i]
        {
          SameIsArrangedAlike(items[i], w.items[i]);
          ArrangeItemsAt(items, true, i);
          ArrangeItemsAt(w.items, true, i);
        }
      }
    case Obj(fields) =>
      if w.Obj? {
        forall i, j | 0 <= i < |fields| && 0 <= j < |w.fields|
          ensures fields[i].key == w.fields[j].key && Same(fields[i].value, w.fields[j].value) <==>
                  Arranged(fields[i]) == Arranged(w.fields[j])
        {
          SameIsArrangedAlike(fields[i].value, w.fields[j].value);
        }
        SameObjects(v, w);
      }
    case _ =>
  }

  ghost predicate MatchedInto(a: seq<Field>, b: seq<Field>) {
    forall i :: 0 <= i < |a| ==> ArrangedFrom(Arranged(a[i]), b)
  }

  /** Whether two fields are the same is whether they arrange to the same field. */
  ghost predicate Decided(a: seq<Field>, b: seq<Field>) {
    forall i, j :: 0 <= i < |a| && 0 <= j < |b| ==>
      (a[i].key == b[j].key && Same(a[i].value, b[j].value) <==> Arranged(a[i]) == Arranged(b[j]))
  }

  lemma SameInIs(a: seq<Field>, b: seq<Field>, i: nat)
    requires Decided(a, b) && i < |a|
    ensures SameIn(a[i], b) <==> ArrangedFrom(Arranged(a[i]), b)
  {
    if SameIn(a[i], b) {
      var j :| 0 <= j < |b| && a[i].key == b[j].key && Same(a[i].value, b[j].value);
      assert Arranged(a[i]) == Arranged(b[j]);
    }
    if ArrangedFrom(Arranged(a[i]), b) {
      var j :| 0 <= j < |b| && Arranged(a[i]) == Arranged(b[j]);
      assert a[i].key == b[j].key && Same(a[i].value, b[j].value);
    }
  }

  lemma SameOfIs(a: seq<Field>, b: seq<Field>, j: nat)
    requires Decided(a, b) && j < |b|
    ensures SameOf(a, b[j]) <==> ArrangedFrom(Arranged(b[j]), a)
  {
    if SameOf(a, b[j]) {
      var i :| 0 <= i < |a| && a[i].key == b[j].key && Same(a[i].value, b[j].value);
      assert Arranged(a[i]) == Arranged(b[j]);
    }
    if ArrangedFrom(Arranged(b[j]), a) {
      var i :| 0 <= i < |a| && Arranged(b[j]) == Arranged(a[i]);
      assert a[i].key == b[j].key && Same(a[i].value, b[j].value);
    }
  }

  lemma SameIsMatched(v: Value, w: Value)
    requires v.Obj? && w.Obj? && Decided(v.fields, w.fields)
    ensures Same(v, w) <==> MatchedInto(v.fields, w.fields) && MatchedInto(w.fields, v.fields)
  {
    var a, b := v.fields, w.fields;
    forall i | 0 <= i < |a| ensures SameIn(a[i], b) <==> ArrangedFrom(Arranged(a[i]), b) { SameInIs(a, b, i); }
    forall j | 0 <= j < |b| ensures SameOf(a, b[j]) <==> ArrangedFrom(Arranged(b[j]), a) { SameOfIs(a, b, j); }
  }

  lemma SameObjects(v: Value, w: Value)
    requires v.Obj? && w.Obj? && Keyed(v.fields) && Keyed(w.fields) && Decided(v.fields, w.fields)
    ensures Same(v, w) <==> Arrange(v, true) == Arrange(w, true)
  {
    SameIsMatched(v, w);
    if Same(v, w) { MatchedArrange(v, w); }
    if Arrange(v, true) == Arrange(w, true) {
      ArrangedMatch(v, w);
    }
  }

  lemma EachInto(v: Value, w: Value, g: Field)
    requires v.Obj? && w.Obj? && MatchedInto(v.fields, w.fields) && g in Each(v)
    ensures g in Each(w)
  {
    EachOnlyHolds(v, g);
    var i :| 0 <= i < |v.fields| && g == Arranged(v.fields[i]);
    assert ArrangedFrom(Arranged(v.fields[i]), w.fields);
    EachHolds(w, g);
  }

  lemma MatchedArrange(v: Value, w: Value)
    requires v.Obj? && w.Obj? && Keyed(v.fields) && Keyed(w.fields)
    requires MatchedInto(v.fields, w.fields) && MatchedInto(w.fields, v.fields)
    ensures Arrange(v, true) == Arrange(w, true)
  {
    EachSorted(v);
    EachSorted(w);
    forall g ensures g in Each(v) <==> g in Each(w) {
      if g in Each(v) { EachInto(v, w, g); }
      if g in Each(w) { EachInto(w, v, g); }
    }
    SameFieldsSameOrder(Each(v), Each(w));
  }

  /** A field of one object is found, arranged, among the fields of the other. */
  lemma FoundIn(v: Value, w: Value, i: nat)
    requires v.Obj? && w.Obj? && Arrange(v, true) == Arrange(w, true) && i < |v.fields|
    ensures ArrangedFrom(Arranged(v.fields[i]), w.fields)
  {
    EachHolds(v, Arranged(v.fields[i]));
    MovedMembers(v);
    MovedMembers(w);
    EachOnlyHolds(w, Arranged(v.fields[i]));
  }

  lemma ArrangedMatch(v: Value, w: Value)
    requires v.Obj? && w.Obj? && Arrange(v, true) == Arrange(w, true)
    ensures MatchedInto(v.fields, w.fields) && MatchedInto(w.fields, v.fields)
  {
    forall i | 0 <= i < |v.fields| ensures ArrangedFrom(Arranged(v.fields[i]), w.fields) {
      FoundIn(v, w, i);
    }
    forall j | 0 <= j < |w.fields| ensures ArrangedFrom(Arranged(w.fields[j]), v.fields) {
      FoundIn(w, v, j);
    }
  }

  /** Main result: two encodable values have the same canonical text exactly when they are the same up to key order. */
  lemma CanonicalIsInjective(v: Value, w: Value)
    requires WellFormed(v) && WellFormed(w) && Encodable(v, 0) && Encodable(w, 0)
    ensures CanonicalText1(v) == CanonicalText1(w) <==> Same(v, w)
  {
    NormalizeIs(v, 0);
    NormalizeIs(w, 0);
    SameIsArrangedAlike(v, w);
    if CanonicalText1(v) == CanonicalText1(w) { EncodeInjective(Arrange(v, true), Arrange(w, true)); }
  }
}
