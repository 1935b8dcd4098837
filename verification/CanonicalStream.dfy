/**
 * The streaming emitter: fragments go to a digest one at a time, long strings
 * in chunks that never split a surrogate pair.
 */
module CanonicalStream {
  import opened Quorum
  import opened CanonicalText
  import opened CanonicalJson

  // -------------------------------------------------------------------------
  // UTF-8
  // -------------------------------------------------------------------------

  /** The bytes of one code point; a lone surrogate becomes the replacement character. */
  function TokenBytes(s: Text): seq<int> {
    if |s| == 2 then
      var p := 0x10000 + (s[0] as int - 0xD800) * 0x400 + (s[1] as int - 0xDC00);
      [0xF0 + p / 0x40000, 0x80 + p / 0x1000 % 64, 0x80 + p / 64 % 64, 0x80 + p % 64]
    else if |s| != 1 then []
    else
      var u := s[0] as int;
      if u < 0x80 then [u]
      else if u < 0x800 then [0xC0 + u / 64, 0x80 + u % 64]
      else if IsLead(s[0]) || IsTrail(s[0]) then [0xEF, 0xBF, 0xBD]
      else [0xE0 + u / 0x1000, 0x80 + u / 64 % 64, 0x80 + u % 64]
  }

  function Utf8(s: Text): seq<int> { Scan(s, TokenBytes) }

  /** A fragment that neither starts with a trail nor ends with a lead can be encoded on its own. */
  predicate Whole(s: Text) {
    s != [] ==> !IsTrail(s[0]) && !IsLead(s[|s| - 1])
  }

  lemma {:induction false} BodyIsWhole(s: Text)
    ensures Whole(Body(s))
    decreases |s|
  {
    if s != [] {
      FirstToken(s);
      var n := TokenLength(s);
      TokenIsWhole(s[..n]);
      BodyIsWhole(s[n..]);
    }
  }

  lemma TokenIsWhole(s: Text)
    requires IsToken(s)
    ensures Token(s) != [] && Whole(Token(s))
  {
  }

  // -------------------------------------------------------------------------
  // The digest sink
  // -------------------------------------------------------------------------

  /** These are the bytes of `written` and their number. */
  ghost predicate Digests(written: Text, hashed: seq<int>, byteLength: nat) {
    hashed == Utf8(written) && byteLength == |hashed|
  }

  /** Two appends are one append of the concatenation. */
  lemma Joined(before: Text, a: Text, mid: Text, b: Text, after: Text)
    requires mid == before + a && after == mid + b
    ensures after == before + (a + b)
  {
  }

  class DigestSink {
    var byteLength: nat
    var hashed: seq<int>
    ghost var written: Text

    ghost predicate Valid()
      reads this
    {
      Whole(written) && Digests(written, hashed, byteLength)
    }

    constructor ()
      ensures Valid() && written == []
    {
      byteLength, hashed, written := 0, [], [];
    }

    method Write(fragment: Text)
      requires Valid() && Whole(fragment)
      modifies this
      ensures Valid() && written == old(written) + fragment
    {
      ScanAppend(written, fragment, TokenBytes);
      byteLength := byteLength + |Utf8(fragment)|;
      hashed := hashed + Utf8(fragment);
      written := written + fragment;
    }
  }

  /** Where the chunk starting at `start` ends: one unit later when it would cut a surrogate pair. */
  function ChunkEnd(value: Text, start: nat): (end: nat)
    requires start < |value|
    ensures start < end <= |value|
    ensures CleanCut(value[..end], value[end..])
  {
    var end := if |value| < start + CHUNK then |value| else start + CHUNK;
    if end < |value| && IsLead(value[end - 1]) && IsTrail(value[end]) then end + 1 else end
  }

  lemma ChunkBody(value: Text, start: nat, end: nat)
    requires start < end <= |value| && CleanCut(value[..start], value[start..]) && CleanCut(value[..end], value[end..])
    ensures OpenBody(value[..end]) == OpenBody(value[..start]) + Body(value[start..end])
  {
    assert value[..end] == value[..start] + value[start..end];
    ScanAppend(value[..start], value[start..end], Token);
  }

  method WriteCanonicalString(value: Text, sink: DigestSink)
    requires sink.Valid()
    modifies sink
    ensures sink.Valid() && sink.written == old(sink.written) + Quote(value)
  {
    ghost var before := sink.written;
    sink.Write([QUOTE]);
    var start := 0;
    while start < |value|
      invariant 0 <= start <= |value| && CleanCut(value[..start], value[start..])
      invariant sink.Valid() && sink.written == before + OpenBody(value[..start])
    {
      var end := ChunkEnd(value, start);
      start := WriteChunk(value, start, end, before, sink);
    }
    assert value[..start] == value;
    ghost var mid := sink.written;
    sink.Write([QUOTE]);
    Joined(before, OpenBody(value), mid, [QUOTE], sink.written);
  }

  method WriteChunk(value: Text, start: nat, end: nat, ghost before: Text, sink: DigestSink) returns (next: nat)
    requires start < end <= |value| && CleanCut(value[..start], value[start..]) && CleanCut(value[..end], value[end..])
    requires sink.Valid() && sink.written == before + OpenBody(value[..start])
    modifies sink
    ensures next == end && sink.Valid() && sink.written == before + OpenBody(value[..end])
  {
    ChunkBody(value, start, end);
    var chunk := Body(value[start..end]);
    BodyIsWhole(value[start..end]);
    ghost var mid := sink.written;
    sink.Write(chunk);
    Joined(before, OpenBody(value[..start]), mid, chunk, sink.written);
    next := end;
  }

  ghost function OpenBody(s: Text): Text { [QUOTE] + Body(s) }

  // -------------------------------------------------------------------------
  // Emission
  // -------------------------------------------------------------------------

  /** The comma before all but the first element. */
  function Comma(i: nat): Text { if i == 0 then [] else [COMMA] }

  lemma ShiftComma(head: Text, comma: Text, rest: Text, x: Text)
    requires comma == [COMMA] || (comma == [] && rest == [])
    ensures head + ([COMMA] + (rest + comma + x)) == head + (comma + rest) + [COMMA] + x
  {
  }

  lemma {:induction false} ItemsSnoc(a: seq<Value>, x: Value)
    ensures Items(a + [x]) == Items(a) + Comma(|a|) + Encode(x)
    decreases a
  {
    if a == [] {
      assert a + [x] == [x];
    } else {
      ItemsSnoc(a[1..], x);
      ItemsHead(a);
      ItemsHead(a + [x]);
      assert (a + [x])[1..] == a[1..] + [x];
      ShiftComma(Encode(a[0]), Comma(|a| - 1), Items(a[1..]), Encode(x));
    }
  }

  lemma ItemsHead(a: seq<Value>)
    requires a != []
    ensures Items(a) == Encode(a[0]) + (Comma(|a| - 1) + Items(a[1..]))
  {
    if |a| == 1 { assert a[1..] == []; }
  }

  lemma {:induction false} FieldsSnoc(a: seq<Field>, f: Field)
    ensures Fields(a + [f]) == Fields(a) + Comma(|a|) + EncodeField(f)
    decreases a
  {
    if a == [] {
      assert a + [f] == [f];
    } else {
      FieldsSnoc(a[1..], f);
      FieldsHead(a);
      FieldsHead(a + [f]);
      assert (a + [f])[1..] == a[1..] + [f];
      ShiftComma(EncodeField(a[0]), Comma(|a| - 1), Fields(a[1..]), EncodeField(f));
    }
  }

  lemma FieldsHead(a: seq<Field>)
    requires a != []
    ensures Fields(a) == EncodeField(a[0]) + (Comma(|a| - 1) + Fields(a[1..]))
  {
    if |a| == 1 { assert a[1..] == []; }
  }

  function Literal(v: Value): Text
    requires v.Null? || v.Bool? || v.Num?
  {
    Encode(v)
  }

  lemma LiteralIsWhole(v: Value)
    requires v.Null? || v.Bool? || v.Num?
    ensures Whole(Literal(v))
  {
    if v.Num? {
      var d := if v.n < 0 then Digits(-v.n) else Digits(v.n);
      assert IsDigit(d[0]) && IsDigit(d[|d| - 1]);
    }
  }

  /** Writes a value's sorted form. False is a thrown error: nesting too deep or an unsafe number. */
  method EmitCanonicalJson(v: Value, depth: nat, sink: DigestSink) returns (ok: bool)
    requires sink.Valid()
    modifies sink
    ensures sink.Valid() && (ok <==> Encodable(v, depth))
    ensures ok ==> sink.written == old(sink.written) + Encode(Arrange(v, false))
    decreases v, 2
  {
    match v
    case Arr(items) =>
      if depth > MAX_DEPTH { return false; }
      ok := EmitItems(v, depth, sink);
    case Obj(fields) =>
      if depth > MAX_DEPTH { return false; }
      ok := EmitFields(v, depth, sink);
    case Num(n) =>
      if n < -MAX_SAFE || n > MAX_SAFE { return false; }
      LiteralIsWhole(v);
      sink.Write(Number(n));
      ok := true;
    case Str(s) =>
      WriteCanonicalString(s, sink);
      ok := true;
    case _ =>
      LiteralIsWhole(v);
      sink.Write(Literal(v));
      ok := true;
  }

  ghost function OpenItems(a: seq<Value>): Text { [OPEN_BRACKET] + Items(a) }

  ghost function OpenFields(a: seq<Field>): Text { [OPEN_BRACE] + Fields(a) }

  /** What one element adds to an array's text. */
  ghost function ItemText(value: Text, i: nat): Text { Comma(i) + value }

  lemma ItemsGrow(a: seq<Value>, i: nat)
    requires i < |a|
    ensures OpenItems(a[..i + 1]) == OpenItems(a[..i]) + ItemText(Encode(a[i]), i)
  {
    assert a[..i + 1] == a[..i] + [a[i]];
    ItemsSnoc(a[..i], a[i]);
  }

  lemma ItemsStep(items: seq<Value>, i: nat)
    requires i < |items|
    ensures var a := ArrangeItems(items, false);
      OpenItems(a[..i + 1]) == OpenItems(a[..i]) + ItemText(Encode(Arrange(items[i], false)), i)
  {
    ArrangeItemsAt(items, false, i);
    ItemsGrow(ArrangeItems(items, false), i);
  }

  /** Writes the comma before all but the first element. */
  method WriteComma(i: nat, sink: DigestSink)
    requires sink.Valid()
    modifies sink
    ensures sink.Valid() && sink.written == old(sink.written) + Comma(i)
  {
    if i > 0 {
      sink.Write([COMMA]);
    } else {
      assert sink.written + [] == sink.written;
    }
  }

  method EmitItem(v: Value, i: nat, depth: nat, ghost before: Text, sink: DigestSink) returns (ok: bool)
    requires sink.Valid() && v.Arr? && i < |v.items|
    requires sink.written == before + OpenItems(ArrangeItems(v.items, false)[..i])
    modifies sink
    ensures sink.Valid() && (ok <==> Encodable(v.items[i], depth))
    ensures ok ==> sink.written == before + OpenItems(ArrangeItems(v.items, false)[..i + 1])
    decreases v, 0
  {
    ghost var start, text := sink.written, Encode(Arrange(v.items[i], false));
    WriteComma(i, sink);
    ghost var mid := sink.written;
    ok := EmitCanonicalJson(v.items[i], depth, sink);
    if ok {
      Joined(start, Comma(i), mid, text, sink.written);
      ItemsStep(v.items, i);
      Joined(before, OpenItems(ArrangeItems(v.items, false)[..i]), start, ItemText(text, i), sink.written);
    }
  }

  lemma ArrayText(v: Value)
    requires v.Arr?
    ensures Encode(Arrange(v, false)) == OpenItems(ArrangeItems(v.items, false)) + [CLOSE_BRACKET]
  {
  }

  /** The first `n` elements can be encoded. */
  ghost predicate EncodableTo(items: seq<Value>, n: nat, depth: nat) {
    n <= |items| && forall j :: 0 <= j < n ==> Encodable(items[j], depth)
  }

  method EmitItems(v: Value, depth: nat, sink: DigestSink) returns (ok: bool)
    requires sink.Valid() && v.Arr? && depth <= MAX_DEPTH
    modifies sink
    ensures sink.Valid() && (ok <==> Encodable(v, depth))
    ensures ok ==> sink.written == old(sink.written) + Encode(Arrange(v, false))
    decreases v, 1
  {
    ghost var before, a := sink.written, ArrangeItems(v.items, false);
    ArrayText(v);
    sink.Write([OPEN_BRACKET]);
    for i := 0 to |v.items|
      invariant sink.Valid() && EncodableTo(v.items, i, depth + 1)
      invariant sink.written == before + OpenItems(a[..i])
    {
      ok := EmitItem(v, i, depth + 1, before, sink);
      if !ok { return; }
    }
    assert a[..|v.items|] == a;
    ghost var mid := sink.written;
    sink.Write([CLOSE_BRACKET]);
    Joined(before, OpenItems(a), mid, [CLOSE_BRACKET], sink.written);
    ok := true;
  }

  /** What one entry adds to an object's text. */
  ghost function FieldText(key: Text, value: Text, i: nat): Text {
    Comma(i) + (Quote(key) + [COLON] + value)
  }

  lemma FieldTextIs(key: Text, value: Text, i: nat)
    ensures FieldText(key, value, i) == Comma(i) + (Quote(key) + [COLON]) + value
  {
  }

  lemma FieldsGrow(a: seq<Field>, i: nat)
    requires i < |a|
    ensures OpenFields(a[..i + 1]) == OpenFields(a[..i]) + FieldText(a[i].key, Encode(a[i].value), i)
  {
    assert a[..i + 1] == a[..i] + [a[i]];
    FieldsSnoc(a[..i], a[i]);
  }

  lemma FieldsStep(v: Value, i: nat)
    requires v.Obj? && i < |v.fields|
    ensures var s := SortFields(v.fields); var a := ArrangeFields(v, s, false);
      OpenFields(a[..i + 1]) == OpenFields(a[..i]) + FieldText(s[i].key, Encode(Arrange(s[i].value, false)), i)
  {
    var s := SortFields(v.fields);
    ArrangeFieldsAt(v, s, false, i);
    FieldsGrow(ArrangeFields(v, s, false), i);
  }

  lemma EncodableBySorted(v: Value, depth: nat)
    requires v.Obj? && depth <= MAX_DEPTH
    ensures Encodable(v, depth) <==>
      forall i :: 0 <= i < |v.fields| ==> Encodable(SortFields(v.fields)[i].value, depth + 1)
  {
    var s := SortFields(v.fields);
    assert forall i :: 0 <= i < |s| ==> s[i] in v.fields;
    assert forall i :: 0 <= i < |v.fields| ==> v.fields[i] in s;
  }

  method EmitKey(key: Text, i: nat, sink: DigestSink)
    requires sink.Valid()
    modifies sink
    ensures sink.Valid() && sink.written == old(sink.written) + (Comma(i) + (Quote(key) + [COLON]))
  {
    ghost var before, comma, quoted := sink.written, Comma(i), Quote(key);
    WriteComma(i, sink);
    ghost var afterComma := sink.written;
    WriteCanonicalString(key, sink);
    ghost var afterKey := sink.written;
    sink.Write([COLON]);
    Joined(afterComma, quoted, afterKey, [COLON], sink.written);
    Joined(before, comma, afterComma, quoted + [COLON], sink.written);
  }

  method EmitField(v: Value, f: Field, i: nat, depth: nat, sink: DigestSink) returns (ok: bool)
    requires sink.Valid() && v.Obj? && f in v.fields
    modifies sink
    ensures sink.Valid() && (ok <==> Encodable(f.value, depth))
    ensures ok ==> sink.written == old(sink.written) + FieldText(f.key, Encode(Arrange(f.value, false)), i)
    decreases v, 0
  {
    ghost var before, comma, key := sink.written, Comma(i), Quote(f.key) + [COLON];
    EmitKey(f.key, i, sink);
    ghost var mid := sink.written;
    ok := EmitCanonicalJson(f.value, depth, sink);
    ghost var text := Encode(Arrange(f.value, false));
    if ok {
      Joined(before, comma + key, mid, text, sink.written);
      FieldTextIs(f.key, text, i);
    }
  }

  /** The first `i` sorted fields are encodable and written. */
  ghost predicate FieldsDone(v: Value, depth: nat, i: nat, before: Text, written: Text)
    requires v.Obj? && i <= |v.fields|
  {
    var s := SortFields(v.fields);
    && (forall j :: 0 <= j < i ==> Encodable(s[j].value, depth + 1))
    && written == before + OpenFields(ArrangeFields(v, s, false)[..i])
  }

  lemma FieldsDoneMore(v: Value, depth: nat, i: nat, before: Text, mid: Text, written: Text)
    requires v.Obj? && i < |v.fields| && FieldsDone(v, depth, i, before, mid)
    requires var f := SortFields(v.fields)[i];
      Encodable(f.value, depth + 1) && written == mid + FieldText(f.key, Encode(Arrange(f.value, false)), i)
    ensures FieldsDone(v, depth, i + 1, before, written)
  {
    var s := SortFields(v.fields);
    FieldsStep(v, i);
    Joined(before, OpenFields(ArrangeFields(v, s, false)[..i]), mid,
      FieldText(s[i].key, Encode(Arrange(s[i].value, false)), i), written);
  }

  lemma FieldsDoneAll(v: Value, depth: nat, before: Text, mid: Text, written: Text)
    requires v.Obj? && depth <= MAX_DEPTH && FieldsDone(v, depth, |v.fields|, before, mid)
    requires written == mid + [CLOSE_BRACE]
    ensures Encodable(v, depth) && written == before + Encode(Arrange(v, false))
  {
    var a := ArrangeFields(v, SortFields(v.fields), false);
    EncodableBySorted(v, depth);
    assert a[..|v.fields|] == a;
    Joined(before, OpenFields(a), mid, [CLOSE_BRACE], written);
  }

  method EmitFields(v: Value, depth: nat, sink: DigestSink) returns (ok: bool)
    requires sink.Valid() && v.Obj? && depth <= MAX_DEPTH
    modifies sink
    ensures sink.Valid() && (ok <==> Encodable(v, depth))
    ensures ok ==> sink.written == old(sink.written) + Encode(Arrange(v, false))
    decreases v, 1
  {
    var entries := SortFields(v.fields);
    ghost var before := sink.written;
    sink.Write([OPEN_BRACE]);
    for i := 0 to |entries|
      invariant sink.Valid() && FieldsDone(v, depth, i, before, sink.written)
    {
      ghost var mid := sink.written;
      assert entries[i] in v.fields;
      ok := EmitField(v, entries[i], i, depth + 1, sink);
      if !ok {
        EncodableBySorted(v, depth);
        return;
      }
      FieldsDoneMore(v, depth, i, before, mid, sink.written);
    }
    ghost var mid := sink.written;
    sink.Write([CLOSE_BRACE]);
    FieldsDoneAll(v, depth, before, mid, sink.written);
    ok := true;
  }

  /** The digest covers exactly the bytes of the canonical text when no object has keys the runtime moves. */
  method CanonicalJsonDigest(v: Value) returns (bytes: Option<seq<int>>, byteLength: nat)
    requires WellFormed(v)
    ensures bytes.Some? <==> CanonicalText1(v).Some?
    ensures bytes.Some? ==> byteLength == |bytes.value| && bytes.value == Utf8(Encode(Arrange(v, false)))
    ensures bytes.Some? && OrderSafe(v) ==> bytes.value == Utf8(CanonicalText1(v).value)
  {
    var sink := new DigestSink();
    var ok := EmitCanonicalJson(v, 0, sink);
    NormalizeIs(v, 0);
    assert ok ==> sink.written == Encode(Arrange(v, false));
    if ok { StreamingMatches(v); }
    bytes, byteLength := if ok then Some(sink.hashed) else None, sink.byteLength;
  }
}
