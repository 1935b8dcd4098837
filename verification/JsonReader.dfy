/**
 * A reader of JSON text (RFC 8259) that knows nothing of how the text was written, and the proof
 * that it gives every value back from its text. It reads the grammar without white space between
 * tokens, fractions and exponents, which the text of a value never has.
 */
module JsonReader {
  import opened Quorum
  import opened CanonicalText

  /** What was read, and the text that follows it. */
  type Read<+T> = Option<(T, Text)>

  // -------------------------------------------------------------------------
  // The grammar
  // -------------------------------------------------------------------------

  function HexValue(u: Unit): Option<nat> {
    if 48 <= u <= 57 then Some(u as int - 48)
    else if 97 <= u <= 102 then Some(u as int - 87)
    else if 65 <= u <= 70 then Some(u as int - 55)
    else None
  }

  function ReadHex(t: Text): (r: Option<nat>)
    ensures r.Some? ==> r.value < 0x10000
  {
    if |t| < 4 then None
    else
      var a, b, c, d := HexValue(t[0]), HexValue(t[1]), HexValue(t[2]), HexValue(t[3]);
      if a.None? || b.None? || c.None? || d.None? then None
      else Some(16 * (16 * (16 * a.value + b.value) + c.value) + d.value)
  }

  /** What a backslash and this letter stand for, but for the letter u. */
  function Escaped(letter: Unit): Option<Unit> {
    match letter
    case 34 => Some(34)
    case 92 => Some(92)
    case 47 => Some(47)
    case 98 => Some(8)
    case 102 => Some(12)
    case 110 => Some(10)
    case 114 => Some(13)
    case 116 => Some(9)
    case _ => None
  }

  function ReadUnit(t: Text): (r: Read<Unit>)
    ensures r.Some? ==> |r.value.1| < |t|
  {
    if t == [] || t[0] < 32 || t[0] == 34 then None
    else if t[0] != 92 then Some((t[0], t[1..]))
    else if |t| == 1 then None
    else if t[1] != 117 then
      match Escaped(t[1]) case None => None case Some(u) => Some((u, t[2..]))
    else
      match ReadHex(t[2..]) case None => None case Some(n) => Some((n as Unit, t[6..]))
  }

  /** The rest of a string, up to and with its closing quotation mark. */
  function ReadChars(t: Text): (r: Read<Text>)
    ensures r.Some? ==> |r.value.1| < |t|
    decreases |t|
  {
    if t == [] then None
    else if t[0] == 34 then Some(([], t[1..]))
    else
      match ReadUnit(t)
      case None => None
      case Some((u, rest)) =>
        match ReadChars(rest)
        case None => None
        case Some((s, after)) => Some(([u] + s, after))
  }

  function LeadingDigits(t: Text): (n: nat)
    ensures n <= |t| && forall i :: 0 <= i < n ==> IsDigit(t[i])
  {
    if t == [] || !IsDigit(t[0]) then 0 else 1 + LeadingDigits(t[1..])
  }

  /** Digits without a leading zero. */
  function ReadDigits(t: Text): (r: Read<nat>)
    ensures r.Some? ==> |r.value.1| < |t|
  {
    var n := LeadingDigits(t);
    if n == 0 || (n > 1 && t[0] == 48) then None else Some((DecimalValue(t[..n]), t[n..]))
  }

  function ReadNumber(t: Text): (r: Read<int>)
    ensures r.Some? ==> |r.value.1| < |t|
  {
    if t == [] || t[0] != 45 then ReadDigits(t)
    else match ReadDigits(t[1..]) case None => None case Some((n, rest)) => Some((0 - n as int, rest))
  }

  function ReadWord(t: Text, word: Text, v: Value): (r: Read<Value>)
    requires word != []
    ensures r.Some? ==> |r.value.1| < |t|
  {
    if word <= t then Some((v, t[|word|..])) else None
  }

  /** A value that holds no others. */
  function ReadPlain(t: Text): (r: Read<Value>)
    requires t != []
    ensures r.Some? ==> |r.value.1| < |t|
  {
    if t[0] == 110 then ReadWord(t, [110, 117, 108, 108], Null)
    else if t[0] == 116 then ReadWord(t, [116, 114, 117, 101], Bool(true))
    else if t[0] == 102 then ReadWord(t, [102, 97, 108, 115, 101], Bool(false))
    else if t[0] == 34 then
      match ReadChars(t[1..]) case None => None case Some((s, rest)) => Some((Str(s), rest))
    else
      match ReadNumber(t) case None => None case Some((n, rest)) => Some((Num(n), rest))
  }

  function ReadValue(t: Text): (r: Read<Value>)
    ensures r.Some? ==> |r.value.1| < |t|
    decreases |t|, 0
  {
    if t == [] then None
    else if t[0] == 91 then ReadArray(t[1..])
    else if t[0] == 123 then ReadObject(t[1..])
    else ReadPlain(t)
  }

  /** An array after its opening bracket. */
  function ReadArray(t: Text): (r: Read<Value>)
    ensures r.Some? ==> |r.value.1| < |t|
    decreases |t|, 2
  {
    if t != [] && t[0] == 93 then Some((Arr([]), t[1..]))
    else match ReadItems(t) case None => None case Some((items, rest)) => Some((Arr(items), rest))
  }

  /** An object after its opening brace. */
  function ReadObject(t: Text): (r: Read<Value>)
    ensures r.Some? ==> |r.value.1| < |t|
    decreases |t|, 2
  {
    if t != [] && t[0] == 125 then Some((Obj([]), t[1..]))
    else match ReadFields(t) case None => None case Some((fields, rest)) => Some((Obj(fields), rest))
  }

  /** Values separated by commas, up to and with the closing bracket. */
  function ReadItems(t: Text): (r: Read<seq<Value>>)
    ensures r.Some? ==> |r.value.1| < |t|
    decreases |t|, 1
  {
    match ReadValue(t)
    case None => None
    case Some((v, rest)) =>
      if rest == [] then None
      else if rest[0] == 93 then Some(([v], rest[1..]))
      else if rest[0] != 44 then None
      else
        match ReadItems(rest[1..])
        case None => None
        case Some((items, after)) => Some(([v] + items, after))
  }

  function ReadField(t: Text): (r: Read<Field>)
    ensures r.Some? ==> |r.value.1| < |t|
    decreases |t|, 0
  {
    if t == [] || t[0] != 34 then None
    else
      match ReadChars(t[1..])
      case None => None
      case Some((key, rest)) =>
        if rest == [] || rest[0] != 58 then None
        else
          match ReadValue(rest[1..])
          case None => None
          case Some((v, after)) => Some((Field(key, v), after))
  }

  /** Named values separated by commas, up to and with the closing brace. */
  function ReadFields(t: Text): (r: Read<seq<Field>>)
    ensures r.Some? ==> |r.value.1| < |t|
    decreases |t|, 1
  {
    match ReadField(t)
    case None => None
    case Some((f, rest)) =>
      if rest == [] then None
      else if rest[0] == 125 then Some(([f], rest[1..]))
      else if rest[0] != 44 then None
      else
        match ReadFields(rest[1..])
        case None => None
        case Some((fields, after)) => Some(([f] + fields, after))
  }

  /** The value of a whole text. */
  function Parse(t: Text): Option<Value> {
    match ReadValue(t)
    case None => None
    case Some((v, rest)) => if rest == [] then Some(v) else None
  }

  // -------------------------------------------------------------------------
  // Strings read back
  // -------------------------------------------------------------------------

  lemma HexReadsBack(u: Unit, x: Text)
    ensures ReadHex(Hex4(u) + x) == Some(u as int)
  {
    var n := u as int;
    assert n / 256 / 16 == n / 4096 && n / 16 / 16 == n / 256;
    assert n / 256 == 16 * (n / 4096) + n / 256 % 16;
    assert n / 16 == 16 * (n / 256) + n / 16 % 16;
  }

  lemma UnitReadsBack(u: Unit, x: Text)
    ensures ReadUnit(Token([u]) + x) == Some((u, x))
    ensures Token([u])[0] != 34
  {
    var t := Token([u]) + x;
    if Token([u]) == [BACKSLASH, LETTER_U] + Hex4(u) {
      assert t[2..] == Hex4(u) + x && t[6..] == x;
      HexReadsBack(u, x);
    } else {
      assert t[|Token([u])|..] == x;
    }
  }

  lemma {:induction false} CharsReadBack(s: Text, x: Text)
    ensures ReadChars(Body(s) + ([QUOTE] + x)) == Some((s, x))
    decreases |s|
  {
    if s == [] {
      assert Body(s) + ([QUOTE] + x) == [QUOTE] + x;
    } else {
      var n := TokenLength(s);
      var rest := Body(s[n..]) + ([QUOTE] + x);
      CharsReadBack(s[n..], x);
      assert Body(s) + ([QUOTE] + x) == Token(s[..n]) + rest;
      if n == 1 {
        assert s[..1] == [s[0]] && s == [s[0]] + s[1..];
        UnitReadsBack(s[0], rest);
      } else {
        PairReadsBack(s[0], s[1], rest);
        assert s[..2] == [s[0], s[1]] && s == [s[0], s[1]] + s[2..];
      }
    }
  }

  lemma PairReadsBack(lead: Unit, trail: Unit, rest: Text)
    requires IsLead(lead) && IsTrail(trail) && ReadChars(rest).Some?
    ensures ReadChars([lead, trail] + rest) == Some(([lead, trail] + ReadChars(rest).value.0, ReadChars(rest).value.1))
  {
    var t, s := [lead, trail] + rest, ReadChars(rest).value.0;
    assert t[1..] == [trail] + rest && t[1..][1..] == rest;
    assert ReadChars([trail] + rest) == Some(([trail] + s, ReadChars(rest).value.1));
    assert [lead] + ([trail] + s) == [lead, trail] + s;
  }

  // -------------------------------------------------------------------------
  // Numbers read back
  // -------------------------------------------------------------------------

  lemma {:induction false} DigitsReadBack(n: nat)
    ensures DecimalValue(Digits(n)) == n
    ensures Digits(n)[0] == 48 ==> n == 0
    ensures |Digits(n)| == 1 <==> n < 10
  {
    if n >= 10 {
      DigitsReadBack(n / 10);
      assert Digits(n)[..|Digits(n)| - 1] == Digits(n / 10);
    }
  }

  /** Digits without a leading zero are those of their value. */
  lemma {:induction false} DigitsOfValue(s: Text)
    requires s != [] && (forall i :: 0 <= i < |s| ==> IsDigit(s[i])) && (s[0] != 48 || |s| == 1)
    ensures Digits(DecimalValue(s)) == s
    ensures s[0] != 48 ==> DecimalValue(s) >= 1
    decreases |s|
  {
    var n := |s| - 1;
    assert IsDigit(s[n]);
    if n == 0 {
      assert s[..0] == [] && s == [s[0]];
    } else {
      DigitsOfValue(s[..n]);
      assert s == s[..n] + [s[n]];
    }
  }

  /** What may follow a value: nothing, a comma or a closing bracket. */
  predicate Stops(x: Text) {
    x == [] || x[0] == COMMA || x[0] == CLOSE_BRACKET || x[0] == CLOSE_BRACE
  }

  lemma {:induction false} DigitRun(a: Text, x: Text)
    requires Stops(x) && forall i :: 0 <= i < |a| ==> IsDigit(a[i])
    ensures LeadingDigits(a + x) == |a|
    decreases |a|
  {
    if a == [] {
      assert a + x == x;
    } else {
      DigitRun(a[1..], x);
      assert (a + x)[1..] == a[1..] + x;
    }
  }

  lemma DigitsThen(n: nat, x: Text)
    requires Stops(x)
    ensures ReadDigits(Digits(n) + x) == Some((n, x))
  {
    var digits := Digits(n);
    DigitsReadBack(n);
    DigitRun(digits, x);
    assert (digits + x)[..|digits|] == digits && (digits + x)[|digits|..] == x;
  }

  lemma NumberReadsBack(n: int, x: Text)
    requires Stops(x)
    ensures ReadNumber(Number(n) + x) == Some((n, x))
  {
    if n < 0 {
      DigitsThen(-n, x);
      assert Number(n) + x == [MINUS] + (Digits(-n) + x);
      assert ([MINUS] + (Digits(-n) + x))[1..] == Digits(-n) + x;
    } else {
      DigitsThen(n, x);
      assert IsDigit(Digits(n)[0]);
    }
  }

  // -------------------------------------------------------------------------
  // Values read back
  // -------------------------------------------------------------------------

  /** What follows the first element of a list: the close, or a comma and the rest. */
  function Tail(rest: Text, last: bool, close: Unit, x: Text): Text {
    if last then [close] + x else [COMMA] + (rest + ([close] + x))
  }

  lemma TailThen(first: Text, rest: Text, last: bool, close: Unit, x: Text)
    ensures first + (if last then [] else [COMMA] + rest) + ([close] + x) == first + Tail(rest, last, close, x)
    ensures Tail(rest, last, close, x)[1..] == if last then x else rest + ([close] + x)
  {
  }

  lemma WordReadsBack(word: Text, v: Value, x: Text)
    requires word != []
    ensures ReadWord(word + x, word, v) == Some((v, x))
  {
    assert (word + x)[|word|..] == x;
  }

  lemma StringReadsBack(s: Text, x: Text)
    ensures ReadPlain(Quote(s) + x) == Some((Str(s), x))
  {
    CharsReadBack(s, x);
    Unwrap(QUOTE, Body(s), QUOTE, x);
  }

  lemma NumberStart(n: int)
    ensures Number(n) != [] && (Number(n)[0] == 45 || IsDigit(Number(n)[0]))
  {
  }

  lemma IntegerReadsBack(n: int, x: Text)
    requires Stops(x)
    ensures ReadPlain(Number(n) + x) == Some((Num(n), x))
  {
    NumberStart(n);
    NumberReadsBack(n, x);
  }

  lemma PlainReadsBack(v: Value, x: Text)
    requires Stops(x) && !v.Arr? && !v.Obj?
    ensures ReadPlain(Encode(v) + x) == Some((v, x))
    ensures Encode(v) != [] && Encode(v)[0] != 91 && Encode(v)[0] != 123
  {
    match v
    case Null => WordReadsBack(Encode(v), v, x);
    case Bool(_) => WordReadsBack(Encode(v), v, x);
    case Num(n) =>
      NumberStart(n);
      IntegerReadsBack(n, x);
    case Str(s) => StringReadsBack(s, x);
  }

  lemma {:induction false} ValueReadsBack(v: Value, x: Text)
    requires Stops(x)
    ensures ReadValue(Encode(v) + x) == Some((v, x))
    decreases v
  {
    match v
    case Arr(items) =>
      if items != [] { ItemsReadBack(items, x); }
      ArrayReadsBack(items, x);
    case Obj(fields) =>
      if fields != [] { FieldsReadBack(fields, x); }
      ObjectReadsBack(fields, x);
    case _ => PlainReadsBack(v, x);
  }

  lemma Unwrap(open: Unit, a: Text, close: Unit, x: Text)
    ensures ([open] + a + [close] + x)[0] == open && ([open] + a + [close] + x)[1..] == a + ([close] + x)
  {
  }

  lemma ArrayReadsBack(items: seq<Value>, x: Text)
    requires items != [] ==> ReadItems(Items(items) + ([CLOSE_BRACKET] + x)) == Some((items, x))
    ensures ReadValue(Encode(Arr(items)) + x) == Some((Arr(items), x))
  {
    Unwrap(OPEN_BRACKET, Items(items), CLOSE_BRACKET, x);
    ListReadsBack(items, x);
  }

  lemma ListReadsBack(items: seq<Value>, x: Text)
    requires items != [] ==> ReadItems(Items(items) + ([CLOSE_BRACKET] + x)) == Some((items, x))
    ensures ReadArray(Items(items) + ([CLOSE_BRACKET] + x)) == Some((Arr(items), x))
  {
    if items == [] {
      assert Items(items) + ([CLOSE_BRACKET] + x) == [CLOSE_BRACKET] + x;
    } else {
      ValueStart(items[0]);
    }
  }

  lemma ValueStart(v: Value)
    ensures Encode(v) != [] && Encode(v)[0] != CLOSE_BRACKET
  {
  }

  lemma ObjectReadsBack(fields: seq<Field>, x: Text)
    requires fields != [] ==> ReadFields(Fields(fields) + ([CLOSE_BRACE] + x)) == Some((fields, x))
    ensures ReadValue(Encode(Obj(fields)) + x) == Some((Obj(fields), x))
  {
    Unwrap(OPEN_BRACE, Fields(fields), CLOSE_BRACE, x);
    RecordReadsBack(fields, x);
  }

  lemma RecordReadsBack(fields: seq<Field>, x: Text)
    requires fields != [] ==> ReadFields(Fields(fields) + ([CLOSE_BRACE] + x)) == Some((fields, x))
    ensures ReadObject(Fields(fields) + ([CLOSE_BRACE] + x)) == Some((Obj(fields), x))
  {
    if fields == [] { assert Fields(fields) + ([CLOSE_BRACE] + x) == [CLOSE_BRACE] + x; }
  }

  lemma {:induction false} ItemsReadBack(items: seq<Value>, x: Text)
    requires items != []
    ensures ReadItems(Items(items) + ([CLOSE_BRACKET] + x)) == Some((items, x))
    decreases items
  {
    var last, rest := |items| == 1, Items(items[1..]);
    var tail := Tail(rest, last, CLOSE_BRACKET, x);
    TailThen(Encode(items[0]), rest, last, CLOSE_BRACKET, x);
    ValueReadsBack(items[0], tail);
    assert items == [items[0]] + items[1..] && (last ==> items == [items[0]]);
    if !last { ItemsReadBack(items[1..], x); }
  }

  lemma {:induction false} FieldReadsBack(f: Field, x: Text)
    requires Stops(x)
    ensures ReadField(EncodeField(f) + x) == Some((f, x))
    decreases f
  {
    var t, rest := EncodeField(f) + x, [COLON] + (Encode(f.value) + x);
    assert t[1..] == Body(f.key) + ([QUOTE] + rest);
    CharsReadBack(f.key, rest);
    ValueReadsBack(f.value, x);
    assert rest[0] == COLON && rest[1..] == Encode(f.value) + x;
  }

  lemma {:induction false} FieldsReadBack(fields: seq<Field>, x: Text)
    requires fields != []
    ensures ReadFields(Fields(fields) + ([CLOSE_BRACE] + x)) == Some((fields, x))
    decreases fields
  {
    var last, rest := |fields| == 1, Fields(fields[1..]);
    var tail := Tail(rest, last, CLOSE_BRACE, x);
    TailThen(EncodeField(fields[0]), rest, last, CLOSE_BRACE, x);
    FieldReadsBack(fields[0], tail);
    assert fields == [fields[0]] + fields[1..] && (last ==> fields == [fields[0]]);
    if !last { FieldsReadBack(fields[1..], x); }
  }

  /** Main result: reading the text of any value gives the value back. */
  lemma ParseEncode(v: Value)
    ensures Parse(Encode(v)) == Some(v)
  {
    assert Encode(v) + [] == Encode(v);
    ValueReadsBack(v, []);
  }

  /** In particular, equal texts come from equal values, fields in the same order. */
  lemma EncodeInjective(v: Value, w: Value)
    requires Encode(v) == Encode(w)
    ensures v == w
  {
    ParseEncode(v);
    ParseEncode(w);
  }

  // -------------------------------------------------------------------------
  // The text is well-formed, and escapes nothing it need not
  // -------------------------------------------------------------------------

  /** Every surrogate stands in a pair. */
  ghost predicate Paired(t: Text) {
    && (forall i :: 0 <= i < |t| && IsLead(t[i]) ==> i + 1 < |t| && IsTrail(t[i + 1]))
    && (forall i :: 0 <= i < |t| && IsTrail(t[i]) ==> i > 0 && IsLead(t[i - 1]))
  }

  lemma PairedConcat(a: Text, b: Text)
    requires Paired(a) && Paired(b)
    ensures Paired(a + b)
  {
    var t := a + b;
    forall i | 0 <= i < |t| && IsLead(t[i]) ensures i + 1 < |t| && IsTrail(t[i + 1]) {
      if i < |a| { assert IsLead(a[i]); } else { assert IsLead(b[i - |a|]); }
    }
    forall i | 0 <= i < |t| && IsTrail(t[i]) ensures i > 0 && IsLead(t[i - 1]) {
      if i < |a| { assert IsTrail(a[i]); } else { assert IsTrail(b[i - |a|]); }
    }
  }

  lemma TokenPaired(s: Text)
    requires IsToken(s)
    ensures Paired(Token(s))
  {
  }

  lemma PairedWithin(open: Unit, t: Text, close: Unit)
    requires Paired(t) && open < 0xD800 && close < 0xD800
    ensures Paired([open] + t + [close])
  {
    PairedConcat([open], t);
    PairedConcat([open] + t, [close]);
  }

  lemma QuotePaired(s: Text)
    ensures Paired(Quote(s))
  {
    BodyPaired(s);
    PairedWithin(QUOTE, Body(s), QUOTE);
  }

  lemma PlainPaired(v: Value)
    requires !v.Arr? && !v.Obj?
    ensures Paired(Encode(v))
  {
    match v
    case Str(s) => QuotePaired(s);
    case Num(n) => NumberLow(n); LowPaired(Number(n));
    case _ => LowPaired(Encode(v));
  }

  /** Text below the surrogates. */
  predicate Low(t: Text) {
    forall i :: 0 <= i < |t| ==> t[i] < 0xD800
  }

  lemma LowPaired(t: Text)
    requires Low(t)
    ensures Paired(t)
  {
  }

  lemma NumberLow(n: int)
    ensures Low(Number(n))
  {
    var digits := Digits(if n < 0 then -n else n);
    assert forall i :: 0 <= i < |digits| ==> IsDigit(digits[i]);
  }

  lemma {:induction false} BodyPaired(s: Text)
    ensures Paired(Body(s))
    decreases |s|
  {
    if s != [] {
      var n := TokenLength(s);
      FirstToken(s);
      TokenPaired(s[..n]);
      BodyPaired(s[n..]);
      PairedConcat(Token(s[..n]), Body(s[n..]));
    }
  }

  /** Main result: the text of a value has no lone surrogate, whatever its strings hold, so UTF-8 keeps all of it. */
  lemma {:induction false} EncodePaired(v: Value)
    ensures Paired(Encode(v))
    decreases v
  {
    match v
    case Arr(items) =>
      ItemsPaired(items);
      PairedWithin(OPEN_BRACKET, Items(items), CLOSE_BRACKET);
    case Obj(fields) =>
      FieldsPaired(fields);
      PairedWithin(OPEN_BRACE, Fields(fields), CLOSE_BRACE);
    case _ => PlainPaired(v);
  }

  lemma {:induction false} ItemsPaired(items: seq<Value>)
    ensures Paired(Items(items))
    decreases items
  {
    if items != [] {
      EncodePaired(items[0]);
      ItemsPaired(items[1..]);
      PairedConcat([COMMA], Items(items[1..]));
      PairedConcat(Encode(items[0]), if |items| == 1 then [] else [COMMA] + Items(items[1..]));
    }
  }

  lemma {:induction false} FieldsPaired(fields: seq<Field>)
    ensures Paired(Fields(fields))
    decreases fields
  {
    if fields != [] {
      var f := fields[0];
      EncodePaired(f.value);
      QuotePaired(f.key);
      PairedConcat(Quote(f.key), [COLON]);
      PairedConcat(Quote(f.key) + [COLON], Encode(f.value));
      FieldsPaired(fields[1..]);
      PairedConcat([COMMA], Fields(fields[1..]));
      PairedConcat(EncodeField(f), if |fields| == 1 then [] else [COMMA] + Fields(fields[1..]));
    }
  }

  /** No unit is a control unit, a quotation mark or a backslash. */
  predicate NoMarks(s: Text) {
    forall i :: 0 <= i < |s| ==> s[i] >= 32 && s[i] != 34 && s[i] != 92
  }

  /** A string is quoted as it stands exactly when it has no such unit and no lone surrogate. */
  lemma {:induction false} VerbatimIff(s: Text)
    ensures Quote(s) == [34] + s + [34] <==> NoMarks(s) && Paired(s)
  {
    BodyVerbatim(s);
    assert Quote(s)[1..|Quote(s)| - 1] == Body(s);
    assert ([34] + s + [34])[1..|s| + 1] == s;
  }

  lemma {:induction false} BodyVerbatim(s: Text)
    ensures |Body(s)| >= |s| && (Body(s) == s <==> NoMarks(s) && Paired(s))
    decreases |s|
  {
    if s != [] {
      var n := TokenLength(s);
      var first, rest := s[..n], s[n..];
      FirstToken(s);
      BodyVerbatim(rest);
      assert s == first + rest;
      SplitClean(s, n);
      TokenVerbatim(first);
      if Body(s) == s && Token(first) == first {
        assert Body(rest) == Body(s)[n..] == rest;
      }
    }
  }

  lemma TokenVerbatim(s: Text)
    requires IsToken(s)
    ensures Token(s) == s <==> NoMarks(s) && Paired(s)
    ensures Token(s) != s ==> |Token(s)| > |s|
  {
  }

  lemma PairedParts(s: Text, n: nat)
    requires s != [] && n == TokenLength(s) && Paired(s)
    ensures Paired(s[..n]) && Paired(s[n..])
  {
    assert n == 1 ==> !IsLead(s[0]);
    assert forall i :: 0 <= i < |s| - n ==> s[n..][i] == s[n + i];
  }

  lemma SplitClean(s: Text, n: nat)
    requires s != [] && n == TokenLength(s)
    ensures NoMarks(s) && Paired(s) <==> NoMarks(s[..n]) && Paired(s[..n]) && NoMarks(s[n..]) && Paired(s[n..])
  {
    var first, rest := s[..n], s[n..];
    assert s == first + rest;
    if Paired(first) && Paired(rest) { PairedConcat(first, rest); }
    if Paired(s) { PairedParts(s, n); }
  }
}
