/**
 * JSON text over UTF-16 code units, as `JSON.stringify` writes it (section
 * 25.5.2 of ECMA-262): quoting, numbers, arrays and objects in stored order.
 */
module CanonicalText {
  newtype Unit = u: int | 0 <= u < 0x10000

  type Text = seq<Unit>

  predicate IsLead(u: Unit) { 0xD800 <= u <= 0xDBFF }

  predicate IsTrail(u: Unit) { 0xDC00 <= u <= 0xDFFF }

  predicate StartsPair(s: Text) {
    |s| >= 2 && IsLead(s[0]) && IsTrail(s[1])
  }

  /** Cutting between `s` and `t` does not cut a surrogate pair. */
  predicate CleanCut(s: Text, t: Text) {
    s == [] || t == [] || !IsLead(s[|s| - 1]) || !IsTrail(t[0])
  }

  // -------------------------------------------------------------------------
  // Scanning by code point
  // -------------------------------------------------------------------------

  function TokenLength(s: Text): (n: nat)
    requires s != []
    ensures 1 <= n <= |s|
  {
    if StartsPair(s) then 2 else 1
  }

  /** Maps each surrogate pair as one and every other unit alone. */
  function Scan<T>(s: Text, f: Text -> seq<T>): seq<T> {
    if s == [] then [] else f(s[..TokenLength(s)]) + Scan(s[TokenLength(s)..], f)
  }

  lemma {:induction false} ScanAppend<T>(s: Text, t: Text, f: Text -> seq<T>)
    requires CleanCut(s, t)
    ensures Scan(s + t, f) == Scan(s, f) + Scan(t, f)
    decreases |s|
  {
    if s == [] {
      assert s + t == t;
    } else {
      var n := TokenLength(s);
      assert TokenLength(s + t) == n;
      assert (s + t)[..n] == s[..n] && (s + t)[n..] == s[n..] + t;
      ScanAppend(s[n..], t, f);
    }
  }

  // -------------------------------------------------------------------------
  // Quoted strings
  // -------------------------------------------------------------------------

  const QUOTE: Unit := 34
  const BACKSLASH: Unit := 92
  const LETTER_U: Unit := 117
  const COMMA: Unit := 44
  const COLON: Unit := 58
  const OPEN_BRACKET: Unit := 91
  const CLOSE_BRACKET: Unit := 93
  const OPEN_BRACE: Unit := 123
  const CLOSE_BRACE: Unit := 125
  const MINUS: Unit := 45

  function HexDigit(n: nat): (d: Unit)
    requires n < 16
    ensures d as int == if n < 10 then 48 + n else 87 + n
  {
    if n < 10 then (48 + n) as Unit else (87 + n) as Unit
  }

  function Hex4(u: Unit): Text {
    var n := u as int;
    [HexDigit(n / 4096), HexDigit(n / 256 % 16), HexDigit(n / 16 % 16), HexDigit(n % 16)]
  }

  /** The short escape letter of a unit, if it has one. */
  function ShortEscape(u: Unit): Unit {
    if u == 8 then 98 else if u == 9 then 116 else if u == 10 then 110 else if u == 12 then 102
    else if u == 13 then 114 else if u == QUOTE then QUOTE else if u == BACKSLASH then BACKSLASH else 0
  }

  /** One token of the quoted form: a surrogate pair stays, lone surrogates and control units are escaped. */
  function Token(s: Text): Text {
    if |s| != 1 then s
    else if ShortEscape(s[0]) != 0 then [BACKSLASH, ShortEscape(s[0])]
    else if s[0] < 32 || IsLead(s[0]) || IsTrail(s[0]) then [BACKSLASH, LETTER_U] + Hex4(s[0])
    else s
  }

  function Body(s: Text): Text { Scan(s, Token) }

  function Quote(s: Text): Text { [QUOTE] + Body(s) + [QUOTE] }

  /** The first token of a text, at most as long as a pair. */
  ghost predicate IsToken(s: Text) {
    |s| == 1 || (|s| == 2 && StartsPair(s))
  }

  lemma FirstToken(s: Text)
    requires s != []
    ensures IsToken(s[..TokenLength(s)])
    ensures Body(s) == Token(s[..TokenLength(s)]) + Body(s[TokenLength(s)..])
  {
  }

  // -------------------------------------------------------------------------
  // Numbers
  // -------------------------------------------------------------------------

  predicate IsDigit(u: Unit) { 48 <= u <= 57 }

  function Digits(n: nat): (s: Text)
    ensures s != [] && forall i :: 0 <= i < |s| ==> IsDigit(s[i])
  {
    if n < 10 then [(48 + n) as Unit] else Digits(n / 10) + [(48 + n % 10) as Unit]
  }

  function DecimalValue(s: Text): nat
    requires forall i :: 0 <= i < |s| ==> IsDigit(s[i])
  {
    if s == [] then 0
    else
      assert IsDigit(s[|s| - 1]);
      10 * DecimalValue(s[..|s| - 1]) + (s[|s| - 1] as int - 48)
  }

  function Number(n: int): Text {
    if n < 0 then [MINUS] + Digits(-n) else Digits(n)
  }

  // -------------------------------------------------------------------------
  // Values
  // -------------------------------------------------------------------------

  datatype Value =
    | Null
    | Bool(b: bool)
    | Num(n: int)
    | Str(s: Text)
    | Arr(items: seq<Value>)
    | Obj(fields: seq<Field>)

  datatype Field = Field(key: Text, value: Value)

  function Encode(v: Value): Text
    decreases v
  {
    match v
    case Null => [110, 117, 108, 108]
    case Bool(b) => if b then [116, 114, 117, 101] else [102, 97, 108, 115, 101]
    case Num(n) => Number(n)
    case Str(s) => Quote(s)
    case Arr(items) => [OPEN_BRACKET] + Items(items) + [CLOSE_BRACKET]
    case Obj(fields) => [OPEN_BRACE] + Fields(fields) + [CLOSE_BRACE]
  }

  function Items(items: seq<Value>): Text
    decreases items
  {
    if items == [] then []
    else Encode(items[0]) + if |items| == 1 then [] else [COMMA] + Items(items[1..])
  }

  function EncodeField(f: Field): Text
    decreases f
  {
    Quote(f.key) + [COLON] + Encode(f.value)
  }

  function Fields(fields: seq<Field>): Text
    decreases fields
  {
    if fields == [] then []
    else EncodeField(fields[0]) + if |fields| == 1 then [] else [COMMA] + Fields(fields[1..])
  }
}
