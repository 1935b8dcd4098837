/**
 * A reader of UTF-8 (RFC 3629) into UTF-16 code units, and the proof that it gives back every text
 * without a lone surrogate: the bytes that are hashed determine the value they stand for.
 */
module Utf8Reader {
  import opened Quorum
  import opened CanonicalText
  import opened JsonReader
  import opened CanonicalJson
  import opened CanonicalStream

  predicate Continuation(b: int) { 0x80 <= b < 0xC0 }

  /** One code point, as one code unit or a surrogate pair, and the bytes that follow it. */
  function ReadPoint(b: seq<int>): (r: Option<(Text, seq<int>)>)
    ensures r.Some? ==> |r.value.1| < |b|
  {
    if b == [] || b[0] < 0 then None
    else if b[0] < 0x80 then Some(([b[0] as Unit], b[1..]))
    else if |b| < 2 || !Continuation(b[1]) then None
    else if 0xC0 <= b[0] < 0xE0 then
      var u := (b[0] - 0xC0) * 64 + (b[1] - 0x80);
      if u < 0x80 then None else Some(([u as Unit], b[2..]))
    else if |b| < 3 || !Continuation(b[2]) then None
    else if 0xE0 <= b[0] < 0xF0 then
      var u := (b[0] - 0xE0) * 4096 + (b[1] - 0x80) * 64 + (b[2] - 0x80);
      if u < 0x800 || 0xD800 <= u <= 0xDFFF then None else Some(([u as Unit], b[3..]))
    else if |b| < 4 || !Continuation(b[3]) || !(0xF0 <= b[0] < 0xF8) then None
    else
      var p := (b[0] - 0xF0) * 262144 + (b[1] - 0x80) * 4096 + (b[2] - 0x80) * 64 + (b[3] - 0x80);
      if !(0x10000 <= p < 0x110000) then None
      else
        var q := p - 0x10000;
        Some(([(0xD800 + q / 0x400) as Unit, (0xDC00 + q % 0x400) as Unit], b[4..]))
  }

  function ReadUtf8(b: seq<int>): Option<Text>
    decreases |b|
  {
    if b == [] then Some([])
    else
      match ReadPoint(b)
      case None => None
      case Some((first, rest)) =>
        match ReadUtf8(rest)
        case None => None
        case Some(t) => Some(first + t)
  }

  lemma UnitReadsBack(u: Unit, rest: seq<int>)
    requires !IsLead(u) && !IsTrail(u)
    ensures ReadPoint(TokenBytes([u]) + rest) == Some(([u], rest))
  {
    var b, n := TokenBytes([u]) + rest, u as int;
    if n < 0x80 {
      assert b[1..] == rest;
    } else if n < 0x800 {
      assert b[0] == 0xC0 + n / 64 && b[1] == 0x80 + n % 64 && b[2..] == rest;
    } else {
      assert b[0] == 0xE0 + n / 0x1000 && b[1] == 0x80 + n / 64 % 64 && b[2] == 0x80 + n % 64 && b[3..] == rest;
      assert n / 64 == (n / 0x1000) * 64 + n / 64 % 64 by { assert n / 64 / 64 == n / 0x1000; }
      assert n == (n / 64) * 64 + n % 64;
    }
  }

  lemma PairReadsBack(lead: Unit, trail: Unit, rest: seq<int>)
    requires IsLead(lead) && IsTrail(trail)
    ensures ReadPoint(TokenBytes([lead, trail]) + rest) == Some(([lead, trail], rest))
  {
    var b := TokenBytes([lead, trail]) + rest;
    var x, y := lead as int - 0xD800, trail as int - 0xDC00;
    var p := 0x10000 + x * 0x400 + y;
    assert b[0] == 0xF0 + p / 0x40000 && b[1] == 0x80 + p / 0x1000 % 64 && b[2] == 0x80 + p / 64 % 64;
    assert b[3] == 0x80 + p % 64 && b[4..] == rest;
    assert p / 64 / 64 == p / 0x1000 && p / 0x1000 / 64 == p / 0x40000;
    assert p / 0x1000 == (p / 0x40000) * 64 + p / 0x1000 % 64;
    assert p / 64 == (p / 0x1000) * 64 + p / 64 % 64;
    assert p == (p / 64) * 64 + p % 64;
    var q := p - 0x10000;
    assert q / 0x400 == x && q % 0x400 == y;
  }

  /** Main result: the bytes of a text without a lone surrogate read back as the text. */
  lemma {:induction false} Utf8ReadsBack(s: Text)
    requires Paired(s)
    ensures ReadUtf8(Utf8(s)) == Some(s)
    decreases |s|
  {
    if s != [] {
      var n := TokenLength(s);
      PairedParts(s, n);
      Utf8ReadsBack(s[n..]);
      assert s == s[..n] + s[n..];
      if n == 1 {
        assert s[..1] == [s[0]];
        UnitReadsBack(s[0], Utf8(s[1..]));
      } else {
        assert s[..2] == [s[0], s[1]];
        PairReadsBack(s[0], s[1], Utf8(s[2..]));
      }
    }
  }

  /** Main result: two values whose canonical texts have the same bytes are the same up to key order. */
  lemma CanonicalBytesIff(v: Value, w: Value)
    requires WellFormed(v) && WellFormed(w) && CanonicalText1(v).Some? && CanonicalText1(w).Some?
    ensures Utf8(CanonicalText1(v).value) == Utf8(CanonicalText1(w).value) <==> Same(v, w)
  {
    NormalizeIs(v, 0);
    NormalizeIs(w, 0);
    EncodePaired(Arrange(v, true));
    EncodePaired(Arrange(w, true));
    Utf8ReadsBack(CanonicalText1(v).value);
    Utf8ReadsBack(CanonicalText1(w).value);
    CanonicalIsInjective(v, w);
  }
}
