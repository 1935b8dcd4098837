/**
 * Length-prefixed frames over a chunked stream, read into fixed buffers under
 * a shared byte budget.
 */
module P2PFrame {
  import opened Arithmetic
  import opened Quorum

  const WRITE_CHUNK := 64 * 1024
  const MAX_FRAME := 32_000_000

  newtype Byte = b: int | 0 <= b < 256

  type Bytes = seq<Byte>

  // -------------------------------------------------------------------------
  // The format
  // -------------------------------------------------------------------------

  function Length(header: Bytes): nat
    requires |header| == 4
  {
    header[0] as int * 0x100_0000 + header[1] as int * 0x1_0000 + header[2] as int * 0x100 + header[3] as int
  }

  function Header(n: nat): (h: Bytes)
    requires n < 0x1_0000_0000
    ensures |h| == 4 && Length(h) == n
  {
    var a, b := n / 0x100_0000, n / 0x1_0000 % 256;
    var c, d := n / 0x100 % 256, n % 256;
    assert n / 0x100 / 256 == n / 0x1_0000 && n / 0x1_0000 / 256 == a;
    [a as Byte, b as Byte, c as Byte, d as Byte]
  }

  /** The length stands most significant byte first: headers compare as their lengths do. */
  lemma LengthOrders(g: Bytes, h: Bytes)
    requires |g| == |h| == 4
    ensures Length(g) < Length(h) <==>
      || g[0] < h[0]
      || (g[0] == h[0] && g[1] < h[1])
      || (g[..2] == h[..2] && g[2] < h[2])
      || (g[..3] == h[..3] && g[3] < h[3])
  {
    assert g[..2] == h[..2] <==> g[0] == h[0] && g[1] == h[1];
    assert g[..3] == h[..3] <==> g[0] == h[0] && g[1] == h[1] && g[2] == h[2];
  }

  function Frame(body: Bytes): Bytes
    requires |body| < 0x1_0000_0000
  {
    Header(|body|) + body
  }

  function Concat(chunks: seq<Bytes>): Bytes {
    if chunks == [] then [] else Concat(chunks[..|chunks| - 1]) + chunks[|chunks| - 1]
  }

  lemma {:induction false} ConcatPrefix(chunks: seq<Bytes>, n: nat)
    requires n <= |chunks|
    ensures Concat(chunks[..n]) <= Concat(chunks)
    decreases |chunks|
  {
    if n == |chunks| {
      assert chunks[..n] == chunks;
    } else {
      ConcatPrefix(chunks[..|chunks| - 1], n);
      assert chunks[..|chunks| - 1][..n] == chunks[..n];
    }
  }

  /** A stream that is exactly one frame with an admissible body. */
  predicate OneFrame(stream: Bytes, max: nat) {
    |stream| > 4 && Length(stream[..4]) == |stream| - 4 <= max
  }

  /** The streams of written frames are exactly the one-frame streams. */
  lemma FramesAreOneFrame(stream: Bytes, max: nat)
    requires max <= MAX_FRAME
    ensures OneFrame(stream, max) <==> exists body: Bytes :: 1 <= |body| <= max && stream == Frame(body)
  {
    if OneFrame(stream, max) {
      var body := stream[4..];
      HeaderUnique(stream[..4]);
      assert stream == Frame(body);
    }
    if body: Bytes :| 1 <= |body| <= max && stream == Frame(body) {
      assert stream[..4] == Header(|body|);
    }
  }

  lemma HeaderUnique(h: Bytes)
    requires |h| == 4
    ensures Length(h) < 0x1_0000_0000 && Header(Length(h)) == h
  {
    var a, b, c, d := h[0] as int, h[1] as int, h[2] as int, h[3] as int;
    var x, y := 256 * a + b, 256 * (256 * a + b) + c;
    LastByte(a, b);
    LastByte(x, c);
    LastByte(y, d);
    assert Length(h) == 256 * y + d;
    DivideOn(256 * y + d);
  }

  lemma LastByte(x: nat, b: nat)
    requires b < 256
    ensures (256 * x + b) / 256 == x && (256 * x + b) % 256 == b
  {
  }

  lemma DivideOn(n: nat)
    ensures n / 0x1_0000 == n / 256 / 256 && n / 0x100_0000 == n / 256 / 256 / 256
  {
  }

  // -------------------------------------------------------------------------
  // The budget
  // -------------------------------------------------------------------------

  class Budget {
    const maxBytes: nat
    var bytesInUse: int
    var peak: int
    var rejected: nat

    constructor (maxBytes: nat)
      requires maxBytes >= 1
      ensures Valid() && bytesInUse == 0 && this.maxBytes == maxBytes
    {
      this.maxBytes := maxBytes;
      bytesInUse, peak, rejected := 0, 0, 0;
    }

    ghost predicate Valid()
      reads this
    {
      0 <= bytesInUse <= peak <= maxBytes
    }

    /** Refused exactly when the bytes do not fit; use never exceeds the maximum. */
    method Reserve(bytes: int) returns (r: Reservation?)
      requires Valid()
      modifies this
      ensures Valid()
      ensures r != null <==> 1 <= bytes <= maxBytes - old(bytesInUse)
      ensures r != null ==> fresh(r) && r.budget == this && r.bytes == bytes && !r.released
      ensures bytesInUse == old(bytesInUse) + if r != null then bytes else 0
      ensures rejected == old(rejected) + if r != null then 0 else 1
    {
      if bytes < 1 || bytes > maxBytes || bytesInUse > maxBytes - bytes {
        rejected := rejected + 1;
        return null;
      }
      bytesInUse := bytesInUse + bytes;
      peak := if peak > bytesInUse then peak else bytesInUse;
      r := new Reservation(this, bytes);
    }
  }

  /** What `reserve` hands back: releasing it twice releases it once. */
  class Reservation {
    const budget: Budget
    const bytes: int
    var released: bool

    constructor (budget: Budget, bytes: int)
      ensures this.budget == budget && this.bytes == bytes && !released
    {
      this.budget, this.bytes, released := budget, bytes, false;
    }

    method Release()
      requires budget.Valid() && (!released ==> 0 <= bytes <= budget.bytesInUse)
      modifies this, budget`bytesInUse
      ensures released && budget.Valid()
      ensures budget.bytesInUse == old(budget.bytesInUse) - if old(released) then 0 else bytes
    {
      if released { return; }
      released := true;
      budget.bytesInUse := budget.bytesInUse - bytes;
    }
  }

  // -------------------------------------------------------------------------
  // Writing
  // -------------------------------------------------------------------------

  lemma ConcatSnoc(chunks: seq<Bytes>, c: Bytes)
    ensures Concat(chunks + [c]) == Concat(chunks) + c
  {
    assert (chunks + [c])[..|chunks|] == chunks;
  }

  /** The chunks sent for one body: the header, then the body cut at 64 KiB. */
  method SendFrame(body: Bytes) returns (sent: seq<Bytes>)
    requires |body| < 0x1_0000_0000
    ensures Concat(sent) == Frame(body)
    ensures forall i :: 0 <= i < |sent| ==> |sent[i]| <= |body| + 4 && |sent[i]| <= WRITE_CHUNK
  {
    sent := [Header(|body|)];
    assert Concat(sent[..0]) == [];
    var offset := 0;
    while offset < |body|
      invariant 0 <= offset <= |body| && Concat(sent) == Header(|body|) + body[..offset]
      invariant forall i :: 0 <= i < |sent| ==> |sent[i]| <= |body| + 4 && |sent[i]| <= WRITE_CHUNK
    {
      var end := if |body| < offset + WRITE_CHUNK then |body| else offset + WRITE_CHUNK;
      ConcatSnoc(sent, body[offset..end]);
      assert body[..end] == body[..offset] + body[offset..end];
      sent := sent + [body[offset..end]];
      offset := end;
    }
    assert body[..offset] == body;
  }

  /** Writes a serialized value; the budget is back where it started on every path. */
  method WriteFrame(body: Bytes, max: nat, budget: Budget) returns (sent: Option<seq<Bytes>>)
    requires budget.Valid() && 1 <= max <= MAX_FRAME
    modifies budget
    ensures budget.Valid() && budget.bytesInUse == old(budget.bytesInUse)
    ensures sent.Some? <==> 1 <= |body| <= max && old(budget.bytesInUse) + 2 * max <= budget.maxBytes
    ensures sent.Some? ==> Concat(sent.value) == Frame(body)
    ensures sent.Some? ==> forall i :: 0 <= i < |sent.value| ==> |sent.value[i]| <= max + 4
  {
    var serialization := budget.Reserve(max);
    if serialization == null { return None; }
    var encoded := budget.Reserve(max);
    if encoded == null || |body| == 0 || |body| > max {
      if encoded != null { encoded.Release(); }
      serialization.Release();
      return None;
    }
    serialization.Release();
    encoded.Release();
    encoded := budget.Reserve(|body|);
    var chunks := SendFrame(body);
    encoded.Release();
    sent := Some(chunks);
  }

  // -------------------------------------------------------------------------
  // Reading
  // -------------------------------------------------------------------------

  /** Copies bytes into a buffer at a position. */
  method CopyInto(dst: array<Byte>, at: nat, src: Bytes)
    requires at + |src| <= dst.Length
    modifies dst
    ensures dst[..at] == old(dst[..at]) && dst[at..at + |src|] == src && dst[at + |src|..] == old(dst[at + |src|..])
  {
    forall i | 0 <= i < |src| {
      dst[at + i] := src[i];
    }
  }

  /** When a read succeeds: exactly one frame, no oversized chunk, decodable content, room for three copies. */
  ghost predicate Readable<V(!new)>(chunks: seq<Bytes>, max: nat, decode: Bytes -> Option<V>, inUse: int, limit: int) {
    var stream := Concat(chunks);
    && (forall i :: 0 <= i < |chunks| ==> |chunks[i]| <= max + 4)
    && OneFrame(stream, max)
    && decode(stream[4..]).Some?
    && inUse + 3 * (|stream| - 4) <= limit
  }

  /** The same beside other users of the budget, which hold `others[k]` bytes while chunk `k` is taken. */
  ghost predicate ReadableAmong<V(!new)>(
    chunks: seq<Bytes>, others: seq<nat>, max: nat, decode: Bytes -> Option<V>, limit: int)
  {
    var stream := Concat(chunks);
    && |others| == |chunks|
    && (forall i :: 0 <= i < |chunks| ==> |chunks[i]| <= max + 4)
    && OneFrame(stream, max)
    && decode(stream[4..]).Some?
    && forall k :: 0 <= k < |chunks| ==>
         RoomAt(Concat(chunks[..k]), Concat(chunks[..k + 1]), |stream| - 4, others[k], limit)
  }

  /** What the buffers hold after the bytes received so far. */
  ghost predicate Holds(received: Bytes, header: array<Byte>, headerBytes: nat, body: array<Byte>, bodyBytes: nat)
    reads header, body
  {
    && header.Length == 4 && headerBytes == Min(4, |received|)
    && header[..headerBytes] == received[..headerBytes]
    && bodyBytes <= body.Length && bodyBytes == |received| - headerBytes
    && body[..bodyBytes] == received[headerBytes..]
  }

  /** Takes header bytes from the front of a chunk. */
  method TakeHeader(ghost received: Bytes, header: array<Byte>, headerBytes: nat, chunk: Bytes) returns (taken: nat)
    requires header.Length == 4 && headerBytes == |received| < 4 && header[..headerBytes] == received
    modifies header
    ensures taken == Min(4 - headerBytes, |chunk|)
    ensures header[..headerBytes + taken] == received + chunk[..taken]
  {
    taken := Min(4 - headerBytes, |chunk|);
    CopyInto(header, headerBytes, chunk[..taken]);
    assert header[..headerBytes + taken] == header[..headerBytes] + header[headerBytes..headerBytes + taken];
  }

  /** Takes body bytes from a chunk at an offset. */
  method TakeBody(ghost received: Bytes, body: array<Byte>, bodyBytes: nat, rest: Bytes) returns (taken: nat)
    requires bodyBytes <= body.Length && body[..bodyBytes] == received
    modifies body
    ensures taken == Min(body.Length - bodyBytes, |rest|)
    ensures body[..bodyBytes + taken] == received + rest[..taken]
  {
    taken := Min(body.Length - bodyBytes, |rest|);
    CopyInto(body, bodyBytes, rest[..taken]);
    assert body[..bodyBytes + taken] == body[..bodyBytes] + body[bodyBytes..bodyBytes + taken];
  }

  /** Decodes a complete body under two more reservations, one of them given back after parsing. */
  method DecodeBody<V>(body: Bytes, decode: Bytes -> Option<V>, budget: Budget)
    returns (value: Option<V>, held: Reservation?)
    requires budget.Valid()
    modifies budget
    ensures budget.Valid()
    ensures value.Some? <==> |body| >= 1 && decode(body).Some? && old(budget.bytesInUse) + 2 * |body| <= budget.maxBytes
    ensures value.Some? ==>
      && value == decode(body) && held != null && fresh(held)
      && held.budget == budget && held.bytes == |body| && !held.released
    ensures budget.bytesInUse == old(budget.bytesInUse) + if value.Some? then |body| else 0
  {
    held := budget.Reserve(|body|);
    if held == null { return None, null; }
    var transient := budget.Reserve(|body|);
    if transient == null {
      held.Release();
      return None, null;
    }
    value := decode(body);
    transient.Release();
    if value.None? { held.Release(); }
  }

  ghost predicate HeldFor(r: Reservation?, budget: Budget, n: nat)
    reads r
  {
    r != null && r.budget == budget && r.bytes == n && !r.released
  }

  /** A reservation slot that is empty or still holds bytes of this budget. */
  ghost predicate Slot(r: Reservation?, budget: Budget)
    reads r
  {
    r != null ==> r.budget == budget && r.bytes >= 0 && !r.released
  }

  function SlotBytes(r: Reservation?): int {
    if r == null then 0 else r.bytes
  }

  /**
   * Room in the budget when a chunk takes the stream from `before` to `after`: for the body when the
   * length becomes known, and for two more copies when the frame becomes complete.
   */
  predicate RoomAt(before: Bytes, after: Bytes, n: nat, others: int, limit: int) {
    && (|before| < 4 <= |after| ==> others + n <= limit)
    && (|before| < n + 4 == |after| ==> others + 3 * n <= limit)
  }

  /** When a chunk may be added: still a prefix of one frame whose needs fit beside what others hold now. */
  ghost predicate FeedOk<V(!new)>(
    received: Bytes, chunk: Bytes, max: nat, decode: Bytes -> Option<V>, others: int, limit: int)
  {
    && |chunk| <= max + 4
    && (|received + chunk| >= 4 ==> FitsFrame(received, received + chunk, max, decode, others, limit))
  }

  ghost predicate FitsFrame<V(!new)>(
    received: Bytes, r: Bytes, max: nat, decode: Bytes -> Option<V>, others: int, limit: int)
    requires |r| >= 4
  {
    var n := Length(r[..4]);
    && 1 <= n <= max && |r| <= n + 4 && RoomAt(received, r, n, others, limit)
    && (|received| < n + 4 == |r| ==> decode(r[4..]).Some?)
  }

  /** What a read holds after these bytes of a frame. */
  function HeldAfter(r: Bytes): nat {
    if |r| < 4 then 0 else if |r| < Length(r[..4]) + 4 then Length(r[..4]) else 2 * Length(r[..4])
  }

  /** Others can hold no more than what this read leaves; that decides every refusal the same way. */
  lemma ClampDecides<V(!new)>(
    received: Bytes, chunk: Bytes, max: nat, decode: Bytes -> Option<V>, others: nat, limit: nat)
    requires HeldAfter(received) <= limit
    ensures FeedOk(received, chunk, max, decode, Min(others, limit - HeldAfter(received)), limit) <==>
      FeedOk(received, chunk, max, decode, others, limit)
  {
    if |received| >= 4 { assert (received + chunk)[..4] == received[..4]; }
  }

  /** When the header bytes so far may stand. */
  predicate HeaderOk(h: Bytes, max: nat, others: int, limit: int) {
    |h| == 4 ==> 1 <= Length(h) <= max && others + Length(h) <= limit
  }

  /** When the bytes of a frame with a body of `n` may stand, as long as it was not complete before. */
  ghost predicate BodyOk<V(!new)>(r: Bytes, n: nat, decode: Bytes -> Option<V>, others: int, limit: int)
    requires |r| >= 4
  {
    |r| <= n + 4 && (|r| == n + 4 ==> decode(r[4..]).Some? && others + 3 * n <= limit)
  }

  /** A chunk that begins in the header: the header decides, and past it the body. */
  lemma HeaderThenBody<V(!new)>(
    received: Bytes, chunk: Bytes, offset: nat, max: nat, decode: Bytes -> Option<V>, others: int, limit: int)
    requires |received| < 4 && offset == Min(4 - |received|, |chunk|) && |chunk| <= max + 4
    ensures var h := received + chunk[..offset];
      && (|h| < 4 ==> FeedOk(received, chunk, max, decode, others, limit) && h == received + chunk)
      && (|h| == 4 ==>
            && h + chunk[offset..] == received + chunk
            && (FeedOk(received, chunk, max, decode, others, limit) <==>
                  && HeaderOk(h, max, others, limit)
                  && BodyOk(received + chunk, Length(h), decode, others, limit)))
  {
    var h, r := received + chunk[..offset], received + chunk;
    Cut(received, chunk, offset);
    if |h| == 4 { assert r[..4] == h; }
  }

  /** A chunk that begins in the body. */
  lemma OnlyBody<V(!new)>(
    received: Bytes, chunk: Bytes, max: nat, decode: Bytes -> Option<V>, others: int, limit: int)
    requires 4 <= |received| < Length(received[..4]) + 4 && 1 <= Length(received[..4]) <= max && |chunk| <= max + 4
    ensures FeedOk(received, chunk, max, decode, others, limit) <==>
      BodyOk(received + chunk, Length(received[..4]), decode, others, limit)
  {
    assert (received + chunk)[..4] == received[..4];
  }

  lemma Cut(received: Bytes, chunk: Bytes, offset: nat)
    requires offset <= |chunk|
    ensures received + chunk == received + chunk[..offset] + chunk[offset..]
    ensures offset == |chunk| ==> received + chunk[..offset] == received + chunk
    ensures |received + chunk[..offset]| == 4 ==> (received + chunk)[..4] == received + chunk[..offset]
  {
  }

  /** The local state of one read. */
  class Reader<V(!new)> {
    const max: nat
    const decode: Bytes -> Option<V>
    const budget: Budget
    const header: array<Byte>
    var headerBytes: nat
    var body: array<Byte>
    var bodyBytes: nat
    var value: Option<V>
    var bodyHeld: Reservation?
    var decodedHeld: Reservation?
    ghost var received: Bytes

    /** What this read holds of the budget. */
    function Held(): int
      reads this
    {
      SlotBytes(bodyHeld) + SlotBytes(decodedHeld)
    }

    /** What all others hold of it. */
    ghost function Others(): int
      reads this, budget
    {
      budget.bytesInUse - Held()
    }

    /** Everything this read holds is part of what is in use; the rest is other users'. */
    ghost predicate Accounted()
      reads this, budget, bodyHeld, decodedHeld
    {
      && budget.Valid() && 0 <= Others()
      && Slot(bodyHeld, budget) && Slot(decodedHeld, budget)
      && (bodyHeld != null ==> bodyHeld != decodedHeld)
    }

    ghost predicate Valid()
      reads this, header, body, budget, bodyHeld, decodedHeld
    {
      && header != body && max <= MAX_FRAME
      && Accounted()
      && Holds(received, header, headerBytes, body, bodyBytes)
      && (headerBytes < 4 <==> bodyHeld == null)
      && (value.None? <==> decodedHeld == null)
      && (headerBytes < 4 ==> value.None?)
      && (headerBytes == 4 ==> Started())
    }

    /** Past the header: the length is fixed, the body buffer has it, and its reservation is held. */
    ghost predicate Started()
      reads this, header, body, bodyHeld, decodedHeld
      requires header.Length == 4 && bodyBytes <= body.Length
    {
      var n := body.Length;
      && n == Length(header[..]) && 1 <= n <= max
      && HeldFor(bodyHeld, budget, n)
      && (bodyBytes == n <==> value.Some?)
      && (value.Some? ==> value == decode(body[..]) && HeldFor(decodedHeld, budget, n))
    }

    constructor (max: nat, decode: Bytes -> Option<V>, budget: Budget)
      requires budget.Valid() && 1 <= max <= MAX_FRAME
      ensures Valid() && received == []
      ensures this.max == max && this.decode == decode && this.budget == budget
      ensures bodyHeld == null && decodedHeld == null && fresh(header) && fresh(body)
    {
      this.max, this.decode, this.budget := max, decode, budget;
      header := new Byte[4];
      body := new Byte[0];
      headerBytes, bodyBytes, value := 0, 0, None;
      bodyHeld, decodedHeld := null, null;
      received := [];
    }

    method FeedHeader(chunk: Bytes) returns (ok: bool, offset: nat)
      requires Valid() && headerBytes < 4
      modifies this, header, budget
      ensures offset == Min(4 - old(headerBytes), |chunk|)
      ensures var r := old(received) + chunk[..offset];
        && (ok <==> HeaderOk(r, max, old(Others()), budget.maxBytes))
        && (ok ==> Valid() && received == r && value.None?)
      ensures Accounted() && Others() == old(Others()) && decodedHeld == null
      ensures body == old(body) || fresh(body)
      ensures bodyHeld == old(bodyHeld) || fresh(bodyHeld)
    {
      assert received[..headerBytes] == received;
      offset := TakeHeader(received, header, headerBytes, chunk);
      ghost var r := received + chunk[..offset];
      headerBytes := headerBytes + offset;
      received := r;
      if headerBytes == 4 {
        assert header[..] == header[..4] == r;
        var expected := Length(header[..]);
        if expected < 1 || expected > max { return false, offset; }
        bodyHeld := budget.Reserve(expected);
        if bodyHeld == null { return false, offset; }
        body := new Byte[expected];
      }
      assert header[..headerBytes] == r == r[..headerBytes] && r[headerBytes..] == [];
      ok := true;
    }

    method FeedBody(rest: Bytes) returns (ok: bool)
      requires Valid() && headerBytes == 4 && value.None?
      modifies this, body, budget
      ensures var r := old(received) + rest;
        && (ok <==> BodyOk(r, Length(old(received)[..4]), decode, old(Others()), budget.maxBytes))
        && (ok ==> Valid() && received == r)
      ensures Accounted() && Others() == old(Others()) && body == old(body) && bodyHeld == old(bodyHeld)
      ensures decodedHeld == null || fresh(decodedHeld)
    {
      ghost var r, n := received + rest, body.Length;
      assert header[..] == header[..4] == received[..4];
      var taken := TakeBody(received[4..], body, bodyBytes, rest);
      bodyBytes := bodyBytes + taken;
      if bodyBytes == body.Length {
        if taken != |rest| { return false; }
        assert rest[..taken] == rest && r[4..] == received[4..] + rest == body[..bodyBytes] == body[..];
        var v, held := DecodeBody(body[..], decode, budget);
        if v.None? { return false; }
        value, decodedHeld := v, held;
      }
      assert rest[..taken] == rest && r[4..] == received[4..] + rest && r[..4] == received[..4];
      received := r;
      ok := true;
    }

    /** Takes one chunk, or refuses it exactly when no frame can come of it. */
    method Feed(chunk: Bytes) returns (ok: bool)
      requires Valid()
      modifies this, header, body, budget
      ensures ok <==> FeedOk(old(received), chunk, max, decode, old(Others()), budget.maxBytes)
      ensures ok ==> Valid() && received == old(received) + chunk
      ensures Accounted() && Others() == old(Others())
      ensures body == old(body) || fresh(body)
      ensures bodyHeld == old(bodyHeld) || fresh(bodyHeld)
      ensures decodedHeld == old(decodedHeld) || fresh(decodedHeld)
    {
      if |chunk| > max + 4 { return false; }
      if value.Some? {
        CompleteTakesNothing(chunk);
        return |chunk| == 0;
      }
      ghost var others := Others();
      if headerBytes == 4 {
        assert header[..] == header[..4] == received[..4];
        OnlyBody(received, chunk, max, decode, others, budget.maxBytes);
        ok := FeedBody(chunk);
        return;
      }
      var offset;
      ok, offset := FeedHeader(chunk);
      HeaderThenBody(old(received), chunk, offset, max, decode, others, budget.maxBytes);
      if ok && headerBytes == 4 {
        assert received[..4] == received;
        ok := FeedBody(chunk[offset..]);
      }
    }

    /** Once the frame is complete only an empty chunk may follow. */
    lemma CompleteTakesNothing(chunk: Bytes)
      requires Valid() && value.Some? && |chunk| <= max + 4
      ensures FeedOk(received, chunk, max, decode, Others(), budget.maxBytes) <==> |chunk| == 0
      ensures |chunk| == 0 ==> received + chunk == received
    {
      assert header[..] == header[..4] == received[..4] && body[..] == body[..bodyBytes] == received[4..];
      assert (received + chunk)[..4] == received[..4];
      assert |chunk| == 0 ==> received + chunk == received;
    }

    /** The held bytes follow from the bytes received. */
    lemma HeldIs()
      requires Valid()
      ensures Held() == HeldAfter(received) <= budget.maxBytes
    {
      if headerBytes == 4 { assert header[..] == header[..4] == received[..4]; }
    }

    /** A value is there exactly when the bytes received are one frame, and it is what they decode to. */
    lemma Complete()
      requires Valid()
      ensures value.Some? <==> OneFrame(received, max)
      ensures value.Some? ==> value == decode(received[4..]) && Held() == 2 * (|received| - 4)
    {
      if headerBytes == 4 {
        assert header[..] == header[..4] == received[..4];
        if value.Some? { assert body[..] == body[..bodyBytes] == received[4..]; }
      }
    }

    /** Gives back whatever this read holds. */
    method Release()
      requires Accounted()
      modifies this, budget`bytesInUse, bodyHeld, decodedHeld
      ensures budget.Valid() && budget.bytesInUse == old(Others())
      ensures bodyHeld == null && decodedHeld == null
    {
      if decodedHeld != null { decodedHeld.Release(); }
      if bodyHeld != null { bodyHeld.Release(); }
      bodyHeld, decodedHeld := null, null;
    }
  }

  /** A refused chunk means the whole stream is not one readable frame. */
  lemma RefusedIsUnreadable<V(!new)>(
    chunks: seq<Bytes>, others: seq<nat>, i: nat, max: nat, decode: Bytes -> Option<V>, limit: int)
    requires i < |chunks| == |others|
    ensures !FeedOk(Concat(chunks[..i]), chunks[i], max, decode, others[i], limit) ==>
      !ReadableAmong(chunks, others, max, decode, limit)
  {
    var r, stream := Concat(chunks[..i]) + chunks[i], Concat(chunks);
    ConcatSnoc(chunks[..i], chunks[i]);
    assert chunks[..i + 1] == chunks[..i] + [chunks[i]];
    ConcatPrefix(chunks, i + 1);
    assert r <= stream;
    assert |r| >= 4 ==> r[..4] == stream[..4];
    assert |r| == |stream| ==> r == stream;
  }

  /** Every chunk so far was taken. */
  ghost predicate Taken<V(!new)>(
    chunks: seq<Bytes>, others: seq<nat>, n: nat, max: nat, decode: Bytes -> Option<V>, limit: int)
    requires n <= |chunks| == |others|
  {
    forall i :: 0 <= i < n ==> FeedOk(Concat(chunks[..i]), chunks[i], max, decode, others[i], limit)
  }

  /** Chunks that were all taken and end in a complete frame are readable. */
  lemma TakenIsReadable<V(!new)>(
    chunks: seq<Bytes>, others: seq<nat>, max: nat, decode: Bytes -> Option<V>, limit: int)
    requires |others| == |chunks| && Taken(chunks, others, |chunks|, max, decode, limit)
    requires OneFrame(Concat(chunks), max) && decode(Concat(chunks)[4..]).Some?
    ensures ReadableAmong(chunks, others, max, decode, limit)
  {
    forall k | 0 <= k < |chunks|
      ensures |chunks[k]| <= max + 4
      ensures RoomAt(Concat(chunks[..k]), Concat(chunks[..k + 1]), |Concat(chunks)| - 4, others[k], limit)
    {
      assert FeedOk(Concat(chunks[..k]), chunks[k], max, decode, others[k], limit);
      TakenHadRoom(chunks, k, max, decode, others[k], limit);
    }
  }

  lemma TakenHadRoom<V(!new)>(
    chunks: seq<Bytes>, k: nat, max: nat, decode: Bytes -> Option<V>, others: int, limit: int)
    requires k < |chunks| && OneFrame(Concat(chunks), max)
    requires FeedOk(Concat(chunks[..k]), chunks[k], max, decode, others, limit)
    ensures |chunks[k]| <= max + 4
    ensures RoomAt(Concat(chunks[..k]), Concat(chunks[..k + 1]), |Concat(chunks)| - 4, others, limit)
  {
    var stream, r := Concat(chunks), Concat(chunks[..k]) + chunks[k];
    ConcatSnoc(chunks[..k], chunks[k]);
    assert chunks[..k + 1] == chunks[..k] + [chunks[k]];
    ConcatPrefix(chunks, k + 1);
    assert |r| >= 4 ==> r[..4] == stream[..4];
  }

  /** What other users of the budget do between two chunks: afterwards they hold `n` bytes, or all that is left. */
  method OtherUsers(budget: Budget, held: int, n: nat)
    requires budget.Valid() && 0 <= held <= budget.bytesInUse
    modifies budget
    ensures budget.Valid() && budget.bytesInUse == held + Min(n, budget.maxBytes - held)
  {
    budget.bytesInUse := held + Min(n, budget.maxBytes - held);
    budget.peak := Max(budget.peak, budget.bytesInUse);
  }

  /** What others hold while chunk `i` is taken: what they want, or all that this read leaves. */
  function OthersAt(chunks: seq<Bytes>, others: seq<nat>, i: nat, limit: int): int
    requires i < |chunks| == |others|
  {
    Min(others[i], limit - HeldAfter(Concat(chunks[..i])))
  }

  /** Other users do what they do, then the reader takes the next chunk. */
  method TakeChunk<V(!new)>(reader: Reader<V>, chunks: seq<Bytes>, others: seq<nat>, i: nat) returns (ok: bool)
    requires reader.Valid() && i < |chunks| == |others| && reader.received == Concat(chunks[..i])
    modifies reader, reader.header, reader.body, reader.budget
    ensures ok <==>
      FeedOk(Concat(chunks[..i]), chunks[i], reader.max, reader.decode, others[i], reader.budget.maxBytes)
    ensures ok ==> reader.Valid() && reader.received == Concat(chunks[..i + 1])
    ensures reader.Accounted()
    ensures reader.Others() == OthersAt(chunks, others, i, reader.budget.maxBytes)
    ensures reader.body == old(reader.body) || fresh(reader.body)
    ensures reader.bodyHeld == old(reader.bodyHeld) || fresh(reader.bodyHeld)
    ensures reader.decodedHeld == old(reader.decodedHeld) || fresh(reader.decodedHeld)
  {
    reader.HeldIs();
    ClampDecides(reader.received, chunks[i], reader.max, reader.decode, others[i], reader.budget.maxBytes);
    OtherUsers(reader.budget, reader.Held(), others[i]);
    ConcatSnoc(chunks[..i], chunks[i]);
    assert chunks[..i + 1] == chunks[..i] + [chunks[i]];
    ok := reader.Feed(chunks[i]);
  }

  /**
   * Main result: however a stream is cut into chunks, and whatever other users hold of the budget at each
   * of them, a read succeeds exactly on one readable frame and yields its body. A failed read holds
   * nothing; a successful one holds two frame lengths until released.
   */
  method ReadFrameRetained<V(!new)>(
    chunks: seq<Bytes>, others: seq<nat>, max: nat, decode: Bytes -> Option<V>, budget: Budget)
    returns (value: Option<V>, reader: Reader<V>, ghost at: nat)
    requires budget.Valid() && 1 <= max <= MAX_FRAME && |others| == |chunks|
    modifies budget
    ensures value.Some? <==> ReadableAmong(chunks, others, max, decode, budget.maxBytes)
    ensures value.Some? ==> value == decode(Concat(chunks)[4..])
    ensures fresh(reader) && reader.budget == budget && reader.Accounted()
    ensures reader.Held() == if value.Some? then 2 * (|Concat(chunks)| - 4) else 0
    ensures if chunks == [] then budget.bytesInUse == old(budget.bytesInUse) else
      && at < |chunks| && Taken(chunks, others, at, max, decode, budget.maxBytes)
      && reader.Others() == OthersAt(chunks, others, at, budget.maxBytes)
    ensures fresh({reader.bodyHeld, reader.decodedHeld} - {null})
  {
    reader := new Reader(max, decode, budget);
    at := 0;
    var i := 0;
    while i < |chunks|
      invariant 0 <= i <= |chunks| && reader.Valid() && reader.received == Concat(chunks[..i])
      invariant Taken(chunks, others, i, max, decode, budget.maxBytes)
      invariant i == 0 ==> budget.bytesInUse == old(budget.bytesInUse)
      invariant i > 0 ==>
        at == i - 1 && reader.Others() == OthersAt(chunks, others, at, budget.maxBytes)
      invariant fresh(reader.header) && fresh(reader.body)
      invariant fresh({reader.bodyHeld, reader.decodedHeld} - {null})
    {
      at := i;
      var ok := TakeChunk(reader, chunks, others, i);
      if !ok {
        RefusedIsUnreadable(chunks, others, i, max, decode, budget.maxBytes);
        reader.Release();
        return None, reader, at;
      }
      i := i + 1;
    }
    assert chunks[..|chunks|] == chunks;
    value := reader.value;
    reader.Complete();
    if value.None? {
      reader.Release();
    } else {
      TakenIsReadable(chunks, others, max, decode, budget.maxBytes);
    }
  }

  /** When nobody else uses the budget meanwhile, the room needed is that of three copies. */
  lemma AloneIsReadable<V(!new)>(
    chunks: seq<Bytes>, others: seq<nat>, max: nat, decode: Bytes -> Option<V>, inUse: nat, limit: int)
    requires |others| == |chunks| && forall k :: 0 <= k < |others| ==> others[k] == inUse
    ensures ReadableAmong(chunks, others, max, decode, limit) <==> Readable(chunks, max, decode, inUse, limit)
  {
    var stream := Concat(chunks);
    if OneFrame(stream, max) {
      var k := CompletingChunk(chunks);
      assert RoomAt(Concat(chunks[..k]), Concat(chunks[..k + 1]), |stream| - 4, others[k], limit) ==>
        inUse + 3 * (|stream| - 4) <= limit;
    }
  }

  /** The chunk that completes a non-empty stream. */
  lemma {:induction false} CompletingChunk(chunks: seq<Bytes>) returns (k: nat)
    requires Concat(chunks) != []
    ensures k < |chunks| && |Concat(chunks[..k])| < |Concat(chunks)| == |Concat(chunks[..k + 1])|
    decreases |chunks|
  {
    var n := |chunks| - 1;
    assert chunks[..n + 1] == chunks;
    if chunks[n] == [] {
      k := CompletingChunk(chunks[..n]);
      assert chunks[..n][..k] == chunks[..k] && chunks[..n][..k + 1] == chunks[..k + 1];
    } else {
      k := n;
    }
  }

  /** What a lone read holds always fits beside what was in use. */
  lemma {:induction false} AloneFits<V(!new)>(
    chunks: seq<Bytes>, others: seq<nat>, n: nat, max: nat, decode: Bytes -> Option<V>, inUse: nat, limit: int)
    requires n <= |others| == |chunks| && (forall k :: 0 <= k < |others| ==> others[k] == inUse) && inUse <= limit
    requires Taken(chunks, others, n, max, decode, limit)
    ensures inUse + HeldAfter(Concat(chunks[..n])) <= limit
    decreases n
  {
    if n > 0 {
      var before, chunk := Concat(chunks[..n - 1]), chunks[n - 1];
      AloneFits(chunks, others, n - 1, max, decode, inUse, limit);
      assert FeedOk(before, chunk, max, decode, others[n - 1], limit);
      ConcatSnoc(chunks[..n - 1], chunk);
      assert chunks[..n] == chunks[..n - 1] + [chunk];
      if |before| >= 4 { assert (before + chunk)[..4] == before[..4]; }
    }
  }

  /** Reads alone and lets go: the budget is back where it started on every path. */
  method ReadFrame<V(!new)>(chunks: seq<Bytes>, max: nat, decode: Bytes -> Option<V>, budget: Budget)
    returns (value: Option<V>)
    requires budget.Valid() && 1 <= max <= MAX_FRAME
    modifies budget
    ensures value.Some? <==> Readable(chunks, max, decode, old(budget.bytesInUse), budget.maxBytes)
    ensures value.Some? ==> value == decode(Concat(chunks)[4..])
    ensures budget.Valid() && budget.bytesInUse == old(budget.bytesInUse)
  {
    var inUse: nat := budget.bytesInUse;
    var others: seq<nat> := seq(|chunks|, _ => inUse);
    AloneIsReadable(chunks, others, max, decode, inUse, budget.maxBytes);
    var reader;
    ghost var at;
    value, reader, at := ReadFrameRetained(chunks, others, max, decode, budget);
    if chunks != [] { AloneFits(chunks, others, at, max, decode, inUse, budget.maxBytes); }
    reader.Release();
  }

  /** Main result: a written frame, re-cut into any chunks within the limit, is read back as written. */
  lemma RoundTrip<V(!new)>(body: Bytes, chunks: seq<Bytes>, max: nat, decode: Bytes -> Option<V>, inUse: int,
                    limit: int)
    requires 1 <= |body| <= max <= MAX_FRAME && Concat(chunks) == Frame(body)
    requires forall i :: 0 <= i < |chunks| ==> |chunks[i]| <= max + 4
    ensures Concat(chunks)[4..] == body
    ensures Readable(chunks, max, decode, inUse, limit) <==> decode(body).Some? && inUse + 3 * |body| <= limit
  {
    assert Frame(body)[..4] == Header(|body|) && Frame(body)[4..] == body;
  }
}
