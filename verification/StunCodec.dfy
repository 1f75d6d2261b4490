/**
 STUN and TURN messages on the wire (sections 6, 15 and 15.4 of RFC 5389): a
 20-byte header, then attributes padded to four bytes, read back with a cursor.
 */
module StunCodec {
  import opened Bytes
  import opened Bits
  import opened Endian
  import opened Options

  datatype Mode = Rfc3489 | Rfc5389 | Rfc8489

  datatype Attr = Attr(code: Buf, data: Buf)

  const TYPE_MASK: Buf := [0x3F, 0xFF]
  const STUN_MAGIC_COOKIE: Buf := [0x21, 0x12, 0xA4, 0x42]
  const MESSAGE_INTEGRITY: Buf := [0, 8]

  // ------------------------------------------------------------------
  // Writing
  // ------------------------------------------------------------------

  function Padding(n: nat): (p: nat)
    ensures (n + p) % 4 == 0 && p < 4
  {
    if n % 4 != 0 then 4 - n % 4 else 0
  }

  /** A big-endian 16-bit field. */
  function U16(n: nat): (b: Buf)
    requires n < 0x10000
    ensures |b| == 2
  {
    [n / 256, n % 256]
  }

  lemma U16RoundTrip(n: nat)
    requires n < 0x10000
    ensures FromBig(U16(n)) == n
  {
    var b := U16(n);
    assert b[..1] == [n / 256] && [n / 256][..0] == [];
    assert FromBig([n / 256]) == n / 256;
  }

  predicate Writable(a: Attr) {
    |a.code| == 2 && |a.data| < 0x10000
  }

  predicate AllWritable(attrs: seq<Attr>) {
    forall i :: 0 <= i < |attrs| ==> Writable(attrs[i])
  }

  function AttrBuf(a: Attr): Buf
    requires |a.data| < 0x10000
  {
    a.code + U16(|a.data|) + a.data + Zeros(Padding(|a.data|))
  }

  /** The attributes one after another. */
  function Body(attrs: seq<Attr>): Buf
    requires AllWritable(attrs)
  {
    if |attrs| == 0 then [] else AttrBuf(attrs[0]) + Body(attrs[1..])
  }

  /** An attribute as written (section 15 of RFC 5389): type, length of the value, value, and zeros up to a
      multiple of four. */
  lemma AttributeBytes(a: Attr)
    requires Writable(a)
    ensures var b, end := AttrBuf(a), 4 + |a.data|;
            && |b| % 4 == 0 && end <= |b| < end + 4
            && b[..2] == a.code && 256 * b[2] as int + b[3] == |a.data| && b[4..end] == a.data
            && forall k :: end <= k < |b| ==> b[k] == 0
  {
    var b := AttrBuf(a);
    assert b == a.code + U16(|a.data|) + a.data + Zeros(Padding(|a.data|));
  }

  lemma {:induction false} BodyAppend(attrs: seq<Attr>, a: Attr)
    requires Writable(a) && AllWritable(attrs)
    ensures Body(attrs + [a]) == Body(attrs) + AttrBuf(a)
  {
    if |attrs| == 0 {
      assert attrs + [a] == [a] && [a][1..] == [];
    } else {
      assert (attrs + [a])[1..] == attrs[1..] + [a];
      BodyAppend(attrs[1..], a);
    }
  }

  lemma {:induction false} BodyAligned(attrs: seq<Attr>)
    requires AllWritable(attrs)
    ensures |Body(attrs)| % 4 == 0
    ensures |attrs| > 0 ==> |Body(attrs)| >= 4
  {
    if |attrs| == 0 {
    } else {
      BodyAligned(attrs[1..]);
      AttrAligned(attrs[0]);
      SumAligned(|AttrBuf(attrs[0])|, |Body(attrs[1..])|);
    }
  }

  lemma AttrAligned(a: Attr)
    requires Writable(a)
    ensures |AttrBuf(a)| % 4 == 0 && |AttrBuf(a)| >= 4
  {
    var n := |a.data|;
    assert |AttrBuf(a)| == (n + Padding(n)) + 4;
    SumAligned(n + Padding(n), 4);
  }

  lemma SumAligned(x: nat, y: nat)
    requires x % 4 == 0 && y % 4 == 0
    ensures (x + y) % 4 == 0
  {
  }

  /** From RFC 5389 on the type field mixes the method and class bits. */
  function TypeField(mode: Mode, msgType: Buf, msgCode: Buf): Buf {
    if mode.Rfc3489? then msgType else AndBufs(OrBufs(msgType, msgCode), TYPE_MASK)
  }

  /** What the type field carries: the type alone before RFC 5389, the two low-bit groups mixed since. */
  predicate TypeCarried(mode: Mode, msgType: Buf, msgCode: Buf, field: Buf) {
    && (mode.Rfc3489? ==> field == msgType)
    && (!mode.Rfc3489? && |msgType| == |msgCode| == 2 ==>
          && |field| == 2
          && field[0] == Or(msgType[0], msgCode[0]) % 64
          && field[1] == Or(msgType[1], msgCode[1])
          && (MethodAndClass(msgType, msgCode) ==>
                AndBufs(field, METHOD_MASK) == msgType && AndBufs(field, STATUS_MASK) == msgCode))
  }

  lemma TypeFieldCarries(mode: Mode, msgType: Buf, msgCode: Buf)
    ensures TypeCarried(mode, msgType, msgCode, TypeField(mode, msgType, msgCode))
  {
    if !mode.Rfc3489? && |msgType| == |msgCode| == 2 {
      MaskedByte(OrByte(msgType[0], msgCode[0]));
      MaskedByte(OrByte(msgType[1], msgCode[1]));
      if MethodAndClass(msgType, msgCode) {
        assert msgType == [0, msgType[1]] && msgCode == [msgCode[0], msgCode[1]];
        TypeBitsSeparate(mode, msgType[1], msgCode[0], msgCode[1]);
      }
    }
  }

  /** The two bytes of the mask on a byte of the field. */
  lemma MaskedByte(x: Byte)
    ensures And(x, 0x3F) == x % 64 && And(x, 0xFF) == x
  {
    var h, l := x / 16, x % 16;
    assert x == 16 * h + l;
    MaskedNibbles(x, h, l);
    Modulo64(x, h, l);
  }

  lemma Modulo64(x: nat, h: nat, l: nat)
    requires x == 16 * h + l && l < 16
    ensures x % 64 == 16 * (h % 4) + l
  {
    assert x == 64 * (h / 4) + (16 * (h % 4) + l);
  }

  lemma MaskedNibbles(x: nat, h: nat, l: nat)
    requires x == 16 * h + l && h < 16 && l < 16
    ensures And(x, 0x3F) == 16 * (h % 4) + l && And(x, 0xFF) == x
  {
    assert Pow2(4) == 16;
    AndOnes(l, 4);
    AndOnes(h, 4);
    LowTwo(h);
    NibbleMask(h, l, 3, 15);
    NibbleMask(h, l, 15, 15);
  }

  lemma LowTwo(h: nat)
    ensures And(h, 3) == h % 4
  {
    AndStep(h, 3);
    AndStep(h / 2, 1);
    assert And(h / 4, 0) == 0;
  }

  /** A method below sixteen and one of the four classes. */
  predicate MethodAndClass(msgType: Buf, msgCode: Buf) {
    && |msgType| == |msgCode| == 2 && msgType[0] == 0 && msgType[1] < 16
    && (msgCode[0] == 0 || msgCode[0] == 1) && (msgCode[1] == 0 || msgCode[1] == 16)
  }

  /** None where the length does not fit its field. */
  function Packed(mode: Mode, msgType: Buf, msgCode: Buf, msgLen: int, cookie: Buf, txnId: Buf, msg: Buf): Option<Buf> {
    if 0 <= msgLen < 0x10000
    then Some(TypeField(mode, msgType, msgCode) + U16(msgLen) + cookie + txnId + msg)
    else None
  }

  // ------------------------------------------------------------------
  // Reading
  // ------------------------------------------------------------------

  /** What one read_attr does at a cursor: no room for a header, a length past the end, or an
      attribute (an empty value has no data) and the next cursor. */
  datatype Read = NoHeader | BadLength | Got(code: Buf, data: Option<Buf>, next: nat)

  function ReadAt(msg: Buf, cursor: nat): (r: Read)
    ensures r.Got? ==> r.next >= cursor + 4 && cursor + 4 <= |msg|
    ensures r.Got? && cursor % 4 == 0 ==> r.next % 4 == 0
  {
    if |msg| > 0 && cursor + 3 <= |msg| - 1 then
      var code := msg[cursor..cursor + 2];
      var n := FromBig(msg[cursor + 2..cursor + 4]);
      var at := cursor + 4;
      if n == 0 then Got(code, None, at)
      else if at + (n - 1) <= |msg| - 1 then Got(code, Some(msg[at..at + n]), at + n + Padding(n))
      else BadLength
    else NoHeader
  }

  datatype Scanned = Scanned(code: Buf, data: Option<Buf>)

  /** How a scan to eof ends.  Stuck: fewer than four bytes remain but eof is not reached, so the
      cursor no longer moves. */
  datatype ScanEnd = AtEof | BadAttr | Stuck

  predicate Eof(cursor: int, msgLen: int) {
    cursor >= msgLen - 1
  }

  datatype ScanResult = ScanResult(attrs: seq<Scanned>, end: ScanEnd)

  function Before(attrs: seq<Scanned>, rest: ScanResult): ScanResult {
    ScanResult(attrs + rest.attrs, rest.end)
  }

  function Scan(msg: Buf, msgLen: int, cursor: nat): ScanResult
    decreases |msg| - cursor
  {
    if Eof(cursor, msgLen) then ScanResult([], AtEof)
    else
      match ReadAt(msg, cursor)
      case NoHeader => ScanResult([], Stuck)
      case BadLength => ScanResult([], BadAttr)
      case Got(code, data, next) => Before([Scanned(code, data)], Scan(msg, msgLen, next))
  }

  /** What decode makes of a buffer. */
  datatype Parsed =
    | TooShort
    | Parsed(msgType: Buf, msgLen: nat, cookie: Buf, txnId: Buf, body: Option<Buf>, rest: Buf)
    | Truncated

  function Parse(buf: Buf): Parsed {
    if |buf| < 20 then TooShort
    else
      var n := FromBig(buf[2..4]);
      if n == 0 then Parsed(buf[0..2], 0, buf[4..8], buf[8..20], None, [])
      else if 20 + (n - 1) <= |buf| - 1
      then Parsed(buf[0..2], n, buf[4..8], buf[8..20], Some(buf[20..20 + n]), buf[20 + n..])
      else Truncated
  }

  // ------------------------------------------------------------------
  // The message object
  // ------------------------------------------------------------------

  class STUNMsg {
    const mode: Mode
    var msgType: Buf
    var msgCode: Buf
    var msgLen: int
    var txnId: Buf
    var magicCookie: Buf
    var msg: Buf
    var attrCursor: nat
    /** What has been written since the message was created. */
    ghost var attrs: seq<Attr>

    /** The body is the attributes written, and the length counts it. */
    ghost predicate Built()
      reads this
    {
      AllWritable(attrs) && msg == Body(attrs) && msgLen == |msg|
    }

    /** The header fields have their sizes. */
    predicate Framed()
      reads this
    {
      |msgType| == 2 && |msgCode| == 2 && |magicCookie| == 4 && |txnId| == 12
    }

    /** `txnId` is the random transaction id. */
    constructor (mode: Mode, msgType: Buf, msgCode: Buf, txnId: Buf)
      ensures this.mode == mode && this.msgType == msgType && this.msgCode == msgCode && this.txnId == txnId
      ensures msgLen == 0 && msg == [] && attrCursor == 0 && Built() && attrs == []
      ensures magicCookie == if mode.Rfc3489? then [0x31, 0x32, 0x33, 0x34] else STUN_MAGIC_COOKIE
    {
      this.mode, this.msgType, this.msgCode, this.txnId := mode, msgType, msgCode, txnId;
      msgLen, msg, attrCursor, attrs := 0, [], 0, [];
      magicCookie := if mode.Rfc3489? then [0x31, 0x32, 0x33, 0x34] else STUN_MAGIC_COOKIE;
    }

    method WriteAttr(code: Buf, data: Buf) returns (ok: bool)
      modifies this`msgLen, this`msg, this`attrs
      ensures ok <==> |data| < 0x10000
      ensures attrs == if ok then old(attrs) + [Attr(code, data)] else old(attrs)
      ensures old(Built()) && (ok ==> |code| == 2) ==> Built()
      ensures ok ==> msg == old(msg) + AttrBuf(Attr(code, data)) && msgLen == old(msgLen) + |AttrBuf(Attr(code, data))|
      ensures !ok ==> msg == old(msg) && msgLen == old(msgLen)
    {
      var padding: Buf := [];
      if |data| % 4 != 0 {
        padding := Zeros(4 - |data| % 4);
      }
      if |data| >= 0x10000 {
        return false;
      }
      var buf := code + U16(|data|) + data + padding;
      assert buf == AttrBuf(Attr(code, data));
      if AllWritable(attrs) && |code| == 2 {
        BodyAppend(attrs, Attr(code, data));
      }
      msgLen := msgLen + |buf|;
      msg := msg + buf;
      attrs := attrs + [Attr(code, data)];
      ok := true;
    }

    /** A message built here reads back as the attributes written. */
    method Pack() returns (r: Option<Buf>)
      ensures r == Packed(mode, msgType, msgCode, msgLen, magicCookie, txnId, msg)
      ensures r.Some? && Framed() ==> |r.value| >= 20 && TypeCarried(mode, msgType, msgCode, r.value[..2])
      ensures r.Some? && Framed() ==> r.value[2] == msgLen / 256 && r.value[3] == msgLen % 256
      ensures r.Some? && Framed() ==> r.value[4..8] == magicCookie && r.value[8..20] == txnId && r.value[20..] == msg
      ensures Built() && Framed() ==> (r.Some? <==> |Body(attrs)| < 0x10000)
      ensures Built() && Framed() && r.Some? ==>
                forall after: Buf :: ReadsBack(mode, msgType, msgCode, magicCookie, txnId, attrs, r.value, after)
    {
      if Built() && Framed() && |Body(attrs)| < 0x10000 {
        forall after: Buf
          ensures ReadsBack(mode, msgType, msgCode, magicCookie, txnId, attrs,
                            Packed(mode, msgType, msgCode, msgLen, magicCookie, txnId, msg).value, after)
        {
          RoundTrip(mode, msgType, msgCode, magicCookie, txnId, attrs, after);
        }
      }
      if msgLen < 0 || msgLen >= 0x10000 {
        return None;
      }
      var field := TypeField(mode, msgType, msgCode);
      TypeFieldCarries(mode, msgType, msgCode);
      r := Some(field + U16(msgLen) + magicCookie + txnId + msg);
      assert Framed() ==> r.value[..2] == field && r.value[2..4] == U16(msgLen) && r.value[4..8] == magicCookie;
      assert Framed() ==> r.value[8..20] == txnId && r.value[20..] == msg;
    }

    /** MESSAGE-INTEGRITY.  A message too long for the extra attribute keeps the enlarged length. */
    method WriteHmac(key: Buf, hmac: (Buf, Buf) -> Buf) returns (ghost hashed: Option<Buf>, ok: bool)
      requires forall k: Buf, m: Buf :: |hmac(k, m)| == 20
      modifies this`msgLen, this`msg, this`attrs
      ensures hashed == Packed(mode, msgType, msgCode, old(msgLen) + 24, magicCookie, txnId, old(msg))
      ensures ok <==> hashed.Some?
      ensures ok ==> msg == old(msg) + AttrBuf(Attr(MESSAGE_INTEGRITY, hmac(key, hashed.value)))
      ensures ok ==> |msg| == |old(msg)| + 24
                     && attrs == old(attrs) + [Attr(MESSAGE_INTEGRITY, hmac(key, hashed.value))]
      ensures ok ==> Packed(mode, msgType, msgCode, msgLen, magicCookie, txnId, msg)
                     == Some(hashed.value + AttrBuf(Attr(MESSAGE_INTEGRITY, hmac(key, hashed.value))))
      ensures ok && old(Built()) ==> Built()
      ensures !ok ==> msg == old(msg) && attrs == old(attrs)
      ensures msgLen == old(msgLen) + 24
    {
      msgLen := msgLen + 24;
      var packed := Pack();
      hashed := packed;
      if packed.None? {
        return packed, false;
      }
      msgLen := msgLen - 24;
      ghost var before := msg;
      ok := WriteAttr(MESSAGE_INTEGRITY, hmac(key, packed.value));
      ghost var head := TypeField(mode, msgType, msgCode) + U16(msgLen) + magicCookie + txnId;
      assert head + (before + AttrBuf(attrs[|attrs| - 1])) == head + before + AttrBuf(attrs[|attrs| - 1]);
    }

    method ReadAttr() returns (r: Read)
      modifies this`attrCursor
      ensures r == ReadAt(msg, old(attrCursor))
      ensures attrCursor == match r
                            case NoHeader => old(attrCursor)
                            case BadLength => old(attrCursor) + 4
                            case Got(_, _, next) => next
    {
      if |msg| > 0 && attrCursor + 3 <= |msg| - 1 {
        var hdr := msg[attrCursor..attrCursor + 4];
        assert hdr[0..2] == msg[attrCursor..attrCursor + 2] && hdr[2..4] == msg[attrCursor + 2..attrCursor + 4];
        var code := hdr[0..2];
        var n := FromBig(hdr[2..4]);
        attrCursor := attrCursor + 4;
        if n == 0 {
          return Got(code, None, attrCursor);
        }
        if attrCursor + (n - 1) <= |msg| - 1 {
          var data := msg[attrCursor..attrCursor + n];
          var pad := if n % 4 != 0 then 4 - n % 4 else 0;
          attrCursor := attrCursor + (n + pad);
          return Got(code, Some(data), attrCursor);
        }
        return BadLength;
      }
      r := NoHeader;
    }

    /** Fields as in Parse; a truncated buffer raises after the header fields were set. */
    method Decode(buf: Buf) returns (ok: bool, rest: Option<Buf>)
      modifies this
      ensures ok <==> !Parse(buf).Truncated?
      ensures attrCursor == 0 && msgCode == old(msgCode)
      ensures Parse(buf).TooShort? ==> rest.None? && msgType == old(msgType) && msgLen == old(msgLen)
                                       && magicCookie == old(magicCookie) && txnId == old(txnId) && msg == old(msg)
      ensures Parse(buf).Parsed? ==>
                var p := Parse(buf);
                && (msgType, msgLen, magicCookie, txnId) == (p.msgType, p.msgLen, p.cookie, p.txnId)
                && msg == (if p.body.Some? then p.body.value else old(msg))
                && rest == (if p.body.Some? then Some(p.rest) else None)
      ensures Parse(buf).Truncated? ==>
                && (msgType, msgLen, magicCookie, txnId) == (buf[0..2], FromBig(buf[2..4]), buf[4..8], buf[8..20])
                && msg == old(msg)
    {
      attrCursor := 0;
      if |buf| < 20 {
        return true, None;
      }
      msgType := buf[0..2];
      msgLen := FromBig(buf[2..4]);
      magicCookie := buf[4..8];
      txnId := buf[8..20];
      if msgLen == 0 {
        return true, None;
      }
      if 20 + (msgLen - 1) <= |buf| - 1 {
        msg := buf[20..20 + msgLen];
        return true, Some(buf[20 + msgLen..]);
      }
      ok, rest := false, None;
    }
  }

  // ------------------------------------------------------------------
  // Round trip
  // ------------------------------------------------------------------

  /** How an attribute reads back. */
  function Reading(a: Attr): Scanned {
    Scanned(a.code, if a.data == [] then None else Some(a.data))
  }

  function Readings(attrs: seq<Attr>): seq<Scanned> {
    if |attrs| == 0 then [] else [Reading(attrs[0])] + Readings(attrs[1..])
  }

  /** The bytes of `b` stand in `msg` at `cursor`. */
  predicate Holds(msg: Buf, cursor: nat, b: Buf) {
    cursor + |b| <= |msg| && msg[cursor..cursor + |b|] == b
  }

  lemma HoldsParts(msg: Buf, cursor: nat, b: Buf, c: Buf)
    requires Holds(msg, cursor, b + c)
    ensures Holds(msg, cursor, b) && Holds(msg, cursor + |b|, c)
  {
    var whole := msg[cursor..cursor + |b + c|];
    assert whole[..|b|] == b && whole[|b|..] == c;
    assert msg[cursor..cursor + |b|] == whole[..|b|];
    assert msg[cursor + |b|..cursor + |b| + |c|] == whole[|b|..];
  }

  lemma ReadWritten(msg: Buf, cursor: nat, a: Attr)
    requires Writable(a) && Holds(msg, cursor, AttrBuf(a))
    ensures ReadAt(msg, cursor) == Got(a.code, Reading(a).data, cursor + |AttrBuf(a)|)
  {
    var n := |a.data|;
    var zeros := Zeros(Padding(n));
    HoldsParts(msg, cursor, a.code + U16(n) + a.data, zeros);
    HoldsParts(msg, cursor, a.code + U16(n), a.data);
    HoldsParts(msg, cursor, a.code, U16(n));
    U16RoundTrip(n);
  }

  lemma ScanOne(msg: Buf, cursor: nat, a: Attr)
    requires Writable(a) && Holds(msg, cursor, AttrBuf(a))
    ensures Scan(msg, |msg|, cursor) == Before([Reading(a)], Scan(msg, |msg|, cursor + |AttrBuf(a)|))
  {
    ReadWritten(msg, cursor, a);
  }

  /** The written forms of the attributes stand one after another from the cursor up to `end`. */
  predicate Laid(msg: Buf, cursor: nat, attrs: seq<Attr>, end: nat)
    requires AllWritable(attrs)
    decreases |attrs|
  {
    if |attrs| == 0 then cursor == end
    else Holds(msg, cursor, AttrBuf(attrs[0])) && Laid(msg, cursor + |AttrBuf(attrs[0])|, attrs[1..], end)
  }

  lemma {:induction false} BodyIsLaid(msg: Buf, cursor: nat, attrs: seq<Attr>)
    requires AllWritable(attrs) && Holds(msg, cursor, Body(attrs))
    ensures Laid(msg, cursor, attrs, cursor + |Body(attrs)|)
    decreases |attrs|
  {
    if |attrs| == 0 {
    } else {
      HoldsParts(msg, cursor, AttrBuf(attrs[0]), Body(attrs[1..]));
      BodyIsLaid(msg, cursor + |AttrBuf(attrs[0])|, attrs[1..]);
    }
  }

  /** A scan reads the written attributes in turn and then carries on behind them. */
  lemma {:induction false} ScanPast(msg: Buf, cursor: nat, attrs: seq<Attr>, end: nat)
    requires AllWritable(attrs) && Laid(msg, cursor, attrs, end)
    ensures Scan(msg, |msg|, cursor) == Before(Readings(attrs), Scan(msg, |msg|, end))
    decreases |attrs|
  {
    if |attrs| == 0 {
      BeforeNothing(Scan(msg, |msg|, cursor));
    } else {
      var next := cursor + |AttrBuf(attrs[0])|;
      ScanOne(msg, cursor, attrs[0]);
      ScanPast(msg, next, attrs[1..], end);
      BeforeTwice([Reading(attrs[0])], Readings(attrs[1..]), Scan(msg, |msg|, end));
    }
  }

  lemma BeforeNothing(r: ScanResult)
    ensures Before([], r) == r
  {
    assert [] + r.attrs == r.attrs;
  }

  lemma BeforeTwice(x: seq<Scanned>, y: seq<Scanned>, r: ScanResult)
    ensures Before(x, Before(y, r)) == Before(x + y, r)
  {
    assert x + (y + r.attrs) == (x + y) + r.attrs;
  }

  lemma ScanWritten(attrs: seq<Attr>)
    requires AllWritable(attrs)
    ensures Scan(Body(attrs), |Body(attrs)|, 0) == ScanResult(Readings(attrs), AtEof)
  {
    BodyIsLaid(Body(attrs), 0, attrs);
    ScanPast(Body(attrs), 0, attrs, |Body(attrs)|);
    assert Readings(attrs) + [] == Readings(attrs);
  }

  lemma ParsePacked(mode: Mode, msgType: Buf, msgCode: Buf, cookie: Buf, txnId: Buf, body: Buf, after: Buf)
    requires |msgType| == |msgCode| == 2 && |cookie| == 4 && |txnId| == 12 && |body| < 0x10000
    ensures var sent := Packed(mode, msgType, msgCode, |body|, cookie, txnId, body);
            && sent.Some?
            && Parse(sent.value + after)
               == Parsed(TypeField(mode, msgType, msgCode), |body|, cookie, txnId,
                         if body == [] then None else Some(body), if body == [] then [] else after)
  {
    var head := TypeField(mode, msgType, msgCode) + U16(|body|) + cookie + txnId;
    var buf := Packed(mode, msgType, msgCode, |body|, cookie, txnId, body).value + after;
    assert |head| == 20;
    assert buf == head + (body + after);
    assert buf[0..2] == head[0..2] == TypeField(mode, msgType, msgCode);
    assert buf[2..4] == head[2..4] == U16(|body|);
    assert buf[4..8] == head[4..8] == cookie;
    assert buf[8..20] == head[8..20] == txnId;
    U16RoundTrip(|body|);
    assert buf[20..20 + |body|] == body && buf[20 + |body|..] == after;
  }

  /** A packed message, whatever follows it, decodes to its header fields and scans to its attributes. */
  predicate ReadsBack(mode: Mode, msgType: Buf, msgCode: Buf, cookie: Buf, txnId: Buf, attrs: seq<Attr>,
                      sent: Buf, after: Buf)
    requires AllWritable(attrs)
  {
    var p := Parse(sent + after);
    && p.Parsed?
    && TypeCarried(mode, msgType, msgCode, p.msgType)
    && (p.msgLen, p.cookie, p.txnId) == (|Body(attrs)|, cookie, txnId)
    && (if attrs == [] then p.body.None? else p.body == Some(Body(attrs)) && p.rest == after)
    && Scan(if p.body.Some? then p.body.value else [], p.msgLen, 0) == ScanResult(Readings(attrs), AtEof)
  }

  /** Any attributes written, packed, decoded and scanned come back exactly, an empty value as none,
      with the header fields and whatever followed the message. */
  lemma RoundTrip(mode: Mode, msgType: Buf, msgCode: Buf, cookie: Buf, txnId: Buf, attrs: seq<Attr>, after: Buf)
    requires |msgType| == |msgCode| == 2 && |cookie| == 4 && |txnId| == 12
    requires AllWritable(attrs) && |Body(attrs)| < 0x10000
    ensures var sent := Packed(mode, msgType, msgCode, |Body(attrs)|, cookie, txnId, Body(attrs));
            && sent.Some?
            && ReadsBack(mode, msgType, msgCode, cookie, txnId, attrs, sent.value, after)
  {
    ParsePacked(mode, msgType, msgCode, cookie, txnId, Body(attrs), after);
    TypeFieldCarries(mode, msgType, msgCode);
    BodyAligned(attrs);
    ScanWritten(attrs);
  }

  // ------------------------------------------------------------------
  // When a scan ends
  // ------------------------------------------------------------------

  /** A scan of a body whose length is 0 or 1 modulo 4 always ends, at eof or on a bad length. */
  lemma {:induction false} AlignedNeverStuck(msg: Buf, cursor: nat)
    requires |msg| % 4 == 0 || |msg| % 4 == 1
    requires cursor % 4 == 0
    ensures !Scan(msg, |msg|, cursor).end.Stuck?
    decreases |msg| - cursor
  {
    if Eof(cursor, |msg|) {
    } else {
      var left := |msg| - cursor;
      assert left % 4 == |msg| % 4;
      assert left >= 4;
      var r := ReadAt(msg, cursor);
      if r.Got? {
        AlignedNeverStuck(msg, r.next);
      }
    }
  }

  /** With two or three bytes over, an otherwise good message stops the cursor for ever. */
  lemma StragglersStick(attrs: seq<Attr>, over: Buf)
    requires AllWritable(attrs) && (|over| == 2 || |over| == 3)
    ensures var msg := Body(attrs) + over;
            Scan(msg, |msg|, 0) == ScanResult(Readings(attrs), Stuck)
  {
    BodyIsLaid(Body(attrs) + over, 0, attrs);
    ScanPast(Body(attrs) + over, 0, attrs, |Body(attrs)|);
    assert Readings(attrs) + [] == Readings(attrs);
  }

  lemma {:induction false} EmptyAttrs(k: nat) returns (attrs: seq<Attr>)
    ensures AllWritable(attrs) && |Body(attrs)| == 4 * k
  {
    if k == 0 {
      attrs := [];
    } else {
      var rest := EmptyAttrs(k - 1);
      attrs := [Attr([0, 0], [])] + rest;
      assert attrs[1..] == rest;
    }
  }

  /** Every scan of a body of that length comes to an end. */
  ghost predicate ScansEnd(n: nat) {
    forall msg: Buf :: |msg| == n ==> !Scan(msg, |msg|, 0).end.Stuck?
  }

  /** Scans always end for exactly the lengths that are 0 or 1 modulo 4. */
  lemma ScansEndIff(n: nat)
    ensures ScansEnd(n) <==> n % 4 == 0 || n % 4 == 1
  {
    if n % 4 == 0 || n % 4 == 1 {
      forall msg: Buf | |msg| == n ensures !Scan(msg, |msg|, 0).end.Stuck? {
        AlignedNeverStuck(msg, 0);
      }
    } else {
      var attrs := EmptyAttrs(n / 4);
      var over := Zeros(n % 4);
      StragglersStick(attrs, over);
      assert |Body(attrs) + over| == n;
    }
  }

  // ------------------------------------------------------------------
  // MESSAGE-INTEGRITY and the type bits
  // ------------------------------------------------------------------

  /** The bytes hashed are exactly the final message without its last 24 bytes. */
  lemma HmacCoversMessage(mode: Mode, msgType: Buf, msgCode: Buf, cookie: Buf, txnId: Buf, msg: Buf, digest: Buf)
    requires |digest| == 20 && |msg| + 24 < 0x10000
    ensures var hashed := Packed(mode, msgType, msgCode, |msg| + 24, cookie, txnId, msg);
            var full := msg + AttrBuf(Attr(MESSAGE_INTEGRITY, digest));
            var final := Packed(mode, msgType, msgCode, |full|, cookie, txnId, full);
            hashed.Some? && final.Some? && |final.value| >= 24 && hashed.value == final.value[..|final.value| - 24]
  {
    var tail := AttrBuf(Attr(MESSAGE_INTEGRITY, digest));
    assert |tail| == 24;
    var hashed := Packed(mode, msgType, msgCode, |msg| + 24, cookie, txnId, msg).value;
    var final := Packed(mode, msgType, msgCode, |msg| + 24, cookie, txnId, msg + tail).value;
    assert final == hashed + tail;
  }

  const METHOD_MASK: Buf := [0x00, 0x0F]
  const STATUS_MASK: Buf := [0x01, 0x10]

  /** A method below sixteen and one of the four classes survive being mixed into one field. */
  lemma TypeBitsSeparate(mode: Mode, low: Byte, classHigh: Byte, classLow: Byte)
    requires !mode.Rfc3489? && low < 16 && (classHigh == 0 || classHigh == 1) && (classLow == 0 || classLow == 16)
    ensures var field := TypeField(mode, [0, low], [classHigh, classLow]);
            AndBufs(field, METHOD_MASK) == [0, low] && AndBufs(field, STATUS_MASK) == [classHigh, classLow]
  {
    MixedField(mode, low, classHigh, classLow);
    HighByte(classHigh);
    NibbleMasks(low, classLow);
    AndPair(classHigh, low + classLow, 0x00, 0x0F);
    AndPair(classHigh, low + classLow, 0x01, 0x10);
  }

  lemma MixedField(mode: Mode, low: Byte, classHigh: Byte, classLow: Byte)
    requires !mode.Rfc3489? && low < 16 && (classHigh == 0 || classHigh == 1) && (classLow == 0 || classLow == 16)
    ensures TypeField(mode, [0, low], [classHigh, classLow]) == [classHigh, low + classLow]
  {
    MixedOr(low, classHigh, classLow);
    NibbleMasks(low, classLow);
    HighByte(classHigh);
    AndPair(classHigh, low + classLow, 0x3F, 0xFF);
  }

  lemma MixedOr(low: Byte, classHigh: Byte, classLow: Byte)
    requires low < 16 && (classHigh == 0 || classHigh == 1) && (classLow == 0 || classLow == 16)
    ensures OrBufs([0, low], [classHigh, classLow]) == [classHigh, low + classLow]
  {
    NibbleOr(low, classLow);
    OrPair(0, low, classHigh, classLow);
  }

  lemma HighByte(c: Byte)
    requires c == 0 || c == 1
    ensures And(Or(0, c), 0x3F) == c && And(c, 0) == 0 && And(c, 1) == c
  {
  }

  lemma NibbleOr(low: Byte, c: Byte)
    requires low < 16 && (c == 0 || c == 16)
    ensures Or(low, c) == low + c
  {
    OrJoin(0, low, c / 16, 0, 4);
    JoinNibble(0, low);
    JoinNibble(c / 16, 0);
    JoinNibble(c / 16, low);
    OrZero(low);
    assert Or(0, c / 16) == c / 16;
  }

  lemma NibbleMasks(low: Byte, c: Byte)
    requires low < 16 && (c == 0 || c == 16)
    ensures And(low + c, 0xFF) == low + c
    ensures And(low + c, 0x0F) == low && And(low + c, 0x10) == c
  {
    var h := c / 16;
    assert Pow2(4) == 16;
    AndOnes(low, 4);
    AndStep(h, 15);
    AndStep(h, 1);
    JoinNibble(h, low);
    NibbleMask(h, low, 15, 15);
    NibbleMask(h, low, 0, 15);
    NibbleMask(h, low, 1, 0);
  }

  lemma NibbleMask(h: nat, l: nat, mh: nat, ml: nat)
    requires l < 16 && ml < 16
    ensures And(16 * h + l, 16 * mh + ml) == 16 * And(h, mh) + And(l, ml)
  {
    AndJoin(h, l, mh, ml, 4);
    JoinNibble(h, l);
    JoinNibble(mh, ml);
    AndBound(l, ml);
    JoinNibble(And(h, mh), And(l, ml));
  }
}
