/** What the attributes of a STUN reply tell, byte by byte: the first address of each kind counts. */
module StunReply {
  import opened Bytes
  import opened Bits
  import opened Endian
  import opened Families
  import opened Options
  import opened StunAddr
  import opened StunCodec

  /** Our own address as the server saw it, in one of three forms. */
  predicate TellsOurs(code: Buf) {
    code == [0x00, 0x01] || code == [0x00, 0x20] || code == [0x80, 0x20]
  }

  /** CHANGED-ADDRESS, the server's other address. */
  predicate TellsOther(code: Buf) {
    code == [0x00, 0x05]
  }

  function Octets(af: Af): nat {
    match af
    case IP4 => 4
    case IP6 => 16
  }

  /** Too little data for a family, a port and an IP. */
  predicate Unreadable(af: Af, a: Scanned) {
    a.data.None? || |a.data.value| < 4 + Octets(af)
  }

  function PortOf(high: Byte, low: Byte): nat {
    256 * high + low
  }

  /** The IP stands from the fourth byte on and the port before it, plain, or masked by the cookie and
      the transaction id; one form masks the port by the standard cookie's first two bytes. */
  predicate Tells(af: Af, cookie: Buf, txid: Buf, a: Scanned, tup: AddrTup)
    requires |cookie| == 4 && |txid| == 12
  {
    && !Unreadable(af, a)
    && |tup.ip| == Octets(af)
    && var d := a.data.value;
    if a.code == [0x00, 0x01] || TellsOther(a.code) then
      tup.ip == d[4..4 + Octets(af)] && tup.port == PortOf(d[2], d[3])
    else
      var first, second := if a.code == [0x80, 0x20] then cookie[0] else 0x21,
                           if a.code == [0x80, 0x20] then cookie[1] else 0x12;
      && tup.port == PortOf(XorByte(d[2], first), XorByte(d[3], second))
      && (forall k :: 0 <= k < Octets(af) ==> tup.ip[k] == XorByte(d[4 + k], (cookie + txid)[k]))
  }

  lemma TwoBytes(a: Byte, b: Byte)
    ensures FromBig([a, b]) == PortOf(a, b)
  {
    assert [a, b][..1] == [a] && [a][..0] == [];
    assert FromBig([a]) == a;
  }

  lemma MaskedByBoth(af: Af, cookie: Buf, txid: Buf, d: Buf)
    requires |cookie| == 4 && |txid| == 12 && |d| >= 4 + Octets(af)
    ensures var ip := XorZip(Slice(d, 4, 4 + IpLen(af)), cookie + txid);
            && |ip| == Octets(af)
            && forall k :: 0 <= k < Octets(af) ==> ip[k] == XorByte(d[4 + k], (cookie + txid)[k])
  {
  }

  lemma MaskedWhole(af: Af, cookie: Buf, txid: Buf, d: Buf)
    requires |cookie| == 4 && |txid| == 12 && |d| >= 4 + Octets(af)
    ensures var d' := XorZip(d, WholeMask(cookie, txid));
            && |d'| >= 4 + Octets(af) && d'[2] == XorByte(d[2], 0x21) && d'[3] == XorByte(d[3], 0x12)
            && forall k :: 0 <= k < Octets(af) ==> d'[4 + k] == XorByte(d[4 + k], (cookie + txid)[k])
  {
    forall k | 0 <= k < 16 ensures WholeMask(cookie, txid)[4 + k] == (cookie + txid)[k] {}
  }

  lemma Short(af: Af, code: Buf, cookie: Buf, id: Buf, d: Buf)
    requires |d| < 4 + Octets(af)
    ensures DecodeAddr(af, code, cookie, id, d).None?
  {
  }

  /** What an attribute decodes to is what its bytes tell, and nothing exactly when it is too short. */
  lemma DecodesIff(af: Af, cookie: Buf, txid: Buf, a: Scanned)
    requires |cookie| == 4 && |txid| == 12 && (TellsOurs(a.code) || TellsOther(a.code)) && a.data.Some?
    ensures var id := if a.code == [0x00, 0x20] || a.code == [0x80, 0x20] then txid else [];
            var d := DecodeAddr(af, a.code, cookie, id, a.data.value);
            && (d.None? <==> Unreadable(af, a))
            && (d.Some? ==> Tells(af, cookie, txid, a, TupOf(d.value)))
  {
    var d := a.data.value;
    if Unreadable(af, a) {
      Short(af, a.code, cookie, if a.code == [0x00, 0x20] || a.code == [0x80, 0x20] then txid else [], d);
    } else if a.code == [0x80, 0x20] {
      MaskedByBoth(af, cookie, txid, d);
      var port := XorZip(Slice(d, 2, 4), cookie + txid);
      assert port == [XorByte(d[2], cookie[0]), XorByte(d[3], cookie[1])];
      TwoBytes(port[0], port[1]);
    } else if a.code == [0x00, 0x20] {
      MaskedWhole(af, cookie, txid, d);
      var d' := XorZip(d, WholeMask(cookie, txid));
      assert Slice(d', 2, 4) == [d'[2], d'[3]];
      TwoBytes(d'[2], d'[3]);
    } else {
      assert Slice(d, 2, 4) == [d[2], d[3]];
      TwoBytes(d[2], d[3]);
    }
  }

  lemma {:induction false} XorOfZero(a: nat)
    ensures Xor(a, 0) == a
  {
    if a == 0 {
    } else {
      XorOfZero(a / 2);
    }
  }

  /** An address as sent in a whole-buffer attribute (section 15.2 of RFC 5389): a zero byte, the family 1
      or 2, the port masked by the cookie's first half, the IP masked by cookie and transaction id. */
  lemma EncodedBytes(af: Af, code: Buf, cookie: Buf, txid: Buf, ip: Buf, port: nat)
    requires WholeBufferCode(code) && |cookie| == 4 && |txid| == 12 && |ip| == Octets(af) && port < 0x10000
    ensures var e := EncodeAddr(af, code, cookie, txid, ip, port);
            && e.Some? && |e.value| == 4 + |ip|
            && e.value[0] == 0 && e.value[1] == (match af case IP4 => 1 case IP6 => 2)
            && e.value[2] == XorByte(port / 256, 0x21) && e.value[3] == XorByte(port % 256, 0x12)
            && forall k :: 0 <= k < |ip| ==> e.value[4 + k] == XorByte(ip[k], (cookie + txid)[k])
  {
    EncodesMasked(af, code, cookie, txid, ip, port);
    var plain := Plain(af, ip, port);
    MaskedWhole(af, cookie, txid, plain);
    XorOfZero(plain[0]);
    XorOfZero(plain[1]);
    assert forall k :: 0 <= k < |ip| ==> plain[4 + k] == ip[k];
  }

  predicate FirstOurs(attrs: seq<Scanned>, i: nat) {
    && i <= |attrs| && (i < |attrs| ==> TellsOurs(attrs[i].code))
    && (forall k :: 0 <= k < i ==> !TellsOurs(attrs[k].code))
  }

  predicate FirstOther(attrs: seq<Scanned>, j: nat) {
    && j <= |attrs| && (j < |attrs| ==> TellsOther(attrs[j].code))
    && (forall k :: 0 <= k < j ==> !TellsOther(attrs[k].code))
  }

  /** What the first attribute of a kind, at position i, settles: found exactly if there is one. */
  predicate Settles(af: Af, cookie: Buf, txid: Buf, attrs: seq<Scanned>, i: nat, tup: Option<AddrTup>)
    requires |cookie| == 4 && |txid| == 12
  {
    && (tup.Some? <==> i < |attrs|)
    && (tup.Some? && i < |attrs| ==> Tells(af, cookie, txid, attrs[i], tup.value))
  }

  predicate Spoils(af: Af, attrs: seq<Scanned>, i: nat) {
    i < |attrs| && Unreadable(af, attrs[i])
  }

  lemma OneMore(af: Af, cookie: Buf, txid: Buf, a: Scanned, t: Tups)
    requires |cookie| == 4 && |txid| == 12
    ensures var needed := (TellsOurs(a.code) && t.rtup.None?) || (TellsOther(a.code) && t.ctup.None?);
            var after := ProcAttr(af, cookie, txid, a, t);
            && (after.None? <==> needed && Unreadable(af, a))
            && (after.Some? && (!TellsOurs(a.code) || t.rtup.Some?) ==> after.value.rtup == t.rtup)
            && (after.Some? && (!TellsOther(a.code) || t.ctup.Some?) ==> after.value.ctup == t.ctup)
            && (after.Some? && TellsOurs(a.code) && t.rtup.None? ==>
                  after.value.rtup.Some? && Tells(af, cookie, txid, a, after.value.rtup.value))
            && (after.Some? && TellsOther(a.code) && t.ctup.None? ==>
                  after.value.ctup.Some? && Tells(af, cookie, txid, a, after.value.ctup.value))
  {
    if (TellsOurs(a.code) || TellsOther(a.code)) && a.data.Some? {
      DecodesIff(af, cookie, txid, a);
    }
  }

  /** In any list of attributes the first of each kind counts: the walk raises exactly when one of these
      two is too short, and otherwise finds what their bytes tell. */
  lemma {:induction false} FirstOfEachCounts(af: Af, cookie: Buf, txid: Buf, attrs: seq<Scanned>, i: nat, j: nat)
    requires |cookie| == 4 && |txid| == 12 && FirstOurs(attrs, i) && FirstOther(attrs, j)
    ensures var t := ProcAttrs(af, cookie, txid, attrs);
            && (t.None? <==> Spoils(af, attrs, i) || Spoils(af, attrs, j))
            && (t.Some? ==> && Settles(af, cookie, txid, attrs, i, t.value.rtup)
                            && Settles(af, cookie, txid, attrs, j, t.value.ctup))
  {
    if |attrs| == 0 {
    } else {
      var n := |attrs| - 1;
      var rest := attrs[..n];
      var i', j' := Min(i, n), Min(j, n);
      FirstOfEachCounts(af, cookie, txid, rest, i', j');
      var t := ProcAttrs(af, cookie, txid, rest);
      if t.Some? {
        OneMore(af, cookie, txid, attrs[n], t.value);
      }
    }
  }

  /** From a server's packet to both addresses, in any mode and whatever follows the message. */
  lemma ReplyTellsBoth(af: Af, mode: Mode, msgType: Buf, msgCode: Buf, cookie: Buf, txid: Buf, attrs: seq<Attr>,
                       after: Buf, i: nat, j: nat)
    requires |msgType| == |msgCode| == 2 && |cookie| == 4 && |txid| == 12
    requires AllWritable(attrs) && |Body(attrs)| < 0x10000
    requires FirstOurs(Readings(attrs), i) && FirstOther(Readings(attrs), j)
    ensures var sent := Packed(mode, msgType, msgCode, |Body(attrs)|, cookie, txid, Body(attrs));
            && sent.Some?
            && var reply, read := Replied(af, sent.value + after), Readings(attrs);
            && (reply == Raised <==> Spoils(af, read, i) || Spoils(af, read, j))
            && (reply != Raised ==> && Settles(af, cookie, txid, read, i, reply.tups.rtup)
                                    && Settles(af, cookie, txid, read, j, reply.tups.ctup))
  {
    RoundTrip(mode, msgType, msgCode, cookie, txid, attrs, after);
    FirstOfEachCounts(af, cookie, txid, Readings(attrs), i, j);
  }

  /** A buffer without a header tells nothing, and one shorter than its header says raises. */
  lemma CutShort(af: Af, buf: Buf)
    ensures |buf| < 20 ==> Replied(af, buf) == Reply(Tups(None, None))
    ensures |buf| >= 20 && 0 < PortOf(buf[2], buf[3]) && |buf| < 20 + PortOf(buf[2], buf[3]) ==>
              Replied(af, buf) == Raised
  {
    if |buf| >= 20 {
      assert buf[2..4] == [buf[2], buf[3]];
      TwoBytes(buf[2], buf[3]);
    }
  }

  /** An otherwise good message with two or three bytes over is rejected, whatever its attributes told. */
  lemma StragglersRaise(af: Af, mode: Mode, msgType: Buf, msgCode: Buf, cookie: Buf, txid: Buf, attrs: seq<Attr>,
                        over: Buf, after: Buf)
    requires |msgType| == |msgCode| == 2 && |cookie| == 4 && |txid| == 12
    requires AllWritable(attrs) && (|over| == 2 || |over| == 3) && |Body(attrs) + over| < 0x10000
    ensures var body := Body(attrs) + over;
            var sent := Packed(mode, msgType, msgCode, |body|, cookie, txid, body);
            sent.Some? && Replied(af, sent.value + after) == Raised
  {
    StragglersStick(attrs, over);
    ParsePacked(mode, msgType, msgCode, cookie, txid, Body(attrs) + over, after);
  }
}
