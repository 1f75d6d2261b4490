/** The packets of the name server: a fixed header, two bounded fields, a key and a signature. */
module PnpPacket {
  import opened Bytes
  import opened Endian
  import opened Options

  const NAME_LEN: nat := 50
  const VAL_LEN: nat := 500

  /** A packet whose id has been settled; the lengths of the source are `NameLen` and `ValueLen`. */
  datatype Packet = Packet(
    pkid: nat, replyPk: Option<Buf>, behavior: nat, updated: nat,
    name: Buf, value: Buf, vkc: Option<Buf>, sig: Option<Buf>)

  /** An id of 0 counts as missing and is replaced by a number drawn from 0 .. 2^32 - 1. */
  function SettledId(pkid: nat, drawn: nat): nat {
    if pkid != 0 then pkid else drawn
  }

  /** The constructor: a key that is not 33 bytes long fails its assertion. */
  function Make(p: Packet, drawn: nat): Option<Packet> {
    if p.vkc.Some? && |p.vkc.value| != 33 then None
    else Some(p.(pkid := SettledId(p.pkid, drawn)))
  }

  function Clipped(b: Buf, limit: nat): (r: Buf)
    ensures r <= b && |r| == Min(|b|, limit)
  {
    b[..Min(|b|, limit)]
  }

  function OrNothing(b: Option<Buf>): Buf {
    if b.Some? then b.value else []
  }

  function ReplyField(replyPk: Option<Buf>): Buf {
    if replyPk.Some? then replyPk.value else Zeros(33)
  }

  /** What the packing code can write without raising. */
  predicate Packable(p: Packet) {
    && p.pkid < Pow256(4) && p.updated < Pow256(8) && p.behavior < 256
    && (p.replyPk.Some? ==> |p.replyPk.value| == 33)
  }

  function Header(p: Packet): (b: Buf)
    requires Packable(p)
    ensures |b| == 50
  {
    FieldSizes();
    Little(p.pkid, 4) + ReplyField(p.replyPk) + [p.behavior] + Little(p.updated, 8)
    + Little(Min(|p.name|, NAME_LEN), 2) + Little(Min(|p.value|, VAL_LEN), 2)
  }

  function Packed(p: Packet): Buf
    requires Packable(p)
  {
    Header(p) + Clipped(p.name, NAME_LEN) + Clipped(p.value, VAL_LEN) + OrNothing(p.vkc) + OrNothing(p.sig)
  }

  lemma HeaderLayout(p: Packet)
    requires Packable(p)
    ensures var h := Header(p);
            && h[..4] == Little(p.pkid, 4) && h[4..37] == (if p.replyPk.Some? then p.replyPk.value else Zeros(33))
            && h[37] == p.behavior && h[38..46] == Little(p.updated, 8)
            && h[46..48] == Little(Min(|p.name|, NAME_LEN), 2) && h[48..50] == Little(Min(|p.value|, VAL_LEN), 2)
  {
  }

  lemma FourParts(h: Buf, x: Buf, y: Buf, z: Buf)
    ensures var b := h + x + y + z;
            && b[..|h|] == h && b[|h|..|h| + |x|] == x && b[|h| + |x|..|h| + |x| + |y|] == y
            && b[|h| + |x| + |y|..] == z
  {
  }

  /** Where a packed packet's fields stand: the header of 50 bytes, then name and value cut to their limits,
      then key and signature. */
  lemma Layout(p: Packet)
    requires Packable(p)
    ensures var b, n, v := Packed(p), Min(|p.name|, NAME_LEN), Min(|p.value|, VAL_LEN);
            && |b| >= 50 + n + v && b[..50] == Header(p)
            && b[50..50 + n] == p.name[..n] && b[50 + n..50 + n + v] == p.value[..v]
            && b[50 + n + v..] == OrNothing(p.vkc) + OrNothing(p.sig)
  {
    var h, x, y := Header(p), Clipped(p.name, NAME_LEN), Clipped(p.value, VAL_LEN);
    FourParts(h, x, y, OrNothing(p.vkc) + OrNothing(p.sig));
    assert Packed(p) == h + x + y + (OrNothing(p.vkc) + OrNothing(p.sig));
  }

  method Pack(p: Packet) returns (r: Option<Buf>)
    ensures r == if Packable(p) then Some(Packed(p)) else None
    ensures r.None? <==> || p.pkid >= 0x1_0000_0000 || p.updated >= 0x1_0000_0000_0000_0000 || p.behavior > 255
                         || (p.replyPk.Some? && |p.replyPk.value| != 33)
  {
    FieldSizes();
    var buf: Buf := [];
    if p.pkid >= Pow256(4) {
      return None;
    }
    buf := buf + Little(p.pkid, 4);
    if p.replyPk.Some? {
      buf := buf + p.replyPk.value;
      if |p.replyPk.value| != 33 {
        return None;
      }
    } else {
      buf := buf + Zeros(33);
    }
    if p.behavior > 255 {
      return None;
    }
    buf := buf + [p.behavior];
    if p.updated >= Pow256(8) {
      return None;
    }
    buf := buf + Little(p.updated, 8);
    buf := buf + Little(Min(|p.name|, NAME_LEN), 2);
    buf := buf + Little(Min(|p.value|, VAL_LEN), 2);
    assert buf == Header(p);
    buf := buf + SliceTo(p.name, NAME_LEN);
    buf := buf + SliceTo(p.value, VAL_LEN);
    assert buf == Header(p) + Clipped(p.name, NAME_LEN) + Clipped(p.value, VAL_LEN);
    if p.vkc.Some? {
      buf := buf + p.vkc.value;
    }
    assert buf == Header(p) + Clipped(p.name, NAME_LEN) + Clipped(p.value, VAL_LEN) + OrNothing(p.vkc);
    if p.sig.Some? {
      buf := buf + p.sig.value;
    }
    assert buf == Packed(p);
    r := Some(buf);
  }

  /** What gets signed: the packet without its signature, built anew. */
  function MsgToSign(p: Packet, drawn: nat): Option<Buf> {
    var m := Make(p.(sig := None), drawn);
    if m.Some? && Packable(m.value) then Some(Packed(m.value)) else None
  }

  function ReadReply(field: Buf): Option<Buf> {
    if field == Zeros(33) then None else Some(field)
  }

  /** Reading a packet back; None where a read or the constructor's assertion fails. */
  function Unpacked(buf: Buf, drawn: nat): Option<Packet> {
    if |buf| < 50 then None
    else
      var n := FromLittle(buf[46..48]);
      var v := FromLittle(buf[48..50]);
      if |buf| < 50 + n + v + 33 then None
      else Some(Packet(
        SettledId(FromLittle(buf[0..4]), drawn), ReadReply(buf[4..37]), buf[37], FromLittle(buf[38..46]),
        buf[50..50 + n], buf[50 + n..50 + n + v], Some(buf[50 + n + v..50 + n + v + 33]),
        Some(buf[50 + n + v + 33..])))
  }

  method Unpack(buf: Buf, drawn: nat) returns (r: Option<Packet>)
    ensures r == Unpacked(buf, drawn)
  {
    var p := 0;
    var field := Slice(buf, p, p + 4);
    if |field| != 4 {
      return None;
    }
    var pkid := FromLittle(field);
    p := p + 4;
    var replyPk := ReadReply(Slice(buf, p, p + 33));
    p := p + 33;
    if p >= |buf| {
      return None;
    }
    var behavior := buf[p];
    p := p + 1;
    field := Slice(buf, p, p + 8);
    if |field| != 8 {
      return None;
    }
    var updated := FromLittle(field);
    p := p + 8;
    field := Slice(buf, p, p + 2);
    if |field| != 2 {
      return None;
    }
    var nameLen := FromLittle(field);
    p := p + 2;
    field := Slice(buf, p, p + 2);
    if |field| != 2 {
      return None;
    }
    var valLen := FromLittle(field);
    p := p + 2;
    var name := Slice(buf, p, p + nameLen);
    p := p + nameLen;
    var val := Slice(buf, p, p + valLen);
    p := p + valLen;
    var vkc := Slice(buf, p, p + 33);
    p := p + 33;
    var sig := SliceFrom(buf, p);
    r := Make(Packet(pkid, replyPk, behavior, updated, name, val, Some(vkc), Some(sig)), drawn);
  }

  // ------------------------------------------------------------------
  // Round trip
  // ------------------------------------------------------------------

  lemma HeaderFields(p: Packet, buf: Buf)
    requires Packable(p) && |buf| >= 50 && buf[..50] == Header(p)
    ensures FromLittle(buf[0..4]) == p.pkid && buf[4..37] == ReplyField(p.replyPk)
    ensures buf[37] == p.behavior && FromLittle(buf[38..46]) == p.updated
    ensures FromLittle(buf[46..48]) == Min(|p.name|, NAME_LEN)
    ensures FromLittle(buf[48..50]) == Min(|p.value|, VAL_LEN)
  {
    var h := Header(p);
    assert buf[0..4] == h[0..4] == Little(p.pkid, 4);
    assert buf[4..37] == h[4..37] == ReplyField(p.replyPk);
    assert buf[37] == h[37] == p.behavior;
    assert buf[38..46] == h[38..46] == Little(p.updated, 8);
    assert buf[46..48] == h[46..48] == Little(Min(|p.name|, NAME_LEN), 2);
    assert buf[48..50] == h[48..50] == Little(Min(|p.value|, VAL_LEN), 2);
    FieldSizes();
    LittleRoundTrip(p.pkid, 4);
    LittleRoundTrip(p.updated, 8);
    LittleRoundTrip(Min(|p.name|, NAME_LEN), 2);
    LittleRoundTrip(Min(|p.value|, VAL_LEN), 2);
  }

  /** A packet as the other side sees it: fields cut to their limits, a zero reply key gone. */
  function Received(p: Packet, sig: Buf, drawn: nat): Packet {
    p.(pkid := SettledId(p.pkid, drawn), replyPk := ReadReply(ReplyField(p.replyPk)),
       name := Clipped(p.name, NAME_LEN), value := Clipped(p.value, VAL_LEN), sig := Some(sig))
  }

  /** The signed bytes with any signature behind them read back as the packet, with its fields cut. */
  lemma UnpackPacked(p: Packet, sig: Buf, drawn: nat)
    requires Packable(p) && p.vkc.Some? && |p.vkc.value| == 33
    ensures Unpacked(Packed(p.(sig := None)) + sig, drawn) == Some(Received(p, sig, drawn))
  {
    var q := p.(sig := None);
    var m := Packed(q);
    var buf := m + sig;
    var name, value := Clipped(p.name, NAME_LEN), Clipped(p.value, VAL_LEN);
    var n, v := |name|, |value|;
    assert m == Header(q) + name + value + p.vkc.value;
    assert |m| == 50 + n + v + 33;
    assert buf[..50] == Header(q);
    HeaderFields(q, buf);
    assert buf[50..50 + n] == name;
    assert buf[50 + n..50 + n + v] == value;
    assert buf[50 + n + v..50 + n + v + 33] == p.vkc.value;
    assert buf[50 + n + v + 33..] == sig;
  }

  /** Cutting fields and dropping a zero reply key do not change the bytes. */
  lemma ReceivedPacksAlike(p: Packet, sig: Buf, drawn: nat)
    requires Packable(p) && SettledId(p.pkid, drawn) == p.pkid
    ensures var q := Received(p, sig, drawn).(sig := None);
            Packable(q) && Packed(q) == Packed(p.(sig := None))
  {
    var q := Received(p, sig, drawn).(sig := None);
    assert ReplyField(q.replyPk) == ReplyField(p.replyPk);
    assert Clipped(q.name, NAME_LEN) == q.name && Clipped(q.value, VAL_LEN) == q.value;
    assert Header(q) == Header(p.(sig := None));
  }

  /** The id is the first field, so packets with different ids never pack alike. */
  lemma IdsSeparate(a: Packet, b: Packet)
    requires Packable(a) && Packable(b) && Packed(a) == Packed(b)
    ensures a.pkid == b.pkid
  {
    LittleRoundTrip(a.pkid, 4);
    LittleRoundTrip(b.pkid, 4);
    assert Packed(a)[..4] == Little(a.pkid, 4) && Packed(b)[..4] == Little(b.pkid, 4);
  }

  /** Deriving the message to sign from a received packet, when a fresh draw may be needed. */
  lemma Rederived(s: Packet, sig: Buf, e: nat, f: nat)
    requires s.vkc.Some? && |s.vkc.value| == 33
    requires Packable(s) && e < Pow256(4) && f < Pow256(4)
    ensures MsgToSign(Received(s, sig, e), f) == Some(Packed(s.(sig := None)))
            <==> s.pkid != 0 || SettledId(e, f) == 0
  {
    var t := s.(pkid := if s.pkid != 0 then s.pkid else SettledId(e, f));
    var q := Received(t, sig, 0).(sig := None);
    ReceivedPacksAlike(t, sig, 0);
    assert Make(Received(s, sig, e).(sig := None), f) == Some(q);
    if t.pkid != s.pkid && Packed(t.(sig := None)) == Packed(s.(sig := None)) {
      IdsSeparate(t.(sig := None), s.(sig := None));
    }
  }

  /**
   Signing survives the wire.  `d` is drawn when the message to sign is built, `e` when it is
   read and `f` when the reader derives the message to sign again: the reader gets the very
   same bytes, unless the id is 0 on the wire and one of the later draws is not 0.
   */
  lemma SignedBytesSurvive(p: Packet, sig: Buf, d: nat, e: nat, f: nat)
    requires p.vkc.Some? && |p.vkc.value| == 33
    requires Packable(p) && d < Pow256(4) && e < Pow256(4) && f < Pow256(4)
    ensures MsgToSign(p, d).Some?
    ensures var m := MsgToSign(p, d).value; Unpacked(m + sig, e).Some?
    ensures var m := MsgToSign(p, d).value;
            var q := Unpacked(m + sig, e).value;
            && q.sig == Some(sig) && q.vkc == p.vkc
            && (MsgToSign(q, f) == Some(m) <==> SettledId(p.pkid, d) != 0 || SettledId(e, f) == 0)
  {
    var s := p.(pkid := SettledId(p.pkid, d));
    assert MsgToSign(p, d) == Some(Packed(s.(sig := None)));
    UnpackPacked(s, sig, e);
    Rederived(s, sig, e, f);
  }

  /** Nothing is lost exactly when both fields keep to their limits and the reply key is not all zeros. */
  lemma FieldsReturnIff(p: Packet, sig: Buf, drawn: nat)
    requires Packable(p) && p.vkc.Some? && |p.vkc.value| == 33 && p.pkid != 0
    ensures Unpacked(Packed(p.(sig := None)) + sig, drawn) == Some(p.(sig := Some(sig)))
            <==> |p.name| <= NAME_LEN && |p.value| <= VAL_LEN && p.replyPk != Some(Zeros(33))
  {
    UnpackPacked(p, sig, drawn);
    if |p.name| <= NAME_LEN && |p.value| <= VAL_LEN && p.replyPk != Some(Zeros(33)) {
      assert Clipped(p.name, NAME_LEN) == p.name && Clipped(p.value, VAL_LEN) == p.value;
    } else if p.replyPk == Some(Zeros(33)) {
      assert Received(p, sig, drawn).replyPk == None;
    } else if |p.name| > NAME_LEN {
      assert |Received(p, sig, drawn).name| == NAME_LEN;
    } else {
      assert |Received(p, sig, drawn).value| == VAL_LEN;
    }
  }
}
