/**
 Addresses inside STUN and TURN messages, and the two loops that walk a received
 message's attributes.  IP addresses are their packed 4 or 16 bytes.
 */
module StunAddr {
  import opened Bytes
  import opened Bits
  import opened Endian
  import opened Families
  import opened Options
  import opened StunCodec

  const MAPPED_ADDRESS: Buf := [0x00, 0x01]
  const CHANGED_ADDRESS: Buf := [0x00, 0x05]
  const XOR_PEER_ADDRESS: Buf := [0x00, 0x12]
  const DATA: Buf := [0x00, 0x13]
  const XOR_RELAYED_ADDRESS: Buf := [0x00, 0x16]
  const XOR_MAPPED_ADDRESS: Buf := [0x00, 0x20]
  const XOR_MAPPED_ADDRESS_X: Buf := [0x80, 0x20]

  function IpLen(af: Af): nat {
    if af.IP4? then 4 else 16
  }

  function Family(af: Af): Buf {
    if af.IP4? then [0, 1] else [0, 2]
  }

  predicate WholeBufferCode(code: Buf) {
    code == XOR_MAPPED_ADDRESS || code == XOR_PEER_ADDRESS || code == XOR_RELAYED_ADDRESS
  }

  datatype AddrTup = AddrTup(ip: Buf, port: nat)

  datatype Decoded = Decoded(ip: Buf, port: Buf, data: Buf)

  function AddrBufs(af: Af, data: Buf): (Buf, Buf) {
    (Slice(data, 4, 4 + IpLen(af)), Slice(data, 2, 4))
  }

  /** The mask the whole-buffer codes use, from the family field on. */
  function WholeMask(cookie: Buf, txid: Buf): Buf {
    [0x00, 0x00, 0x21, 0x12] + cookie + txid
  }

  /** None where the source raises: XOR with an empty string, or an IP of the wrong size. */
  function DecodeAddr(af: Af, code: Buf, cookie: Buf, txid: Buf, data: Buf): Option<Decoded> {
    var (ip, port) := AddrBufs(af, data);
    if code == XOR_MAPPED_ADDRESS_X then
      var mask := cookie + txid;
      if XorFails(port, mask) || XorFails(ip, mask) then None
      else Checked(af, Decoded(XorZip(ip, mask), XorZip(port, mask), data))
    else if WholeBufferCode(code) && |txid| > 0 then
      if XorFails(data, WholeMask(cookie, txid)) then None
      else
        var data' := XorZip(data, WholeMask(cookie, txid));
        var (ip', port') := AddrBufs(af, data');
        Checked(af, Decoded(ip', port', data'))
    else Checked(af, Decoded(ip, port, data))
  }

  function Checked(af: Af, d: Decoded): Option<Decoded> {
    if |d.ip| == IpLen(af) then Some(d) else None
  }

  function Plain(af: Af, ip: Buf, port: nat): Buf
    requires port < 0x10000
  {
    Family(af) + U16(port) + ip
  }

  /** Encoding masks by decoding the plain form; the field-wise code is never amended. */
  function EncodeAddr(af: Af, code: Buf, cookie: Buf, txid: Buf, ip: Buf, port: nat): Option<Buf> {
    if port >= 0x10000 then None
    else
      var plain := Plain(af, ip, port);
      match DecodeAddr(af, code, cookie, txid, plain)
      case None => None
      case Some(d) => Some(if d.data != plain then d.data else plain)
  }

  lemma BufsOfPlain(af: Af, ip: Buf, port: nat)
    requires |ip| == IpLen(af) && port < 0x10000
    ensures AddrBufs(af, Plain(af, ip, port)) == (ip, U16(port))
  {
    var plain := Plain(af, ip, port);
    assert plain[2..4] == U16(port) && plain[4..4 + IpLen(af)] == ip;
  }

  lemma EncodesMasked(af: Af, code: Buf, cookie: Buf, txid: Buf, ip: Buf, port: nat)
    requires WholeBufferCode(code) && |ip| == IpLen(af) && port < 0x10000 && txid != []
    ensures var e := EncodeAddr(af, code, cookie, txid, ip, port);
            if |cookie| + |txid| >= |ip| then e == Some(XorZip(Plain(af, ip, port), WholeMask(cookie, txid)))
            else e == None
  {
    BufsOfPlain(af, ip, port);
    var masked := XorZip(Plain(af, ip, port), WholeMask(cookie, txid));
    assert |masked| == 4 + Min(|ip|, |cookie| + |txid|);
  }

  /** For the whole-buffer codes an address can be encoded exactly when the mask reaches its end (or
      there is no transaction id to mask with), and then decoding gives the same IP and port. */
  lemma WholeBufferRoundTrip(af: Af, code: Buf, cookie: Buf, txid: Buf, ip: Buf, port: nat)
    requires WholeBufferCode(code) && |ip| == IpLen(af) && port < 0x10000
    ensures var e := EncodeAddr(af, code, cookie, txid, ip, port);
            && (e.Some? <==> txid == [] || |cookie| + |txid| >= |ip|)
            && (e.Some? ==>
                  && |e.value| == 4 + |ip|
                  && var d := DecodeAddr(af, code, cookie, txid, e.value);
                  && d.Some? && d.value.ip == ip && FromBig(d.value.port) == port)
  {
    BufsOfPlain(af, ip, port);
    U16RoundTrip(port);
    if |txid| > 0 {
      EncodesMasked(af, code, cookie, txid, ip, port);
      if |cookie| + |txid| >= |ip| {
        XorZipTwice(Plain(af, ip, port), WholeMask(cookie, txid));
      }
    }
  }

  /** Both forms mask the IP alike; they mask the port alike exactly when the cookie starts with the
      standard one's first two bytes. */
  lemma FormsAgreeIff(af: Af, code: Buf, cookie: Buf, txid: Buf, data: Buf)
    requires WholeBufferCode(code) && |cookie| == 4 && |txid| == 12 && |data| == 4 + IpLen(af)
    ensures var x := DecodeAddr(af, XOR_MAPPED_ADDRESS_X, cookie, txid, data);
            var w := DecodeAddr(af, code, cookie, txid, data);
            && x.Some? && w.Some? && x.value.ip == w.value.ip
            && (x.value.port == w.value.port <==> cookie[0] == 0x21 && cookie[1] == 0x12)
  {
    var mask, whole := cookie + txid, WholeMask(cookie, txid);
    var data' := XorZip(data, whole);
    var (ip, port) := AddrBufs(af, data);
    var (ip', port') := AddrBufs(af, data');
    assert ip == data[4..4 + IpLen(af)] && ip' == data'[4..4 + IpLen(af)];
    assert port == data[2..4] && port' == data'[2..4];
    forall i | 0 <= i < IpLen(af) ensures XorZip(ip, mask)[i] == ip'[i] {
      assert whole[4 + i] == mask[i];
      assert ip'[i] == data'[4 + i] == XorByte(data[4 + i], whole[4 + i]);
    }
    assert XorZip(ip, mask) == ip';
    var px := XorZip(port, mask);
    assert px[0] == XorByte(data[2], cookie[0]) && px[1] == XorByte(data[3], cookie[1]);
    assert port'[0] == XorByte(data[2], 0x21) && port'[1] == XorByte(data[3], 0x12);
    if px == port' {
      XorCancels(data[2], cookie[0], 0x21);
      XorCancels(data[3], cookie[1], 0x12);
    }
  }

  // ------------------------------------------------------------------
  // A STUN reply
  // ------------------------------------------------------------------

  function TupOf(d: Decoded): AddrTup {
    AddrTup(d.ip, FromBig(d.port))
  }

  datatype Tups = Tups(rtup: Option<AddrTup>, ctup: Option<AddrTup>)

  predicate MappedCode(code: Buf) {
    code == XOR_MAPPED_ADDRESS_X || code == XOR_MAPPED_ADDRESS || code == MAPPED_ADDRESS
  }

  /** One attribute: our mapped address and the server's other address are each taken once.  A needed
      attribute without data raises. */
  function ProcAttr(af: Af, cookie: Buf, txid: Buf, a: Scanned, t: Tups): Option<Tups> {
    var wantsR := t.rtup.None? && MappedCode(a.code);
    var wantsC := t.ctup.None? && a.code == CHANGED_ADDRESS;
    if !wantsR && !wantsC then Some(t)
    else if a.data.None? then None
    else
      var id := if a.code == MAPPED_ADDRESS || wantsC then [] else txid;
      match DecodeAddr(af, a.code, cookie, id, a.data.value)
      case None => None
      case Some(d) => Some(if wantsR then t.(rtup := Some(TupOf(d))) else t.(ctup := Some(TupOf(d))))
  }

  function ProcAttrs(af: Af, cookie: Buf, txid: Buf, attrs: seq<Scanned>): Option<Tups> {
    if |attrs| == 0 then Some(Tups(None, None))
    else
      match ProcAttrs(af, cookie, txid, attrs[..|attrs| - 1])
      case None => None
      case Some(t) => ProcAttr(af, cookie, txid, attrs[|attrs| - 1], t)
  }

  datatype Reply = Raised | Reply(tups: Tups)

  /** What stun_proto returns; a cursor that stops short of eof makes it raise. */
  function Replied(af: Af, buf: Buf): Reply {
    match Parse(buf)
    case TooShort => Reply(Tups(None, None))
    case Truncated => Raised
    case Parsed(_, msgLen, cookie, txid, body, _) =>
      var scan := Scan(if body.Some? then body.value else [], msgLen, 0);
      match ProcAttrs(af, cookie, txid, scan.attrs)
      case None => Raised
      case Some(t) => if scan.end.AtEof? then Reply(t) else Raised
  }

  method StunProto(buf: Buf, af: Af, freshTxn: Buf) returns (r: Reply)
    ensures r == Replied(af, buf)
  {
    var m: STUNMsg := new STUNMsg(Rfc3489, [0, 1], [0, 0], freshTxn);
    var ok, _ := m.Decode(buf);
    if !ok {
      return Raised;
    }
    ghost var scan := Scan(m.msg, m.msgLen, 0);
    ghost var seen: seq<Scanned> := [];
    var tups := Tups(None, None);
    BeforeNothing(scan);
    while !Eof(m.attrCursor, m.msgLen)
      invariant scan == Before(seen, Scan(m.msg, m.msgLen, m.attrCursor))
      invariant ProcAttrs(af, m.magicCookie, m.txnId, seen) == Some(tups)
      modifies m`attrCursor
      decreases |m.msg| - m.attrCursor
    {
      var read := m.ReadAttr();
      if !read.Got? {
        ProcStops(af, m.magicCookie, m.txnId, seen, []);
        return Raised;
      }
      var a := Scanned(read.code, read.data);
      var t := ProcAttr(af, m.magicCookie, m.txnId, a, tups);
      ghost var rest := Scan(m.msg, m.msgLen, m.attrCursor);
      BeforeTwice(seen, [a], rest);
      assert (seen + [a])[..|seen|] == seen;
      seen := seen + [a];
      if t.None? {
        ProcStops(af, m.magicCookie, m.txnId, seen, rest.attrs);
        return Raised;
      }
      tups := t.value;
    }
    assert seen + [] == seen;
    r := Reply(tups);
  }

  /** Once an attribute raised nothing after it matters. */
  lemma {:induction false} ProcStops(af: Af, cookie: Buf, txid: Buf, seen: seq<Scanned>, rest: seq<Scanned>)
    ensures ProcAttrs(af, cookie, txid, seen).None? ==> ProcAttrs(af, cookie, txid, seen + rest).None?
    ensures rest == [] ==> ProcAttrs(af, cookie, txid, seen + rest) == ProcAttrs(af, cookie, txid, seen)
    decreases |rest|
  {
    if |rest| == 0 {
      assert seen + rest == seen;
    } else {
      var shorter := rest[..|rest| - 1];
      ProcStops(af, cookie, txid, seen, shorter);
      assert (seen + rest)[..|seen + rest| - 1] == seen + shorter;
    }
  }

  // ------------------------------------------------------------------
  // End to end: the address a server reports is the address we learn
  // ------------------------------------------------------------------

  predicate NoAddress(attrs: seq<Attr>) {
    forall i :: 0 <= i < |attrs| ==> !MappedCode(attrs[i].code) && attrs[i].code != CHANGED_ADDRESS
  }

  predicate NoChanged(attrs: seq<Attr>) {
    forall i :: 0 <= i < |attrs| ==> attrs[i].code != CHANGED_ADDRESS
  }

  lemma {:induction false} ReadingsAppend(attrs: seq<Attr>, a: Attr)
    ensures Readings(attrs + [a]) == Readings(attrs) + [Reading(a)]
  {
    if |attrs| == 0 {
      assert attrs + [a] == [a] && [a][1..] == [];
    } else {
      assert (attrs + [a])[1..] == attrs[1..] + [a];
      ReadingsAppend(attrs[1..], a);
    }
  }

  lemma ProcAppend(af: Af, cookie: Buf, txid: Buf, attrs: seq<Attr>, a: Attr, t: Tups)
    requires ProcAttrs(af, cookie, txid, Readings(attrs)) == Some(t)
    ensures ProcAttrs(af, cookie, txid, Readings(attrs + [a])) == ProcAttr(af, cookie, txid, Reading(a), t)
  {
    ReadingsAppend(attrs, a);
    var all := Readings(attrs) + [Reading(a)];
    assert all[..|all| - 1] == Readings(attrs);
  }

  lemma {:induction false} NothingFound(af: Af, cookie: Buf, txid: Buf, attrs: seq<Attr>)
    requires NoAddress(attrs)
    ensures ProcAttrs(af, cookie, txid, Readings(attrs)) == Some(Tups(None, None))
    decreases |attrs|
  {
    if |attrs| == 0 {
    } else {
      var n := |attrs| - 1;
      NothingFound(af, cookie, txid, attrs[..n]);
      ProcAppend(af, cookie, txid, attrs[..n], attrs[n], Tups(None, None));
      assert attrs[..n] + [attrs[n]] == attrs;
    }
  }

  lemma LastOfThree(x: seq<Attr>, y: seq<Attr>, z: seq<Attr>)
    requires |z| > 0
    ensures (x + y + z[..|z| - 1]) + [z[|z| - 1]] == x + y + z
  {
  }

  /** Once an address is found, an attribute other than CHANGED-ADDRESS does not change it. */
  lemma FoundStays(af: Af, cookie: Buf, txid: Buf, attrs: seq<Attr>, a: Attr, tup: AddrTup)
    requires ProcAttrs(af, cookie, txid, Readings(attrs)) == Some(Tups(Some(tup), None)) && a.code != CHANGED_ADDRESS
    ensures ProcAttrs(af, cookie, txid, Readings(attrs + [a])) == Some(Tups(Some(tup), None))
  {
    ProcAppend(af, cookie, txid, attrs, a, Tups(Some(tup), None));
  }

  lemma {:induction false} FirstFoundStays(af: Af, cookie: Buf, txid: Buf, pre: seq<Attr>, a: Attr, post: seq<Attr>,
                                           tup: AddrTup)
    requires NoAddress(pre) && NoChanged(post)
    requires ProcAttr(af, cookie, txid, Reading(a), Tups(None, None)) == Some(Tups(Some(tup), None))
    ensures ProcAttrs(af, cookie, txid, Readings(pre + [a] + post)) == Some(Tups(Some(tup), None))
    decreases |post|
  {
    if |post| == 0 {
      NothingFound(af, cookie, txid, pre);
      ProcAppend(af, cookie, txid, pre, a, Tups(None, None));
      assert pre + [a] + post == pre + [a];
    } else {
      var n := |post| - 1;
      var before := pre + [a] + post[..n];
      FirstFoundStays(af, cookie, txid, pre, a, post[..n], tup);
      FoundStays(af, cookie, txid, before, post[n], tup);
      LastOfThree(pre, [a], post);
    }
  }

  lemma EncodedIsFound(af: Af, cookie: Buf, txid: Buf, ip: Buf, port: nat)
    requires |cookie| == 4 && |txid| == 12 && |ip| == IpLen(af) && port < 0x10000
    ensures var e := EncodeAddr(af, XOR_MAPPED_ADDRESS, cookie, txid, ip, port);
            && e.Some? && Writable(Attr(XOR_MAPPED_ADDRESS, e.value))
            && ProcAttr(af, cookie, txid, Reading(Attr(XOR_MAPPED_ADDRESS, e.value)), Tups(None, None))
               == Some(Tups(Some(AddrTup(ip, port)), None))
  {
    WholeBufferRoundTrip(af, XOR_MAPPED_ADDRESS, cookie, txid, ip, port);
  }

  /** A server that answers with an XOR-MAPPED-ADDRESS, whatever other attributes surround it, tells
      the client exactly the address it meant, in any mode and for both families. */
  lemma ReplyAddressRecovered(af: Af, mode: Mode, msgType: Buf, msgCode: Buf, cookie: Buf, txid: Buf,
                              pre: seq<Attr>, post: seq<Attr>, ip: Buf, port: nat, after: Buf)
    requires |msgType| == |msgCode| == 2 && |cookie| == 4 && |txid| == 12
    requires |ip| == IpLen(af) && port < 0x10000
    requires AllWritable(pre) && AllWritable(post) && NoAddress(pre) && NoChanged(post)
    ensures var e := EncodeAddr(af, XOR_MAPPED_ADDRESS, cookie, txid, ip, port);
            && e.Some?
            && var attrs := pre + [Attr(XOR_MAPPED_ADDRESS, e.value)] + post;
            && AllWritable(attrs)
            && (|Body(attrs)| < 0x10000 ==>
                  var sent := Packed(mode, msgType, msgCode, |Body(attrs)|, cookie, txid, Body(attrs));
                  && sent.Some?
                  && Replied(af, sent.value + after) == Reply(Tups(Some(AddrTup(ip, port)), None)))
  {
    EncodedIsFound(af, cookie, txid, ip, port);
    var a := Attr(XOR_MAPPED_ADDRESS, EncodeAddr(af, XOR_MAPPED_ADDRESS, cookie, txid, ip, port).value);
    var attrs := pre + [a] + post;
    if |Body(attrs)| < 0x10000 {
      RoundTrip(mode, msgType, msgCode, cookie, txid, attrs, after);
      FirstFoundStays(af, cookie, txid, pre, a, post, AddrTup(ip, port));
    }
  }

  // ------------------------------------------------------------------
  // A message relayed by a TURN server
  // ------------------------------------------------------------------

  datatype Relayed = Relayed(data: Option<Buf>, peer: Option<AddrTup>)

  /** The last data and the last sender win. */
  function Collect(af: Af, cookie: Buf, txid: Buf, attrs: seq<Scanned>): Option<Relayed> {
    if |attrs| == 0 then Some(Relayed(None, None))
    else
      match Collect(af, cookie, txid, attrs[..|attrs| - 1])
      case None => None
      case Some(r) => CollectOne(af, cookie, txid, attrs[|attrs| - 1], r)
  }

  function CollectOne(af: Af, cookie: Buf, txid: Buf, a: Scanned, r: Relayed): Option<Relayed> {
    if a.code == DATA then Some(r.(data := a.data))
    else if a.code == XOR_PEER_ADDRESS then
      if a.data.None? then None
      else
        match DecodeAddr(af, a.code, cookie, txid, a.data.value)
        case None => None
        case Some(d) => Some(r.(peer := Some(TupOf(d))))
    else Some(r)
  }

  /** The loop has no other way out than eof or an exception, so it returns only when the scan is not
      stuck; on success the cursor is back at the start for the next reader. */
  method TurnGetDataAttr(m: STUNMsg, af: Af) returns (r: Option<Relayed>)
    requires m.attrCursor == 0 && !Scan(m.msg, m.msgLen, 0).end.Stuck?
    modifies m`attrCursor
    ensures var scan := Scan(m.msg, m.msgLen, 0);
            r == if scan.end.AtEof? then Collect(af, m.magicCookie, m.txnId, scan.attrs) else None
    ensures r.Some? ==> m.attrCursor == 0
  {
    ghost var scan := Scan(m.msg, m.msgLen, 0);
    ghost var seen: seq<Scanned> := [];
    var got := Relayed(None, None);
    BeforeNothing(scan);
    while !Eof(m.attrCursor, m.msgLen)
      invariant scan == Before(seen, Scan(m.msg, m.msgLen, m.attrCursor))
      invariant Collect(af, m.magicCookie, m.txnId, seen) == Some(got)
      decreases |m.msg| - m.attrCursor
    {
      var read := m.ReadAttr();
      if !read.Got? {
        return None;
      }
      var a := Scanned(read.code, read.data);
      var next := CollectOne(af, m.magicCookie, m.txnId, a, got);
      ghost var rest := Scan(m.msg, m.msgLen, m.attrCursor);
      BeforeTwice(seen, [a], rest);
      assert (seen + [a])[..|seen|] == seen;
      seen := seen + [a];
      if next.None? {
        CollectStops(af, m.magicCookie, m.txnId, seen, rest.attrs);
        return None;
      }
      got := next.value;
    }
    assert seen + [] == seen;
    m.attrCursor := 0;
    r := Some(got);
  }

  lemma {:induction false} CollectStops(af: Af, cookie: Buf, txid: Buf, seen: seq<Scanned>, rest: seq<Scanned>)
    requires Collect(af, cookie, txid, seen).None?
    ensures Collect(af, cookie, txid, seen + rest).None?
    decreases |rest|
  {
    if |rest| == 0 {
      assert seen + rest == seen;
    } else {
      var shorter := rest[..|rest| - 1];
      CollectStops(af, cookie, txid, seen, shorter);
      assert (seen + rest)[..|seen + rest| - 1] == seen + shorter;
    }
  }

  predicate NoCode(attrs: seq<Attr>, code: Buf) {
    forall i :: 0 <= i < |attrs| ==> attrs[i].code != code
  }

  /** Every sender address in the list can be decoded. */
  predicate PeersDecode(af: Af, cookie: Buf, txid: Buf, attrs: seq<Attr>) {
    forall i :: 0 <= i < |attrs| && attrs[i].code == XOR_PEER_ADDRESS ==>
      attrs[i].data != [] && DecodeAddr(af, attrs[i].code, cookie, txid, attrs[i].data).Some?
  }

  lemma CollectAppend(af: Af, cookie: Buf, txid: Buf, attrs: seq<Attr>, a: Attr)
    requires Collect(af, cookie, txid, Readings(attrs)).Some?
    ensures Collect(af, cookie, txid, Readings(attrs + [a]))
            == CollectOne(af, cookie, txid, Reading(a), Collect(af, cookie, txid, Readings(attrs)).value)
  {
    ReadingsAppend(attrs, a);
    var all := Readings(attrs) + [Reading(a)];
    assert all[..|all| - 1] == Readings(attrs);
  }

  lemma {:induction false} AllCollect(af: Af, cookie: Buf, txid: Buf, attrs: seq<Attr>)
    requires PeersDecode(af, cookie, txid, attrs)
    ensures Collect(af, cookie, txid, Readings(attrs)).Some?
    decreases |attrs|
  {
    if |attrs| == 0 {
    } else {
      var n := |attrs| - 1;
      AllCollect(af, cookie, txid, attrs[..n]);
      CollectAppend(af, cookie, txid, attrs[..n], attrs[n]);
      assert attrs[..n] + [attrs[n]] == attrs;
    }
  }

  lemma PeersDecodeParts(af: Af, cookie: Buf, txid: Buf, x: seq<Attr>, y: seq<Attr>)
    ensures PeersDecode(af, cookie, txid, x + y)
            <==> PeersDecode(af, cookie, txid, x) && PeersDecode(af, cookie, txid, y)
  {
    if PeersDecode(af, cookie, txid, x + y) {
      forall i | 0 <= i < |x| ensures x[i] == (x + y)[i] {}
      forall i | 0 <= i < |y| ensures y[i] == (x + y)[|x| + i] {}
    }
  }

  /** Attributes that are not DATA leave the data alone. */
  lemma {:induction false} DataStays(af: Af, cookie: Buf, txid: Buf, attrs: seq<Attr>, post: seq<Attr>)
    requires PeersDecode(af, cookie, txid, attrs + post) && NoCode(post, DATA)
    requires Collect(af, cookie, txid, Readings(attrs)).Some?
    ensures var after := Collect(af, cookie, txid, Readings(attrs + post));
            after.Some? && after.value.data == Collect(af, cookie, txid, Readings(attrs)).value.data
    decreases |post|
  {
    if |post| == 0 {
      assert attrs + post == attrs;
    } else {
      var n := |post| - 1;
      var before := attrs + post[..n];
      assert before + [post[n]] == attrs + post;
      PeersDecodeParts(af, cookie, txid, before, [post[n]]);
      DataStays(af, cookie, txid, attrs, post[..n]);
      AllCollect(af, cookie, txid, attrs + post);
      CollectAppend(af, cookie, txid, before, post[n]);
    }
  }

  /** Attributes that are not XOR-PEER-ADDRESS leave the sender alone. */
  lemma {:induction false} PeerStays(af: Af, cookie: Buf, txid: Buf, attrs: seq<Attr>, post: seq<Attr>)
    requires NoCode(post, XOR_PEER_ADDRESS)
    requires Collect(af, cookie, txid, Readings(attrs)).Some?
    ensures var after := Collect(af, cookie, txid, Readings(attrs + post));
            after.Some? && after.value.peer == Collect(af, cookie, txid, Readings(attrs)).value.peer
    decreases |post|
  {
    if |post| == 0 {
      assert attrs + post == attrs;
    } else {
      var n := |post| - 1;
      var before := attrs + post[..n];
      assert before + [post[n]] == attrs + post;
      PeerStays(af, cookie, txid, attrs, post[..n]);
      CollectAppend(af, cookie, txid, before, post[n]);
    }
  }

  /** The last sender address. */
  lemma LastPeer(af: Af, cookie: Buf, txid: Buf, pre: seq<Attr>, a: Attr, post: seq<Attr>)
    requires PeersDecode(af, cookie, txid, pre + [a] + post)
    requires a.code == XOR_PEER_ADDRESS && NoCode(post, XOR_PEER_ADDRESS)
    ensures a.data != [] && DecodeAddr(af, XOR_PEER_ADDRESS, cookie, txid, a.data).Some?
    ensures var c := Collect(af, cookie, txid, Readings(pre + [a] + post));
            c.Some? && c.value.peer == Some(TupOf(DecodeAddr(af, XOR_PEER_ADDRESS, cookie, txid, a.data).value))
  {
    PeersDecodeParts(af, cookie, txid, pre + [a], post);
    PeersDecodeParts(af, cookie, txid, pre, [a]);
    assert [a][0] == a;
    AllCollect(af, cookie, txid, pre);
    CollectAppend(af, cookie, txid, pre, a);
    PeerStays(af, cookie, txid, pre + [a], post);
  }

  /** The last data. */
  lemma LastData(af: Af, cookie: Buf, txid: Buf, pre: seq<Attr>, a: Attr, post: seq<Attr>)
    requires PeersDecode(af, cookie, txid, pre + [a] + post)
    requires a.code == DATA && NoCode(post, DATA)
    ensures var c := Collect(af, cookie, txid, Readings(pre + [a] + post));
            c.Some? && c.value.data == Reading(a).data
  {
    PeersDecodeParts(af, cookie, txid, pre + [a], post);
    PeersDecodeParts(af, cookie, txid, pre, [a]);
    AllCollect(af, cookie, txid, pre);
    CollectAppend(af, cookie, txid, pre, a);
    DataStays(af, cookie, txid, pre + [a], post);
  }

  lemma SplitAt(attrs: seq<Attr>, i: nat)
    requires i < |attrs|
    ensures attrs == attrs[..i] + [attrs[i]] + attrs[i + 1..]
  {
  }

  /** The last sender address and the last data of a relayed message come back exactly, wherever they
      stand among other attributes. */
  lemma RelayedRecovered(af: Af, cookie: Buf, txid: Buf, attrs: seq<Attr>, i: nat, ip: Buf, port: nat, j: nat)
    requires |cookie| == 4 && |txid| == 12 && |ip| == IpLen(af) && port < 0x10000
    requires PeersDecode(af, cookie, txid, attrs) && i < |attrs| && j < |attrs|
    requires attrs[i].code == XOR_PEER_ADDRESS && NoCode(attrs[i + 1..], XOR_PEER_ADDRESS)
    requires EncodeAddr(af, XOR_PEER_ADDRESS, cookie, txid, ip, port) == Some(attrs[i].data)
    requires attrs[j].code == DATA && NoCode(attrs[j + 1..], DATA)
    ensures Collect(af, cookie, txid, Readings(attrs)) == Some(Relayed(Reading(attrs[j]).data, Some(AddrTup(ip, port))))
  {
    WholeBufferRoundTrip(af, XOR_PEER_ADDRESS, cookie, txid, ip, port);
    SplitAt(attrs, i);
    LastPeer(af, cookie, txid, attrs[..i], attrs[i], attrs[i + 1..]);
    SplitAt(attrs, j);
    LastData(af, cookie, txid, attrs[..j], attrs[j], attrs[j + 1..]);
  }

  /** What turn_get_data_attr returns for a message decoded from a buffer. */
  function RelayedFrom(af: Af, buf: Buf): Option<Relayed> {
    match Parse(buf)
    case Parsed(_, msgLen, cookie, txid, body, _) =>
      var scan := Scan(if body.Some? then body.value else [], msgLen, 0);
      if scan.end.AtEof? then Collect(af, cookie, txid, scan.attrs) else None
    case _ => None
  }

  /** From a server's packet to the data and its sender, in any mode and whatever follows the message. */
  lemma RelayedEndToEnd(af: Af, mode: Mode, msgType: Buf, msgCode: Buf, cookie: Buf, txid: Buf, attrs: seq<Attr>,
                        i: nat, ip: Buf, port: nat, j: nat, after: Buf)
    requires |msgType| == |msgCode| == 2 && AllWritable(attrs) && |Body(attrs)| < 0x10000
    requires |cookie| == 4 && |txid| == 12 && |ip| == IpLen(af) && port < 0x10000
    requires PeersDecode(af, cookie, txid, attrs) && i < |attrs| && j < |attrs|
    requires attrs[i].code == XOR_PEER_ADDRESS && NoCode(attrs[i + 1..], XOR_PEER_ADDRESS)
    requires EncodeAddr(af, XOR_PEER_ADDRESS, cookie, txid, ip, port) == Some(attrs[i].data)
    requires attrs[j].code == DATA && NoCode(attrs[j + 1..], DATA)
    ensures var sent := Packed(mode, msgType, msgCode, |Body(attrs)|, cookie, txid, Body(attrs));
            && sent.Some?
            && RelayedFrom(af, sent.value + after) == Some(Relayed(Reading(attrs[j]).data, Some(AddrTup(ip, port))))
  {
    RoundTrip(mode, msgType, msgCode, cookie, txid, attrs, after);
    RelayedRecovered(af, cookie, txid, attrs, i, ip, port, j);
  }
}
