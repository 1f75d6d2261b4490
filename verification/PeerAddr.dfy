/** Peer addresses as text: five parts, lists of interfaces, lists of fields, each with its own delimiter. */
module PeerAddr {
  import opened Families
  import opened Options

  const RESTRICT_PORT_NAT := 5

  // ------------------------------------------------------------------
  // Splitting and joining
  // ------------------------------------------------------------------

  function Join(parts: seq<string>, sep: char): string {
    if |parts| == 0 then ""
    else if |parts| == 1 then parts[0]
    else parts[0] + [sep] + Join(parts[1..], sep)
  }

  /** One more character in front: it opens a part, or extends the first one. */
  function Grow(c: char, sep: char, parts: seq<string>): (r: seq<string>)
    requires |parts| >= 1
    ensures |r| >= 1
  {
    if c == sep then [""] + parts else [[c] + parts[0]] + parts[1..]
  }

  function Split(s: string, sep: char): (parts: seq<string>)
    ensures |parts| >= 1
  {
    if |s| == 0 then [""] else Grow(s[0], sep, Split(s[1..], sep))
  }

  lemma {:induction false} SplitWhole(a: string, sep: char)
    ensures |Split(a, sep)| == 1 <==> sep !in a
    ensures sep !in a ==> Split(a, sep) == [a]
  {
    if |a| == 0 {
    } else {
      SplitWhole(a[1..], sep);
      assert a == [a[0]] + a[1..];
    }
  }

  lemma GrowFirst(c: char, sep: char, x: seq<string>, y: seq<string>)
    requires |x| >= 1
    ensures Grow(c, sep, x + y) == Grow(c, sep, x) + y
  {
    assert (x + y)[0] == x[0] && (x + y)[1..] == x[1..] + y;
  }

  /** A delimiter cuts: what stands before it is split on its own. */
  lemma {:induction false} SplitCut(a: string, sep: char, s: string)
    ensures Split(a + [sep] + s, sep) == Split(a, sep) + Split(s, sep)
  {
    var whole := a + [sep] + s;
    if |a| == 0 {
      assert whole[0] == sep && whole[1..] == s;
    } else {
      assert whole[0] == a[0] && whole[1..] == a[1..] + [sep] + s;
      SplitCut(a[1..], sep, s);
      GrowFirst(a[0], sep, Split(a[1..], sep), Split(s, sep));
    }
  }

  predicate Free(parts: seq<string>, sep: char) {
    forall i :: 0 <= i < |parts| ==> sep !in parts[i]
  }

  /** Joining and splitting: nothing is lost, and the number of parts tells whether one held the delimiter. */
  lemma {:induction false} SplitJoin(parts: seq<string>, sep: char)
    requires |parts| > 0
    ensures |Split(Join(parts, sep), sep)| >= |parts|
    ensures |Split(Join(parts, sep), sep)| == |parts| <==> Free(parts, sep)
    ensures Free(parts, sep) ==> Split(Join(parts, sep), sep) == parts
  {
    SplitWhole(parts[0], sep);
    if |parts| > 1 {
      SplitJoin(parts[1..], sep);
      SplitCut(parts[0], sep, Join(parts[1..], sep));
      assert Free(parts, sep) <==> sep !in parts[0] && Free(parts[1..], sep);
      assert parts == [parts[0]] + parts[1..];
    } else {
      assert parts == [parts[0]];
    }
  }

  lemma {:induction false} JoinHas(parts: seq<string>, sep: char, c: char)
    requires c != sep
    ensures c in Join(parts, sep) <==> exists i :: 0 <= i < |parts| && c in parts[i]
  {
    if |parts| <= 1 {
    } else {
      JoinHas(parts[1..], sep, c);
      if i :| 0 <= i < |parts| && c in parts[i] {
        assert i > 0 ==> c in parts[1..][i - 1];
      }
    }
  }

  // ------------------------------------------------------------------
  // Numbers
  // ------------------------------------------------------------------

  function Digit(d: nat): (c: char)
    requires d < 10
    ensures '0' <= c <= '9' && c as int - '0' as int == d
  {
    '0' + d as char
  }

  function Digits(n: nat): (s: string)
    ensures |s| > 0
  {
    if n < 10 then [Digit(n)] else Digits(n / 10) + [Digit(n % 10)]
  }

  /** %d */
  function Number(n: int): string {
    if n < 0 then "-" + Digits(-n) else Digits(n)
  }

  /** Only the ASCII digits are taken for numeric. */
  predicate IsNumber(s: string) {
    |s| > 0 && forall i :: 0 <= i < |s| ==> '0' <= s[i] <= '9'
  }

  function ToNumber(s: string): nat
    requires IsNumber(s)
  {
    var n := |s| - 1;
    (if n == 0 then 0 else 10 * ToNumber(s[..n])) + (s[n] as int - '0' as int)
  }

  /** int(s) for a sign and digits */
  function ToInt(s: string): Option<int> {
    if IsNumber(s) then Some(ToNumber(s))
    else if |s| > 1 && s[0] == '-' && IsNumber(s[1..]) then Some(0 - ToNumber(s[1..]))
    else None
  }

  lemma {:induction false} DigitsRoundTrip(n: nat)
    ensures IsNumber(Digits(n)) && ToNumber(Digits(n)) == n
  {
    if n < 10 {
    } else {
      DigitsRoundTrip(n / 10);
      var s := Digits(n);
      assert s[..|s| - 1] == Digits(n / 10);
    }
  }

  lemma NumberFacts(n: int)
    ensures '-' in Number(n) <==> n < 0
    ensures IsNumber(Number(n)) <==> n >= 0
    ensures ',' !in Number(n) && '|' !in Number(n) && |Number(n)| > 0
    ensures ToInt(Number(n)) == Some(n)
    ensures n >= 0 ==> ToNumber(Number(n)) == n
  {
    if n >= 0 {
      DigitsRoundTrip(n);
    } else {
      DigitsRoundTrip(-n);
      assert Number(n)[0] == '-';
      assert Number(n)[1..] == Digits(-n);
    }
  }

  // ------------------------------------------------------------------
  // Printing
  // ------------------------------------------------------------------

  datatype Nat = Nat(kind: int, deltaKind: int, delta: int)

  /** A route's outside and inside addresses; the link-local one is used for IPv6 only. */
  datatype Tokens = Tokens(ext: string, nic: string, linkLocal: Option<string>)

  datatype Nic = Nic(index: int, v4: Option<Tokens>, v6: Option<Tokens>, natInfo: Nat)

  datatype Overrides = Overrides(ip: Option<string>, natInfo: Option<Nat>, ifIndex: int)

  /** The fields of one printed interface. */
  datatype Entry = Entry(netif: int, ifIndex: int, ext: string, nic: string, port: int, natInfo: Nat)

  function RouteOf(nic: Nic, af: Af): Option<Tokens> {
    if af == IP4 then nic.v4 else nic.v6
  }

  function Preferred(ip: Option<string>, other: string): string {
    if ip.Some? && |ip.value| > 0 then ip.value else other
  }

  function InnerIp(af: Af, r: Tokens, ip: Option<string>): string {
    if af == IP4 then Preferred(ip, r.nic)
    else if ip.Some? then ip.value
    else if r.linkLocal.Some? then r.linkLocal.value
    else r.ext
  }

  /** An index of 0 counts as not given. */
  function IndexOr(given: int, i: nat): int {
    if given != 0 then given else i
  }

  function EntryOf(af: Af, i: nat, nic: Nic, port: int, o: Overrides): Option<Entry> {
    match RouteOf(nic, af)
    case None => None
    case Some(r) =>
      Some(Entry(nic.index, IndexOr(o.ifIndex, i), Preferred(o.ip, r.ext), InnerIp(af, r, o.ip), port,
                 if o.natInfo.Some? then o.natInfo.value else nic.natInfo))
  }

  function Entries(af: Af, nics: seq<Nic>, port: int, o: Overrides): seq<Entry> {
    if |nics| == 0 then []
    else
      var n := |nics| - 1;
      var e := EntryOf(af, n, nics[n], port, o);
      Entries(af, nics[..n], port, o) + if e.Some? then [e.value] else []
  }

  function Fields(e: Entry): (f: seq<string>)
    ensures |f| == 8
  {
    [Number(e.netif), Number(e.ifIndex), e.ext, e.nic, Number(e.port),
     Number(e.natInfo.kind), Number(e.natInfo.deltaKind), Number(e.natInfo.delta)]
  }

  function Printed(e: Entry): string {
    "[" + Join(Fields(e), ',') + "]"
  }

  function PrintedAll(es: seq<Entry>): (s: seq<string>)
    ensures |s| == |es|
  {
    seq(|es|, i requires 0 <= i < |es| => Printed(es[i]))
  }

  function FamilyPart(es: seq<Entry>): string {
    if |es| == 0 then "0" else Join(PrintedAll(es), '|')
  }

  function Numbers(ns: seq<int>): (s: seq<string>)
    ensures |s| == |ns|
  {
    seq(|ns|, i requires 0 <= i < |ns| => Number(ns[i]))
  }

  function SignalPart(signals: seq<int>): string {
    if |signals| == 0 then "None" else Join(Numbers(signals), ',')
  }

  function Parts(nodeId: string, machineId: string, v4: seq<Entry>, v6: seq<Entry>, signals: seq<int>)
    : (p: seq<string>)
    ensures |p| == 5
  {
    [SignalPart(signals), FamilyPart(v4), FamilyPart(v6), nodeId, machineId]
  }

  /** The printed address; None where an assertion fails. */
  function Made(nodeId: string, machineId: string, nics: seq<Nic>, signals: seq<int>, port: int, o: Overrides)
    : Option<string>
  {
    if |nics| == 0 || port == 0 then None
    else Some(Join(Parts(nodeId, machineId, Entries(IP4, nics, port, o), Entries(IP6, nics, port, o), signals), '-'))
  }

  method PrintFamily(af: Af, nics: seq<Nic>, port: int, o: Overrides) returns (part: string)
    ensures part == FamilyPart(Entries(af, nics, port, o))
  {
    var afBufs: seq<string> := [];
    ghost var es := [];
    for i := 0 to |nics|
      invariant es == Entries(af, nics[..i], port, o) && afBufs == PrintedAll(es)
    {
      assert nics[..i + 1][..i] == nics[..i];
      var route := RouteOf(nics[i], af);
      if route.None? {
        continue;
      }
      var e := EntryOf(af, i, nics[i], port, o);
      afBufs := afBufs + [Printed(e.value)];
      es := es + [e.value];
    }
    assert nics[..|nics|] == nics;
    if |afBufs| > 0 {
      part := Join(afBufs, '|');
    } else {
      part := "0";
    }
  }

  method MakePeerAddr(nodeId: string, machineId: string, nics: seq<Nic>, signals: seq<int>, port: int, o: Overrides)
    returns (r: Option<string>)
    ensures r == Made(nodeId, machineId, nics, signals, port, o)
    ensures r.None? <==> |nics| == 0 || port == 0
  {
    if |nics| == 0 || port == 0 {
      return None;
    }
    var bufs := [SignalPart(signals)];
    var part := PrintFamily(IP4, nics, port, o);
    bufs := bufs + [part];
    part := PrintFamily(IP6, nics, port, o);
    bufs := bufs + [part];
    bufs := bufs + [nodeId];
    bufs := bufs + [machineId];
    assert bufs == Parts(nodeId, machineId, Entries(IP4, nics, port, o), Entries(IP6, nics, port, o), signals);
    r := Some(Join(bufs, '-'));
  }

  lemma {:induction false} JoinPair(a: string, rest: seq<string>, sep: char)
    requires |rest| > 0
    ensures Join([a] + rest, sep) == a + [sep] + Join(rest, sep)
  {
    assert ([a] + rest)[1..] == rest;
  }

  lemma JoinFive(a: string, b: string, c: string, d: string, e: string, sep: char)
    ensures Join([a, b, c, d, e], sep) == a + [sep] + (b + [sep] + (c + [sep] + (d + [sep] + e)))
  {
    JoinPair(d, [e], sep);
    assert [d] + [e] == [d, e];
    JoinPair(c, [d, e], sep);
    assert [c] + [d, e] == [c, d, e];
    JoinPair(b, [c, d, e], sep);
    assert [b] + [c, d, e] == [b, c, d, e];
    JoinPair(a, [b, c, d, e], sep);
    assert [a] + [b, c, d, e] == [a, b, c, d, e];
  }

  lemma FieldsJoined(e: Entry)
    ensures Printed(e)
            == "[" + (Number(e.netif) + "," + (Number(e.ifIndex) + "," + (e.ext + "," + (e.nic + ","
               + (Number(e.port) + "," + (Number(e.natInfo.kind) + "," + (Number(e.natInfo.deltaKind) + ","
               + Number(e.natInfo.delta)))))))) + "]"
  {
    var f := Fields(e);
    JoinFive(f[3], f[4], f[5], f[6], f[7], ',');
    assert [f[2]] + [f[3], f[4], f[5], f[6], f[7]] == f[2..] && f[2..][1..] == f[3..];
    JoinPair(f[2], f[3..], ',');
    assert [f[3], f[4], f[5], f[6], f[7]] == f[3..];
    JoinPair(f[1], f[2..], ',');
    assert [f[1]] + f[2..] == f[1..];
    JoinPair(f[0], f[1..], ',');
    assert [f[0]] + f[1..] == f;
  }

  /** The text of a peer with one IPv4 interface and no signal server. */
  lemma TextOfOneInterface(nodeId: string, machineId: string, index: int, r: Tokens, natInfo: Nat, port: int)
    requires port != 0
    ensures Made(nodeId, machineId, [Nic(index, Some(r), None, natInfo)], [], port, Overrides(None, None, 0))
            == Some("None" + "-" + (("[" + (Number(index) + "," + ("0" + "," + (r.ext + "," + (r.nic + ","
               + (Number(port) + "," + (Number(natInfo.kind) + "," + (Number(natInfo.deltaKind) + ","
               + Number(natInfo.delta)))))))) + "]") + "-" + ("0" + "-" + (nodeId + "-" + machineId))))
  {
    var nic, o := Nic(index, Some(r), None, natInfo), Overrides(None, None, 0);
    var e := Entry(index, 0, r.ext, r.nic, port, natInfo);
    assert [nic][..0] == [];
    assert EntryOf(IP4, 0, nic, port, o) == Some(e) && EntryOf(IP6, 0, nic, port, o) == None;
    assert Entries(IP4, [nic], port, o) == Entries(IP4, [], port, o) + [e] == [e];
    assert Entries(IP6, [nic], port, o) == Entries(IP6, [], port, o) + [] == [];
    assert PrintedAll([e]) == [Printed(e)] && FamilyPart([e]) == Printed(e);
    FieldsJoined(e);
    assert Number(0) == "0";
    JoinFive("None", Printed(e), "0", nodeId, machineId, '-');
  }

  // ------------------------------------------------------------------
  // Parsing
  // ------------------------------------------------------------------

  /** An interface as parsed; the two addresses are known to be valid. */
  datatype IfInfo = IfInfo(netif: int, ifIndex: int, ext: string, nic: string, natInfo: Nat, port: int)

  datatype Address = Address(v4: map<int, IfInfo>, v6: map<int, IfInfo>, nodeId: string, machineId: string,
                             signals: seq<int>)

  /** NotAnAddress stands for None, Raises for the exception of a signal that is no number. */
  datatype Parsed = NotAnAddress | Raises | Parsed(address: Address)

  /** A kind of 0 counts as not given. */
  function NatInfo(kind: int, deltaKind: int, delta: int): Nat {
    Nat(if kind != 0 then kind else RESTRICT_PORT_NAT, deltaKind, delta)
  }

  predicate NumericFields(f: seq<string>)
    requires |f| == 8
  {
    IsNumber(f[0]) && IsNumber(f[1]) && IsNumber(f[4]) && IsNumber(f[5]) && IsNumber(f[6]) && IsNumber(f[7])
  }

  /** One interface without its first and last character; None where it is skipped. */
  function InfoFrom(info: string, validIp: string -> bool): Option<IfInfo> {
    if |info| < 2 then None
    else
      var f := Split(info[1..|info| - 1], ',');
      if |f| != 8 || !NumericFields(f) || !validIp(f[2]) || !validIp(f[3]) then None
      else Some(IfInfo(ToNumber(f[0]), ToNumber(f[1]), f[2], f[3],
                       NatInfo(ToNumber(f[5]), ToNumber(f[6]), ToNumber(f[7])), ToNumber(f[4])))
  }

  /** Later interfaces replace earlier ones of the same index. */
  function Collect(infos: seq<string>, validIp: string -> bool): map<int, IfInfo> {
    if |infos| == 0 then map[]
    else
      var before := Collect(infos[..|infos| - 1], validIp);
      match InfoFrom(infos[|infos| - 1], validIp)
      case None => before
      case Some(info) => before[info.ifIndex := info]
  }

  /** The numbers among the offsets that name a server; None where one is no number. */
  function SignalsFrom(parts: seq<string>, servers: nat): Option<seq<int>> {
    if |parts| == 0 then Some([])
    else
      var before := SignalsFrom(parts[..|parts| - 1], servers);
      var n := ToInt(parts[|parts| - 1]);
      if before.None? || n.None? then None
      else if 0 <= n.value <= servers - 1 then Some(before.value + [n.value])
      else before
  }

  function ParsedFrom(addr: string, servers: nat, validIp: string -> bool): Parsed {
    var parts := Split(addr, '-');
    if |parts| != 5 then NotAnAddress
    else
      var signals := if parts[0] == "None" then Some([]) else SignalsFrom(Split(parts[0], ','), servers);
      if signals.None? then Raises
      else Parsed(Address(Collect(Split(parts[1], '|'), validIp), Collect(Split(parts[2], '|'), validIp),
                          parts[3], parts[4], signals.value))
  }

  method ParseSignals(parts: seq<string>, servers: nat) returns (r: Option<seq<int>>)
    ensures r == SignalsFrom(parts, servers)
  {
    var signals := [];
    for i := 0 to |parts|
      invariant SignalsFrom(parts[..i], servers) == Some(signals)
    {
      assert parts[..i + 1][..i] == parts[..i];
      var n := ToInt(parts[i]);
      if n.None? {
        NoneStays(parts, i + 1, servers);
        return None;
      }
      if 0 <= n.value <= servers - 1 {
        signals := signals + [n.value];
      }
    }
    assert parts[..|parts|] == parts;
    r := Some(signals);
  }

  lemma {:induction false} NoneStays(parts: seq<string>, i: nat, servers: nat)
    requires i <= |parts| && SignalsFrom(parts[..i], servers) == None
    ensures SignalsFrom(parts, servers) == None
    decreases |parts|
  {
    if i < |parts| {
      assert parts[..|parts| - 1][..i] == parts[..i];
      NoneStays(parts[..|parts| - 1], i, servers);
    } else {
      assert parts[..i] == parts;
    }
  }

  method ParseFamily(part: string, validIp: string -> bool) returns (out: map<int, IfInfo>)
    ensures out == Collect(Split(part, '|'), validIp)
  {
    var infos := Split(part, '|');
    out := map[];
    for i := 0 to |infos|
      invariant out == Collect(infos[..i], validIp)
    {
      assert infos[..i + 1][..i] == infos[..i];
      var info := infos[i];
      if |info| < 2 {
        continue;
      }
      var f := Split(info[1..|info| - 1], ',');
      if |f| != 8 {
        continue;
      }
      if !NumericFields(f) {
        continue;
      }
      if !validIp(f[2]) {
        continue;
      }
      if !validIp(f[3]) {
        continue;
      }
      var natInfo := NatInfo(ToNumber(f[5]), ToNumber(f[6]), ToNumber(f[7]));
      out := out[ToNumber(f[1]) := IfInfo(ToNumber(f[0]), ToNumber(f[1]), f[2], f[3], natInfo, ToNumber(f[4]))];
    }
    assert infos[..|infos|] == infos;
  }

  method ParsePeerAddr(addr: string, servers: nat, validIp: string -> bool) returns (r: Parsed)
    ensures r == ParsedFrom(addr, servers, validIp)
  {
    var parts := Split(addr, '-');
    if |parts| != 5 {
      return NotAnAddress;
    }
    var signals := [];
    if parts[0] != "None" {
      var found := ParseSignals(Split(parts[0], ','), servers);
      if found.None? {
        return Raises;
      }
      signals := found.value;
    }
    var v4 := ParseFamily(parts[1], validIp);
    var v6 := ParseFamily(parts[2], validIp);
    r := Parsed(Address(v4, v6, parts[3], parts[4], signals));
  }

  // ------------------------------------------------------------------
  // Round trip
  // ------------------------------------------------------------------

  predicate Counted(e: Entry) {
    && e.netif >= 0 && e.ifIndex >= 0 && e.port >= 0
    && e.natInfo.kind >= 0 && e.natInfo.deltaKind >= 0 && e.natInfo.delta >= 0
  }

  predicate Without(e: Entry, c: char) {
    c !in e.ext && c !in e.nic
  }

  function InfoOf(e: Entry): IfInfo {
    IfInfo(e.netif, e.ifIndex, e.ext, e.nic, NatInfo(e.natInfo.kind, e.natInfo.deltaKind, e.natInfo.delta), e.port)
  }

  predicate Readable(e: Entry, validIp: string -> bool) {
    Counted(e) && validIp(e.ext) && validIp(e.nic)
  }

  /** A field is an address, or a number that is counted. */
  lemma EachField(e: Entry, i: nat)
    requires i < 8
    ensures i == 2 ==> Fields(e)[i] == e.ext
    ensures i == 3 ==> Fields(e)[i] == e.nic
    ensures i != 2 && i != 3 ==> Fields(e)[i] == Number(NumberAt(e, i))
  {
  }

  function NumberAt(e: Entry, i: nat): int {
    match i
    case 0 => e.netif
    case 1 => e.ifIndex
    case 4 => e.port
    case 5 => e.natInfo.kind
    case 6 => e.natInfo.deltaKind
    case _ => e.natInfo.delta
  }

  lemma CountedIff(e: Entry)
    ensures Counted(e) <==> forall i :: 0 <= i < 8 && i != 2 && i != 3 ==> NumberAt(e, i) >= 0
  {
    assert NumberAt(e, 0) == e.netif && NumberAt(e, 1) == e.ifIndex && NumberAt(e, 4) == e.port;
    assert NumberAt(e, 5) == e.natInfo.kind && NumberAt(e, 6) == e.natInfo.deltaKind;
    assert NumberAt(e, 7) == e.natInfo.delta;
  }

  lemma FieldHas(e: Entry, i: nat, c: char)
    requires i < 8 && (c == ',' || c == '|' || c == '-')
    ensures c in Fields(e)[i]
            <==> (i == 2 && c in e.ext) || (i == 3 && c in e.nic)
                 || (i != 2 && i != 3 && c == '-' && NumberAt(e, i) < 0)
  {
    EachField(e, i);
    NumberFacts(NumberAt(e, i));
  }

  lemma FieldsNumeric(e: Entry)
    ensures NumericFields(Fields(e)) <==> Counted(e)
  {
    NumberFacts(e.netif);
    NumberFacts(e.ifIndex);
    NumberFacts(e.port);
    NumberFacts(e.natInfo.kind);
    NumberFacts(e.natInfo.deltaKind);
    NumberFacts(e.natInfo.delta);
  }

  predicate SomeFieldHas(e: Entry, c: char) {
    exists i :: 0 <= i < 8 && c in Fields(e)[i]
  }

  lemma FieldsHave(e: Entry, c: char)
    requires c == ',' || c == '|' || c == '-'
    ensures SomeFieldHas(e, c) <==> !Without(e, c) || (c == '-' && !Counted(e))
  {
    CountedIff(e);
    FieldHas(e, 2, c);
    FieldHas(e, 3, c);
    if i :| 0 <= i < 8 && c in Fields(e)[i] {
      FieldHas(e, i, c);
    }
    if c == '-' && !Counted(e) {
      var i :| 0 <= i < 8 && i != 2 && i != 3 && NumberAt(e, i) < 0;
      FieldHas(e, i, c);
    }
  }

  /** A printed interface is read back exactly when its numbers are not negative and its addresses are valid. */
  lemma EntryReturns(e: Entry, validIp: string -> bool)
    requires Without(e, ',')
    ensures InfoFrom(Printed(e), validIp) == if Readable(e, validIp) then Some(InfoOf(e)) else None
  {
    var info := Printed(e);
    assert info[1..|info| - 1] == Join(Fields(e), ',');
    FieldsHave(e, ',');
    FieldsNumeric(e);
    assert Free(Fields(e), ',');
    SplitJoin(Fields(e), ',');
    if Counted(e) {
      NumberFacts(e.netif);
      NumberFacts(e.ifIndex);
      NumberFacts(e.port);
      NumberFacts(e.natInfo.kind);
      NumberFacts(e.natInfo.deltaKind);
      NumberFacts(e.natInfo.delta);
    }
  }

  lemma PrintedHas(e: Entry, c: char)
    requires c == '-' || c == '|'
    ensures c in Printed(e) <==> !Without(e, c) || (c == '-' && !Counted(e))
  {
    FieldsHave(e, c);
    JoinHas(Fields(e), ',', c);
    assert c in Printed(e) <==> c in Join(Fields(e), ',');
  }

  predicate AllWithout(es: seq<Entry>, c: char) {
    forall i :: 0 <= i < |es| ==> Without(es[i], c)
  }

  predicate AllCounted(es: seq<Entry>) {
    forall i :: 0 <= i < |es| ==> Counted(es[i])
  }

  /** The interfaces that can be read, by index; later ones replace earlier ones. */
  function Keyed(es: seq<Entry>, validIp: string -> bool): map<int, IfInfo> {
    if |es| == 0 then map[]
    else
      var n := |es| - 1;
      var before := Keyed(es[..n], validIp);
      if Readable(es[n], validIp) then before[es[n].ifIndex := InfoOf(es[n])] else before
  }

  lemma {:induction false} CollectPrinted(es: seq<Entry>, validIp: string -> bool)
    requires AllWithout(es, ',')
    ensures Collect(PrintedAll(es), validIp) == Keyed(es, validIp)
  {
    if |es| == 0 {
    } else {
      var n := |es| - 1;
      assert PrintedAll(es)[..n] == PrintedAll(es[..n]);
      CollectPrinted(es[..n], validIp);
      EntryReturns(es[n], validIp);
    }
  }

  /** A family's part comes back as its readable interfaces. */
  lemma FamilyReturns(es: seq<Entry>, validIp: string -> bool)
    requires AllWithout(es, ',') && AllWithout(es, '|')
    ensures Collect(Split(FamilyPart(es), '|'), validIp) == Keyed(es, validIp)
  {
    if |es| == 0 {
      SplitWhole("0", '|');
      assert Split("0", '|') == ["0"];
      assert ["0"][..0] == [];
      assert InfoFrom("0", validIp) == None;
    } else {
      forall i | 0 <= i < |es| ensures '|' !in PrintedAll(es)[i] {
        PrintedHas(es[i], '|');
      }
      SplitJoin(PrintedAll(es), '|');
      CollectPrinted(es, validIp);
    }
  }

  predicate InServerRange(signals: seq<int>, servers: nat) {
    forall i :: 0 <= i < |signals| ==> 0 <= signals[i] < servers
  }

  lemma {:induction false} SignalsReturn(signals: seq<int>, servers: nat)
    requires InServerRange(signals, servers)
    ensures SignalsFrom(Numbers(signals), servers) == Some(signals)
  {
    if |signals| == 0 {
    } else {
      var n := |signals| - 1;
      assert Numbers(signals)[..n] == Numbers(signals[..n]);
      SignalsReturn(signals[..n], servers);
      NumberFacts(signals[n]);
      assert signals == signals[..n] + [signals[n]];
    }
  }

  function Occurrences(ns: seq<int>, x: int): nat {
    if |ns| == 0 then 0
    else Occurrences(ns[..|ns| - 1], x) + if ns[|ns| - 1] == x then 1 else 0
  }

  lemma CountOneMore(ns: seq<int>, n: int, x: int)
    ensures Occurrences(ns + [n], x) == Occurrences(ns, x) + if n == x then 1 else 0
  {
    assert (ns + [n])[..|ns|] == ns;
  }

  /** x stands in `kept` as often as in `all` if it names a server, and else not at all. */
  predicate KeptAsOften(kept: seq<int>, all: seq<int>, servers: nat, x: int) {
    Occurrences(kept, x) == if 0 <= x < servers then Occurrences(all, x) else 0
  }

  lemma KeepOneMore(kept: seq<int>, all: seq<int>, servers: nat, x: int, n: int)
    requires KeptAsOften(kept, all, servers, x)
    ensures KeptAsOften(if 0 <= n < servers then kept + [n] else kept, all + [n], servers, x)
  {
    CountOneMore(kept, n, x);
    CountOneMore(all, n, x);
  }

  /** Of the printed offsets exactly those that name a server are kept, each as often as it was printed. */
  lemma {:induction false} NamedServersKept(signals: seq<int>, servers: nat, x: int)
    ensures var r := SignalsFrom(Numbers(signals), servers);
            r.Some? && KeptAsOften(r.value, signals, servers, x)
  {
    if |signals| == 0 {
    } else {
      var n := |signals| - 1;
      var rest, last := signals[..n], signals[n];
      NamedServersKept(rest, servers, x);
      var kept := SignalsFrom(Numbers(rest), servers).value;
      KeepOneMore(kept, rest, servers, x, last);
      OneMoreSignal(rest, last, servers);
      assert rest + [last] == signals;
    }
  }

  lemma OneMoreSignal(rest: seq<int>, last: int, servers: nat)
    requires SignalsFrom(Numbers(rest), servers).Some?
    ensures var kept := SignalsFrom(Numbers(rest), servers).value;
            SignalsFrom(Numbers(rest + [last]), servers)
            == Some(if 0 <= last < servers then kept + [last] else kept)
  {
    var parts := Numbers(rest + [last]);
    assert parts[..|parts| - 1] == Numbers(rest);
    NumberFacts(last);
  }

  /** One offset that is no number is enough to raise. */
  lemma {:induction false} SignalsRaiseIff(parts: seq<string>, servers: nat)
    ensures SignalsFrom(parts, servers).None? <==> exists part <- parts :: ToInt(part).None?
  {
    if |parts| == 0 {
    } else {
      var n := |parts| - 1;
      SignalsRaiseIff(parts[..n], servers);
      assert parts == parts[..n] + [parts[n]];
    }
  }

  lemma SignalPartReturns(signals: seq<int>, servers: nat)
    requires InServerRange(signals, servers)
    ensures var p := SignalPart(signals);
            (if p == "None" then Some([]) else SignalsFrom(Split(p, ','), servers)) == Some(signals)
  {
    if |signals| > 0 {
      forall i | 0 <= i < |signals| ensures ',' !in Numbers(signals)[i] {
        NumberFacts(signals[i]);
      }
      SplitJoin(Numbers(signals), ',');
      SignalsReturn(signals, servers);
      NumberFacts(signals[0]);
      assert Join(Numbers(signals), ',')[0] == Number(signals[0])[0];
      assert "None"[0] == 'N';
    }
  }

  lemma FamilyHasDash(es: seq<Entry>)
    ensures '-' !in FamilyPart(es) <==> AllCounted(es) && AllWithout(es, '-')
  {
    forall i | 0 <= i < |es| ensures '-' in PrintedAll(es)[i] <==> !Counted(es[i]) || !Without(es[i], '-') {
      PrintedHas(es[i], '-');
    }
    JoinHas(PrintedAll(es), '|', '-');
  }

  lemma SignalHasDash(signals: seq<int>)
    ensures '-' !in SignalPart(signals) <==> forall i :: 0 <= i < |signals| ==> signals[i] >= 0
  {
    forall i | 0 <= i < |signals| ensures '-' in Numbers(signals)[i] <==> signals[i] < 0 {
      NumberFacts(signals[i]);
    }
    JoinHas(Numbers(signals), ',', '-');
  }

  /** No number is negative and no text holds a dash. */
  predicate Dashless(nodeId: string, machineId: string, v4: seq<Entry>, v6: seq<Entry>, signals: seq<int>) {
    && '-' !in nodeId && '-' !in machineId
    && AllCounted(v4) && AllWithout(v4, '-') && AllCounted(v6) && AllWithout(v6, '-')
    && (forall i :: 0 <= i < |signals| ==> signals[i] >= 0)
  }

  lemma PartsFreeIff(nodeId: string, machineId: string, v4: seq<Entry>, v6: seq<Entry>, signals: seq<int>)
    ensures Free(Parts(nodeId, machineId, v4, v6, signals), '-') <==> Dashless(nodeId, machineId, v4, v6, signals)
  {
    FamilyHasDash(v4);
    FamilyHasDash(v6);
    SignalHasDash(signals);
    var p := Parts(nodeId, machineId, v4, v6, signals);
    assert p[0] == SignalPart(signals) && p[1] == FamilyPart(v4) && p[2] == FamilyPart(v6);
    assert p[3] == nodeId && p[4] == machineId;
  }

  /** A printed address is rejected as a whole exactly when a number is negative or a text holds a dash. */
  lemma RejectedIff(nodeId: string, machineId: string, nics: seq<Nic>, signals: seq<int>, port: int, o: Overrides,
                    servers: nat, validIp: string -> bool)
    requires Made(nodeId, machineId, nics, signals, port, o).Some?
    ensures ParsedFrom(Made(nodeId, machineId, nics, signals, port, o).value, servers, validIp) == NotAnAddress
            <==> !Dashless(nodeId, machineId, Entries(IP4, nics, port, o), Entries(IP6, nics, port, o), signals)
  {
    var v4, v6 := Entries(IP4, nics, port, o), Entries(IP6, nics, port, o);
    PartsFreeIff(nodeId, machineId, v4, v6, signals);
    SplitJoin(Parts(nodeId, machineId, v4, v6, signals), '-');
  }

  predicate Delimited(es: seq<Entry>) {
    AllWithout(es, ',') && AllWithout(es, '|')
  }

  /** Printing and parsing gives back the signals, both families' readable interfaces and both ids. */
  lemma AddressReturns(nodeId: string, machineId: string, nics: seq<Nic>, signals: seq<int>, port: int, o: Overrides,
                       servers: nat, validIp: string -> bool)
    requires Made(nodeId, machineId, nics, signals, port, o).Some? && InServerRange(signals, servers)
    requires var v4, v6 := Entries(IP4, nics, port, o), Entries(IP6, nics, port, o);
             Delimited(v4) && Delimited(v6) && Dashless(nodeId, machineId, v4, v6, signals)
    ensures ParsedFrom(Made(nodeId, machineId, nics, signals, port, o).value, servers, validIp)
            == Parsed(Address(Keyed(Entries(IP4, nics, port, o), validIp), Keyed(Entries(IP6, nics, port, o), validIp),
                              nodeId, machineId, signals))
  {
    var v4, v6 := Entries(IP4, nics, port, o), Entries(IP6, nics, port, o);
    PartsFreeIff(nodeId, machineId, v4, v6, signals);
    SplitJoin(Parts(nodeId, machineId, v4, v6, signals), '-');
    FamilyReturns(v4, validIp);
    FamilyReturns(v6, validIp);
    SignalPartReturns(signals, servers);
  }

  // ------------------------------------------------------------------
  // Which interfaces survive
  // ------------------------------------------------------------------

  /** Without a given index every interface keeps its place: none replaces another. */
  lemma {:induction false} EachInterfaceKept(af: Af, nics: seq<Nic>, port: int, o: Overrides,
                                             validIp: string -> bool, i: nat)
    requires o.ifIndex == 0 && i < |nics|
    ensures var e := EntryOf(af, i, nics[i], port, o);
            var kept := Keyed(Entries(af, nics, port, o), validIp);
            if e.Some? && Readable(e.value, validIp) then i in kept && kept[i] == InfoOf(e.value) else i !in kept
    decreases |nics|
  {
    var n := |nics| - 1;
    var before := Entries(af, nics[..n], port, o);
    KeyedStep(af, nics, port, o, validIp);
    if i < n {
      EachInterfaceKept(af, nics[..n], port, o, validIp, i);
    } else {
      KeysBelow(af, nics[..n], port, o, validIp);
    }
  }

  /** The last interface is added under its index if it has a route and can be read. */
  lemma KeyedStep(af: Af, nics: seq<Nic>, port: int, o: Overrides, validIp: string -> bool)
    requires |nics| > 0
    ensures var n := |nics| - 1;
            var e := EntryOf(af, n, nics[n], port, o);
            var before := Keyed(Entries(af, nics[..n], port, o), validIp);
            Keyed(Entries(af, nics, port, o), validIp)
            == if e.Some? && Readable(e.value, validIp) then before[e.value.ifIndex := InfoOf(e.value)] else before
  {
    var n := |nics| - 1;
    var e := EntryOf(af, n, nics[n], port, o);
    var before, es := Entries(af, nics[..n], port, o), Entries(af, nics, port, o);
    if e.Some? {
      assert es[..|es| - 1] == before && es[|es| - 1] == e.value;
    } else {
      assert es == before;
    }
  }

  lemma {:induction false} KeysBelow(af: Af, nics: seq<Nic>, port: int, o: Overrides, validIp: string -> bool)
    requires o.ifIndex == 0
    ensures forall k :: k in Keyed(Entries(af, nics, port, o), validIp) ==> 0 <= k < |nics|
  {
    if |nics| == 0 {
    } else {
      KeysBelow(af, nics[..|nics| - 1], port, o, validIp);
      KeyedStep(af, nics, port, o, validIp);
    }
  }

  /** An override that is not empty is the outside address, otherwise the route's own is. */
  predicate Outside(r: Tokens, o: Overrides, ext: string) {
    && (o.ip == None || o.ip == Some("") ==> ext == r.ext)
    && (o.ip != None && o.ip != Some("") ==> o.ip == Some(ext))
  }

  /** The inside address: for IPv4 the override unless it is empty, then the NIC's own; for IPv6 any
      override, then the link-local address, then the outside one. */
  predicate Inside(af: Af, r: Tokens, o: Overrides, nic: string) {
    && (af == IP4 && (o.ip == None || o.ip == Some("")) ==> nic == r.nic)
    && (af == IP4 && o.ip != None && o.ip != Some("") ==> o.ip == Some(nic))
    && (af == IP6 && o.ip != None ==> o.ip == Some(nic))
    && (af == IP6 && o.ip == None && r.linkLocal != None ==> r.linkLocal == Some(nic))
    && (af == IP6 && o.ip == None && r.linkLocal == None ==> nic == r.ext)
  }

  predicate InForce(nic: Nic, o: Overrides, natInfo: Nat) {
    (o.natInfo == None && natInfo == nic.natInfo) || o.natInfo == Some(natInfo)
  }

  /** An interface comes back, under its own place, exactly when it has a route, no number is negative and
      both its addresses are valid; then with these fields, and a NAT of kind 0 as a port-restricted one. */
  lemma InterfaceReturnsIff(af: Af, nics: seq<Nic>, port: int, o: Overrides, validIp: string -> bool, i: nat,
                            r: Tokens, ext: string, inner: string, natInfo: Nat)
    requires o.ifIndex == 0 && i < |nics| && Outside(r, o, ext) && Inside(af, r, o, inner)
    requires InForce(nics[i], o, natInfo) && Some(r) == if af == IP4 then nics[i].v4 else nics[i].v6
    ensures var kept := Keyed(Entries(af, nics, port, o), validIp);
            && (i in kept <==> && nics[i].index >= 0 && port >= 0 && natInfo.kind >= 0 && natInfo.deltaKind >= 0
                               && natInfo.delta >= 0 && validIp(ext) && validIp(inner))
            && (i in kept ==> kept[i] == IfInfo(nics[i].index, i, ext, inner,
                                                natInfo.(kind := if natInfo.kind == 0 then 5 else natInfo.kind), port))
  {
    EachInterfaceKept(af, nics, port, o, validIp, i);
    assert EntryOf(af, i, nics[i], port, o) == Some(Entry(nics[i].index, i, ext, inner, port, natInfo));
  }

  /** An interface without a route of the family does not come back in it. */
  lemma NoRouteNoInterface(af: Af, nics: seq<Nic>, port: int, o: Overrides, validIp: string -> bool, i: nat)
    requires o.ifIndex == 0 && i < |nics| && (if af == IP4 then nics[i].v4 else nics[i].v6).None?
    ensures i !in Keyed(Entries(af, nics, port, o), validIp)
  {
    EachInterfaceKept(af, nics, port, o, validIp, i);
  }

  /** With an index given, at most one interface of a family comes back. */
  lemma {:induction false} GivenIndexKeepsOne(af: Af, nics: seq<Nic>, port: int, o: Overrides, validIp: string -> bool)
    requires o.ifIndex != 0
    ensures Keyed(Entries(af, nics, port, o), validIp).Keys <= {o.ifIndex}
  {
    if |nics| == 0 {
    } else {
      GivenIndexKeepsOne(af, nics[..|nics| - 1], port, o, validIp);
      KeyedStep(af, nics, port, o, validIp);
    }
  }
}
