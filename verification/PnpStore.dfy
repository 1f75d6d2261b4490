/**
 The tables of the name server and the statements that change them.  A message is one
 transaction, except that pruning commits what it deleted on its own.
 */
module PnpStore {
  import opened Bytes
  import opened Families
  import opened Options
  import opened PnpPacket

  const MIN_NAME_DURATION := 604800
  const MIN_DURATION_PENALTY := 60
  const BEHAVIOR_DONT_BUMP := 0

  /** A duration. */
  type Seconds = s: int | 0 < s < 0x1_0000_0000 witness 1

  /** Limits of a server; `ip6` is the platform's number for the IPv6 address family. */
  datatype Config = Config(
    v4NameLimit: nat, v6NameLimit: nat, subnetLimit: nat, ifaceLimit: nat,
    nameDuration: Seconds, addrExpiry: Seconds, ip6: nat)

  /** Does the signature (third) over the message (second) verify under the key (first)? */
  type Verifier = (Buf, Buf, Buf) -> bool

  /** A verifier that accepts every signature, for the runs given as examples. */
  const EVERYONE: Verifier := (k: Buf, m: Buf, s: Buf) => true

  datatype V6Parts = V6Parts(main: nat, extra: nat, lan: nat, iface: nat)

  datatype Ip = V4(val: nat) | V6(parts: V6Parts)

  /** Rows; the timestamp columns are unsigned. */
  datatype V4Row = V4Row(val: nat, ts: nat)
  datatype V6Row = V6Row(parts: V6Parts, ts: nat)
  datatype NameRow = NameRow(name: Buf, value: Buf, owner: Buf, af: Af, ip: nat, ts: nat)

  /** Tables keyed by row id; the counters hand out ids and are never taken back. */
  datatype Tables = Tables(
    v4: map<nat, V4Row>, v6: map<nat, V6Row>, names: map<nat, NameRow>,
    nextV4: nat, nextV6: nat, nextName: nat)

  function AfNumber(c: Config, af: Af): nat {
    if af == IP4 then 2 else c.ip6
  }

  function NameLimit(c: Config, af: Af): nat {
    if af == IP4 then c.v4NameLimit else c.v6NameLimit
  }

  function AfOf(ip: Ip): Af {
    if ip.V4? then IP4 else IP6
  }

  // ------------------------------------------------------------------
  // Splitting an IPv6 address into columns
  // ------------------------------------------------------------------

  /** The 16-bit groups of an address, most significant first. */
  type Groups = g: seq<nat> | |g| == 8 && forall i :: 0 <= i < 8 ==> g[i] < 65536
    witness [0, 0, 0, 0, 0, 0, 0, 0]

  function V6PartsOf(g: Groups): V6Parts {
    V6Parts(g[0] * 65536 + g[1], g[2], g[3], ((g[4] * 65536 + g[5]) * 65536 + g[6]) * 65536 + g[7])
  }

  lemma DigitsDetermine(a: nat, b: nat, c: nat, d: nat)
    requires b < 65536 && d < 65536 && a * 65536 + b == c * 65536 + d
    ensures a == c && b == d
  {
  }

  /** Different addresses get different columns, so a row stands for one address. */
  lemma PartsDetermineAddress(g: Groups, h: Groups)
    requires V6PartsOf(g) == V6PartsOf(h)
    ensures g == h
  {
    DigitsDetermine(g[0], g[1], h[0], h[1]);
    DigitsDetermine((g[4] * 65536 + g[5]) * 65536 + g[6], g[7], (h[4] * 65536 + h[5]) * 65536 + h[6], h[7]);
    DigitsDetermine(g[4] * 65536 + g[5], g[6], h[4] * 65536 + h[5], h[6]);
    DigitsDetermine(g[4], g[5], h[4], h[5]);
    assert g == [g[0], g[1], g[2], g[3], g[4], g[5], g[6], g[7]];
    assert h == [h[0], h[1], h[2], h[3], h[4], h[5], h[6], h[7]];
  }

  /** The 16-bit groups of an address as one number. */
  function AddressNumber(g: seq<nat>): nat {
    if |g| == 0 then 0 else AddressNumber(g[..|g| - 1]) * 65536 + g[|g| - 1]
  }

  lemma {:induction false} OneMore(g: Groups, n: nat)
    requires 1 <= n <= 8
    ensures AddressNumber(g[..n]) == AddressNumber(g[..n - 1]) * 65536 + g[n - 1]
  {
    assert g[..n][..n - 1] == g[..n - 1];
  }

  /** Four more groups behind a number. */
  lemma FourMore(n: nat, a: nat, b: nat, c: nat, d: nat)
    requires a < 65536 && b < 65536 && c < 65536 && d < 65536
    ensures (((n * 65536 + a) * 65536 + b) * 65536 + c) * 65536 + d
            == n * 0x1_0000_0000_0000_0000 + (((a * 65536 + b) * 65536 + c) * 65536 + d)
    ensures ((a * 65536 + b) * 65536 + c) * 65536 + d < 0x1_0000_0000_0000_0000
  {
  }

  lemma FirstFour(g: Groups)
    ensures AddressNumber(g[..4]) == ((g[0] * 65536 + g[1]) * 65536 + g[2]) * 65536 + g[3]
  {
    OneMore(g, 4);
    OneMore(g, 3);
    OneMore(g, 2);
    OneMore(g, 1);
    assert g[..0] == [];
  }

  lemma AllEight(g: Groups, n: nat)
    requires n == AddressNumber(g[..4])
    ensures AddressNumber(g) == (((n * 65536 + g[4]) * 65536 + g[5]) * 65536 + g[6]) * 65536 + g[7]
  {
    OneMore(g, 8);
    OneMore(g, 7);
    OneMore(g, 6);
    OneMore(g, 5);
    assert g[..8] == g;
  }

  /** The columns are, from the highest bit of the address on, its first 32, the next 16, the next 16 and the
      last 64. */
  lemma ColumnsAreBits(g: Groups)
    ensures var p := V6PartsOf(g);
            && AddressNumber(g) == ((p.main * 65536 + p.extra) * 65536 + p.lan) * 0x1_0000_0000_0000_0000 + p.iface
            && p.main < 0x1_0000_0000 && p.extra < 65536 && p.lan < 65536 && p.iface < 0x1_0000_0000_0000_0000
  {
    FirstFour(g);
    AllEight(g, AddressNumber(g[..4]));
    FourMore(AddressNumber(g[..4]), g[4], g[5], g[6], g[7]);
  }

  // ------------------------------------------------------------------
  // Queries
  // ------------------------------------------------------------------

  ghost function FindV4(rows: map<nat, V4Row>, val: nat): (r: Option<nat>)
    ensures r.Some? ==> r.value in rows && rows[r.value].val == val
    ensures r.None? ==> forall i :: i in rows ==> rows[i].val != val
  {
    if i :| i in rows && rows[i].val == val then Some(i) else None
  }

  ghost function FindV6(rows: map<nat, V6Row>, parts: V6Parts): (r: Option<nat>)
    ensures r.Some? ==> r.value in rows && rows[r.value].parts == parts
    ensures r.None? ==> forall i :: i in rows ==> rows[i].parts != parts
  {
    if i :| i in rows && rows[i].parts == parts then Some(i) else None
  }

  ghost function FindName(rows: map<nat, NameRow>, name: Buf): (r: Option<nat>)
    ensures r.Some? ==> r.value in rows && rows[r.value].name == name
    ensures r.None? ==> forall i :: i in rows ==> rows[i].name != name
  {
    if i :| i in rows && rows[i].name == name then Some(i) else None
  }

  /** Distinct LANs seen inside one pair of global prefixes. */
  function Lans(rows: map<nat, V6Row>, main: nat, extra: nat): set<nat> {
    set i | i in rows && rows[i].parts.main == main && rows[i].parts.extra == extra :: rows[i].parts.lan
  }

  /** Rows of one LAN. */
  function LanRows(rows: map<nat, V6Row>, main: nat, extra: nat, lan: nat): set<nat> {
    set i | i in rows && rows[i].parts.main == main && rows[i].parts.extra == extra && rows[i].parts.lan == lan
  }

  /** Names held by one IP row. */
  function Held(rows: map<nat, NameRow>, af: Af, ip: nat): set<nat> {
    set n | n in rows && rows[n].af == af && rows[n].ip == ip
  }

  // ------------------------------------------------------------------
  // Statements
  // ------------------------------------------------------------------

  function UpdateNames(rows: map<nat, NameRow>, name: Buf, ts: nat, value: Buf, af: Af, ip: nat, newTs: nat)
    : map<nat, NameRow>
  {
    map n | n in rows ::
      if rows[n].name == name && rows[n].ts == ts then rows[n].(value := value, af := af, ip := ip, ts := newTs)
      else rows[n]
  }

  function DeleteNames(rows: map<nat, NameRow>, name: Buf, ts: nat): map<nat, NameRow> {
    map n | n in rows && !(rows[n].name == name && rows[n].ts == ts) :: rows[n]
  }

  function FreshV6(rows: map<nat, V6Row>, now: nat, expiry: int): map<nat, V6Row> {
    map i | i in rows && now - rows[i].ts < expiry :: rows[i]
  }

  function FreshNames(rows: map<nat, NameRow>, now: nat, duration: int): map<nat, NameRow> {
    map n | n in rows && now - rows[n].ts < duration :: rows[n]
  }

  /** IP rows that names of the address family numbered `number` refer to. */
  function Referenced(c: Config, names: map<nat, NameRow>, number: nat): set<nat> {
    set n | n in names && AfNumber(c, names[n].af) == number :: names[n].ip
  }

  function Keep<R>(rows: map<nat, R>, ids: set<nat>): map<nat, R> {
    map i | i in rows && i in ids :: rows[i]
  }

  /** A statement subtracts each row's unsigned time from `now` and raises where the row is newer. */
  predicate CanPrune(t: Tables, now: nat) {
    && (forall i :: i in t.v6 ==> t.v6[i].ts <= now)
    && (forall n :: n in t.names ==> t.names[n].ts <= now)
  }

  /** Both IP tables are cleared of rows no name refers to, under the fixed family numbers 2 and 23. */
  function Prune(t: Tables, c: Config, now: nat): Tables {
    var names := FreshNames(t.names, now, c.nameDuration);
    t.(names := names,
       v4 := Keep(t.v4, Referenced(c, names, 2)),
       v6 := Keep(FreshV6(t.v6, now, c.addrExpiry), Referenced(c, names, 23)))
  }

  // ------------------------------------------------------------------
  // Recording an IP and a name
  // ------------------------------------------------------------------

  /** Tables with uncommitted changes and the id of a row; an exception leaves the changes to a rollback. */
  datatype Recorded = Recorded(tables: Tables, id: nat) | Raised(left: Tables)

  ghost function RecordV4(t: Tables, val: nat, now: nat): Recorded {
    match FindV4(t.v4, val)
    case Some(i) => Recorded(t, i)
    case None => Recorded(t.(v4 := t.v4[t.nextV4 := V4Row(val, now)], nextV4 := t.nextV4 + 1), t.nextV4)
  }

  ghost function RecordV6(t: Tables, c: Config, p: V6Parts, now: nat): Recorded {
    match FindV6(t.v6, p)
    case Some(i) => Recorded(t, i)
    case None =>
      var lans := Lans(t.v6, p.main, p.extra);
      if !(p.lan in lans || |lans| < c.subnetLimit) then Raised(t)
      else if |LanRows(t.v6, p.main, p.extra, p.lan)| >= c.ifaceLimit then Raised(t)
      else Recorded(t.(v6 := t.v6[t.nextV6 := V6Row(p, now)], nextV6 := t.nextV6 + 1), t.nextV6)
  }

  ghost function RecordIp(t: Tables, c: Config, ip: Ip, now: nat): Recorded {
    match ip
    case V4(val) => RecordV4(t, val, now)
    case V6(parts) => RecordV6(t, c, parts, now)
  }

  function Penalty(used: nat, limit: nat): (p: real)
    requires used > 0 ==> limit > 0
    ensures used == 0 ==> p == 0.0
    ensures used > 0 ==> 1.0 < p <= (MIN_NAME_DURATION - MIN_DURATION_PENALTY) as real
  {
    if used == 0 then 0.0
    else
      assert used as real / limit as real > 0.0;
      var p := used as real / limit as real * MIN_NAME_DURATION as real + 1.0;
      if p <= (MIN_NAME_DURATION - MIN_DURATION_PENALTY) as real then p
      else (MIN_NAME_DURATION - MIN_DURATION_PENALTY) as real
  }

  /** int(x): towards zero. */
  function Truncate(x: real): int {
    if x >= 0.0 then x.Floor else -(-x).Floor
  }

  function StoredTime(updated: nat, used: nat, limit: nat): (ts: int)
    requires used > 0 ==> limit > 0
    ensures updated - (MIN_NAME_DURATION - MIN_DURATION_PENALTY) <= ts <= updated
    ensures used == 0 <==> ts == updated
  {
    Truncate(updated as real - Penalty(used, limit))
  }

  /** An update is refused unless it is newer than the stored time and its own stored time fits the
      column; an insert unless the IP has room. */
  ghost function RecordName(t: Tables, c: Config, af: Af, ip: nat, name: Buf, value: Buf, owner: Buf, updated: nat)
    : Option<Tables>
  {
    var row := FindName(t.names, name);
    var used := |Held(t.names, af, ip)|;
    var limit := NameLimit(c, af);
    if used > 0 && limit == 0 then None
    else
      match row
      case Some(n) =>
        if t.names[n].ts >= updated || StoredTime(updated, used, limit) < 0 then None
        else Some(t.(names := UpdateNames(t.names, name, t.names[n].ts, value, af, ip,
                                          StoredTime(updated, used, limit))))
      case None =>
        if used >= limit then None
        else Some(t.(names := t.names[t.nextName := NameRow(name, value, owner, af, ip, updated)],
                     nextName := t.nextName + 1))
  }

  /** Back to the committed tables; ids handed out stay used. */
  function Rollback(committed: Tables, left: Tables): Tables {
    committed.(nextV4 := left.nextV4, nextV6 := left.nextV6, nextName := left.nextName)
  }

  // ------------------------------------------------------------------
  // Requests
  // ------------------------------------------------------------------

  datatype Request = Request(pkt: Packet, ip: Ip, pruneTime: nat, insertTime: nat, d: nat, e: nat)

  datatype Reply = Reply(name: Buf, value: Buf, updated: int, vkc: Option<Buf>)

  /** The committed tables afterwards, and the reply unless an exception was raised. */
  datatype Served = Served(tables: Tables, reply: Option<Reply>)

  ghost function DeleteName(t: Tables, name: Buf, updated: nat): Option<Tables> {
    match FindName(t.names, name)
    case None => Some(t)
    case Some(n) =>
      if t.names[n].ts >= updated then None
      else Some(t.(names := DeleteNames(t.names, name, t.names[n].ts)))
  }

  /** What the write finds once its own pruning has been committed. */
  function Pruned(t: Tables, c: Config, q: Request): Tables {
    if q.pkt.behavior != BEHAVIOR_DONT_BUMP then Prune(t, c, q.pruneTime) else t
  }

  function Echo(p: Packet): Reply {
    Reply(p.name, p.value, p.updated, p.vkc)
  }

  /** Recording the address, then the name; an exception takes both back. */
  ghost function RecordBoth(start: Tables, c: Config, q: Request): Served
    requires q.pkt.vkc.Some?
  {
    var p := q.pkt;
    match RecordIp(start, c, q.ip, q.insertTime)
    case Raised(left) => Served(Rollback(start, left), None)
    case Recorded(u, id) =>
      match RecordName(u, c, AfOf(q.ip), id, p.name, p.value, p.vkc.value, p.updated)
      case None => Served(Rollback(start, u), None)
      case Some(w) => Served(w, Some(Echo(p)))
  }

  predicate PruningStops(t: Tables, q: Request) {
    q.pkt.behavior != BEHAVIOR_DONT_BUMP && !CanPrune(t, q.pruneTime)
  }

  ghost function WriteName(t: Tables, c: Config, q: Request): Served
    requires q.pkt.vkc.Some?
  {
    if PruningStops(t, q) then Served(t, None) else RecordBoth(Pruned(t, c, q), c, q)
  }

  predicate Unsigned(p: Packet) {
    p.sig.None? || |p.sig.value| == 0
  }

  predicate ValidSig(verify: Verifier, p: Packet, drawn: nat) {
    p.vkc.Some? && p.sig.Some? && MsgToSign(p, drawn).Some?
    && verify(p.vkc.value, MsgToSign(p, drawn).value, p.sig.value)
  }

  /** Signed by the owner of row `n`, over the message as first derived from the request. */
  predicate SignedBy(verify: Verifier, owner: Buf, q: Request) {
    q.pkt.sig.Some? && MsgToSign(q.pkt, q.d).Some? && verify(owner, MsgToSign(q.pkt, q.d).value, q.pkt.sig.value)
  }

  ghost function Handle(t: Tables, c: Config, verify: Verifier, q: Request): Served {
    var p := q.pkt;
    var row := FindName(t.names, p.name);
    if MsgToSign(p, q.d).None? then Served(t, None)
    else if row.Some? && Unsigned(p) then
      var r := t.names[row.value];
      Served(t, Some(Reply(p.name, r.value, r.ts, Some(r.owner))))
    else if row.Some? && !SignedBy(verify, t.names[row.value].owner, q) then Served(t, None)
    else if row.Some? && |p.value| == 0 then
      var w := DeleteName(t, p.name, p.updated);
      if w.None? then Served(t, None) else Served(w.value, Some(Echo(p)))
    else if Unsigned(p) then Served(t, Some(Reply(p.name, [], 0, p.vkc)))
    else if !ValidSig(verify, p, q.e) then Served(t, None)
    else WriteName(t, c, q)
  }

  const EMPTY := Tables(map[], map[], map[], 1, 1, 1)

  /** The tables after a run of requests. */
  ghost function Run(t: Tables, c: Config, verify: Verifier, qs: seq<Request>): Tables {
    if |qs| == 0 then t
    else Handle(Run(t, c, verify, qs[..|qs| - 1]), c, verify, qs[|qs| - 1]).tables
  }

  // ------------------------------------------------------------------
  // Invariants
  // ------------------------------------------------------------------

  predicate IdsBelow(t: Tables) {
    && (forall i :: i in t.v4 ==> i < t.nextV4)
    && (forall i :: i in t.v6 ==> i < t.nextV6)
    && (forall n :: n in t.names ==> n < t.nextName)
  }

  predicate Unique(t: Tables) {
    && (forall i, j :: i in t.v4 && j in t.v4 && t.v4[i].val == t.v4[j].val ==> i == j)
    && (forall i, j :: i in t.v6 && j in t.v6 && t.v6[i].parts == t.v6[j].parts ==> i == j)
    && (forall m, n :: m in t.names && n in t.names && t.names[m].name == t.names[n].name ==> m == n)
  }

  /** An IPv4 name always has its row; an IPv6 row may expire under its names. */
  predicate RefersWell(t: Tables, af: Af, ip: nat) {
    if af == IP4 then ip in t.v4 else ip < t.nextV6
  }

  predicate NamesRefer(t: Tables) {
    forall n :: n in t.names ==> RefersWell(t, t.names[n].af, t.names[n].ip)
  }

  ghost predicate Quotas(t: Tables, c: Config) {
    && (forall m, e :: |Lans(t.v6, m, e)| <= c.subnetLimit)
    && (forall m, e, l :: |LanRows(t.v6, m, e, l)| <= c.ifaceLimit)
  }

  ghost predicate Inv(t: Tables, c: Config) {
    IdsBelow(t) && Unique(t) && NamesRefer(t) && Quotas(t, c)
  }

  lemma SubsetSize<T>(a: set<T>, b: set<T>)
    requires a <= b
    ensures |a| <= |b|
  {
    assert b == a + (b - a);
  }

  /** Deleting rows keeps the quotas. */
  lemma FewerRows(a: map<nat, V6Row>, t: Tables, c: Config)
    requires Quotas(t, c)
    requires forall i :: i in a ==> i in t.v6 && a[i] == t.v6[i]
    ensures Quotas(t.(v6 := a), c)
  {
    forall m, e ensures |Lans(a, m, e)| <= c.subnetLimit {
      SubsetSize(Lans(a, m, e), Lans(t.v6, m, e));
    }
    forall m, e, l ensures |LanRows(a, m, e, l)| <= c.ifaceLimit {
      SubsetSize(LanRows(a, m, e, l), LanRows(t.v6, m, e, l));
    }
  }

  lemma PruneKeepsInv(t: Tables, c: Config, now: nat)
    requires Inv(t, c)
    ensures Inv(Prune(t, c, now), c)
  {
    var u := Prune(t, c, now);
    FewerRows(u.v6, t, c);
    forall n | n in u.names
      ensures RefersWell(u, u.names[n].af, u.names[n].ip)
    {
      assert RefersWell(t, t.names[n].af, t.names[n].ip);
      if u.names[n].af == IP4 {
        assert u.names[n].ip in Referenced(c, u.names, 2);
      }
    }
  }

  /** A new row for an address keeps the quotas when its LAN is known or there is room for one more. */
  lemma OneMoreRow(t: Tables, c: Config, p: V6Parts, now: nat)
    requires IdsBelow(t) && Quotas(t, c)
    requires p.lan in Lans(t.v6, p.main, p.extra) || |Lans(t.v6, p.main, p.extra)| < c.subnetLimit
    requires |LanRows(t.v6, p.main, p.extra, p.lan)| < c.ifaceLimit
    ensures Quotas(t.(v6 := t.v6[t.nextV6 := V6Row(p, now)]), c)
  {
    var rows := t.v6[t.nextV6 := V6Row(p, now)];
    forall m, e ensures |Lans(rows, m, e)| <= c.subnetLimit {
      var was := Lans(t.v6, m, e);
      if m == p.main && e == p.extra {
        SubsetSize(Lans(rows, m, e), was + {p.lan});
      } else {
        SubsetSize(Lans(rows, m, e), was);
      }
    }
    forall m, e, l ensures |LanRows(rows, m, e, l)| <= c.ifaceLimit {
      var was := LanRows(t.v6, m, e, l);
      if m == p.main && e == p.extra && l == p.lan {
        SubsetSize(LanRows(rows, m, e, l), was + {t.nextV6});
      } else {
        SubsetSize(LanRows(rows, m, e, l), was);
      }
    }
  }

  lemma RecordV4KeepsInv(t: Tables, c: Config, val: nat, now: nat)
    requires Inv(t, c)
    ensures var r := RecordV4(t, val, now);
            r.Recorded? && Inv(r.tables, c) && r.id in r.tables.v4 && r.tables.names == t.names
  {
    var u := RecordV4(t, val, now).tables;
    FewerRows(u.v6, t, c);
    assert u.v6 == t.v6;
    assert NamesRefer(u) by {
      forall n | n in u.names
        ensures RefersWell(u, u.names[n].af, u.names[n].ip)
      {
        assert RefersWell(t, t.names[n].af, t.names[n].ip);
      }
    }
  }

  lemma RecordV6KeepsInv(t: Tables, c: Config, p: V6Parts, now: nat)
    requires Inv(t, c)
    ensures var r := RecordV6(t, c, p, now);
            match r
            case Raised(left) => left == t
            case Recorded(u, id) => Inv(u, c) && id < u.nextV6 && u.names == t.names
  {
    var r := RecordV6(t, c, p, now);
    if FindV6(t.v6, p).None? && r.Recorded? {
      OneMoreRow(t, c, p, now);
      assert NamesRefer(r.tables) by {
        forall n | n in t.names
          ensures RefersWell(r.tables, t.names[n].af, t.names[n].ip)
        {
          assert RefersWell(t, t.names[n].af, t.names[n].ip);
        }
      }
    }
  }

  /** What recording an IP promises the recording of a name that follows it. */
  lemma RecordIpKeepsInv(t: Tables, c: Config, ip: Ip, now: nat)
    requires Inv(t, c)
    ensures var r := RecordIp(t, c, ip, now);
            match r
            case Raised(left) => left == t
            case Recorded(u, id) => Inv(u, c) && RefersWell(u, AfOf(ip), id) && u.names == t.names
  {
    match ip
    case V4(val) => RecordV4KeepsInv(t, c, val, now);
    case V6(p) => RecordV6KeepsInv(t, c, p, now);
  }

  /** Replacing the names alone. */
  lemma NewNames(t: Tables, c: Config, names: map<nat, NameRow>, next: nat)
    requires Inv(t, c)
    requires forall n :: n in names ==> n < next && RefersWell(t, names[n].af, names[n].ip)
    requires forall m, n :: m in names && n in names && names[m].name == names[n].name ==> m == n
    ensures Inv(t.(names := names, nextName := next), c)
  {
    var u := t.(names := names, nextName := next);
    FewerRows(t.v6, t, c);
    assert u.v6 == t.v6;
    forall n | n in names
      ensures RefersWell(u, names[n].af, names[n].ip)
    {
      assert RefersWell(t, names[n].af, names[n].ip);
    }
  }

  lemma RecordNameKeepsInv(t: Tables, c: Config, af: Af, ip: nat, name: Buf, value: Buf, owner: Buf, updated: nat)
    requires Inv(t, c) && RefersWell(t, af, ip)
    ensures var r := RecordName(t, c, af, ip, name, value, owner, updated); r.Some? ==> Inv(r.value, c)
  {
    var r := RecordName(t, c, af, ip, name, value, owner, updated);
    if r.Some? {
      NewNames(t, c, r.value.names, r.value.nextName);
    }
  }

  lemma RollbackKeepsInv(t: Tables, c: Config, left: Tables)
    requires Inv(t, c)
    requires t.nextV4 <= left.nextV4 && t.nextV6 <= left.nextV6 && t.nextName <= left.nextName
    ensures Inv(Rollback(t, left), c)
  {
    FewerRows(t.v6, t, c);
    assert Rollback(t, left).v6 == t.v6;
    forall n | n in t.names
      ensures RefersWell(Rollback(t, left), t.names[n].af, t.names[n].ip)
    {
      assert RefersWell(t, t.names[n].af, t.names[n].ip);
    }
  }

  lemma RecordBothKeepsInv(start: Tables, c: Config, q: Request)
    requires Inv(start, c) && q.pkt.vkc.Some?
    ensures Inv(RecordBoth(start, c, q).tables, c)
  {
    var p := q.pkt;
    RecordIpKeepsInv(start, c, q.ip, q.insertTime);
    match RecordIp(start, c, q.ip, q.insertTime)
    case Raised(left) => RollbackKeepsInv(start, c, left);
    case Recorded(u, id) =>
      var r := RecordName(u, c, AfOf(q.ip), id, p.name, p.value, p.vkc.value, p.updated);
      if r.Some? {
        RecordNameKeepsInv(u, c, AfOf(q.ip), id, p.name, p.value, p.vkc.value, p.updated);
      } else {
        RollbackKeepsInv(start, c, u);
      }
  }

  lemma WriteKeepsInv(t: Tables, c: Config, q: Request)
    requires Inv(t, c) && q.pkt.vkc.Some?
    ensures Inv(Pruned(t, c, q), c) && Inv(WriteName(t, c, q).tables, c)
  {
    PruneKeepsInv(t, c, q.pruneTime);
    RecordBothKeepsInv(Pruned(t, c, q), c, q);
  }

  lemma DeleteKeepsInv(t: Tables, c: Config, name: Buf, updated: nat)
    requires Inv(t, c)
    ensures DeleteName(t, name, updated).Some? ==> Inv(DeleteName(t, name, updated).value, c)
  {
    var r := DeleteName(t, name, updated);
    if r.Some? {
      NewNames(t, c, r.value.names, t.nextName);
    }
  }

  /** Every request, served or refused, leaves the tables in order. */
  lemma HandleKeepsInv(t: Tables, c: Config, verify: Verifier, q: Request)
    requires Inv(t, c)
    ensures Inv(Handle(t, c, verify, q).tables, c)
  {
    if q.pkt.vkc.Some? {
      WriteKeepsInv(t, c, q);
    }
    DeleteKeepsInv(t, c, q.pkt.name, q.pkt.updated);
  }

  lemma EmptyInv(c: Config)
    ensures Inv(EMPTY, c)
  {
    forall m, e, l ensures Lans(EMPTY.v6, m, e) == {} && LanRows(EMPTY.v6, m, e, l) == {} {}
  }

  /** Unique rows, live references and both IPv6 quotas, after any run of requests. */
  lemma {:induction false} RunKeepsInv(t: Tables, c: Config, verify: Verifier, qs: seq<Request>)
    requires Inv(t, c)
    ensures Inv(Run(t, c, verify, qs), c)
  {
    if |qs| == 0 {
    } else {
      RunKeepsInv(t, c, verify, qs[..|qs| - 1]);
      HandleKeepsInv(Run(t, c, verify, qs[..|qs| - 1]), c, verify, qs[|qs| - 1]);
    }
  }

  // ------------------------------------------------------------------
  // Names per IP
  // ------------------------------------------------------------------

  /** Some name that was elsewhere is now held by this IP. */
  ghost predicate Moved(before: map<nat, NameRow>, after: map<nat, NameRow>, af: Af, ip: nat) {
    exists n :: n in before && n in after && n !in Held(before, af, ip) && n in Held(after, af, ip)
  }

  /** The number of requests in a run that moved a name onto this IP. */
  ghost function Moves(t: Tables, c: Config, verify: Verifier, qs: seq<Request>, af: Af, ip: nat): nat {
    if |qs| == 0 then 0
    else
      var rest := qs[..|qs| - 1];
      Moves(t, c, verify, rest, af, ip)
      + if Moved(Run(t, c, verify, rest).names, Run(t, c, verify, qs).names, af, ip) then 1 else 0
  }

  /** At most one more name, and beyond the limit only by a move. */
  ghost predicate HeldStep(before: map<nat, NameRow>, after: map<nat, NameRow>, af: Af, ip: nat, limit: nat) {
    || |Held(after, af, ip)| <= |Held(before, af, ip)|
    || |Held(after, af, ip)| <= limit
    || (Moved(before, after, af, ip) && |Held(after, af, ip)| == |Held(before, af, ip)| + 1)
  }

  /** Changing one row adds at most that row, and then it has moved. */
  lemma ChangeHeld(before: map<nat, NameRow>, after: map<nat, NameRow>, n: nat, af: Af, ip: nat, limit: nat)
    requires n in before && n in after
    requires forall m :: m in after && m != n ==> m in before && after[m] == before[m]
    ensures HeldStep(before, after, af, ip, limit)
  {
    var was, now := Held(before, af, ip), Held(after, af, ip);
    if n in now && n !in was {
      SubsetSize(now, was + {n});
      assert Moved(before, after, af, ip);
    } else {
      SubsetSize(now, was);
    }
  }

  lemma InsertHeld(before: map<nat, NameRow>, n: nat, row: NameRow, af: Af, ip: nat, limit: nat)
    requires n !in before
    requires row.af == af && row.ip == ip ==> |Held(before, af, ip)| < limit
    ensures HeldStep(before, before[n := row], af, ip, limit)
  {
    var was, now := Held(before, af, ip), Held(before[n := row], af, ip);
    if row.af == af && row.ip == ip {
      SubsetSize(now, was + {n});
    } else {
      SubsetSize(now, was);
    }
  }

  lemma RecordNameHeld(t: Tables, c: Config, af: Af, ip: nat, name: Buf, value: Buf, owner: Buf, updated: nat,
                       af2: Af, ip2: nat)
    requires Inv(t, c)
    ensures var r := RecordName(t, c, af, ip, name, value, owner, updated);
            r.Some? ==> HeldStep(t.names, r.value.names, af2, ip2, NameLimit(c, af2))
  {
    var r := RecordName(t, c, af, ip, name, value, owner, updated);
    if r.Some? {
      match FindName(t.names, name)
      case Some(n) => ChangeHeld(t.names, r.value.names, n, af2, ip2, NameLimit(c, af2));
      case None =>
        InsertHeld(t.names, t.nextName, NameRow(name, value, owner, af, ip, updated), af2, ip2, NameLimit(c, af2));
    }
  }

  lemma FewerHeld(after: map<nat, NameRow>, before: map<nat, NameRow>, af: Af, ip: nat)
    requires forall n :: n in after ==> n in before && after[n] == before[n]
    ensures |Held(after, af, ip)| <= |Held(before, af, ip)|
  {
    SubsetSize(Held(after, af, ip), Held(before, af, ip));
  }

  lemma WriteHeld(t: Tables, c: Config, q: Request, af: Af, ip: nat)
    requires Inv(t, c) && q.pkt.vkc.Some?
    ensures HeldStep(t.names, WriteName(t, c, q).tables.names, af, ip, NameLimit(c, af))
  {
    var p := q.pkt;
    WriteKeepsInv(t, c, q);
    var start := Pruned(t, c, q);
    FewerHeld(start.names, t.names, af, ip);
    RecordIpKeepsInv(start, c, q.ip, q.insertTime);
    match RecordIp(start, c, q.ip, q.insertTime)
    case Raised(_) =>
    case Recorded(u, id) =>
      var r := RecordName(u, c, AfOf(q.ip), id, p.name, p.value, p.vkc.value, p.updated);
      if r.Some? {
        RecordNameHeld(u, c, AfOf(q.ip), id, p.name, p.value, p.vkc.value, p.updated, af, ip);
        if Moved(u.names, r.value.names, af, ip) {
          assert Moved(t.names, r.value.names, af, ip);
        }
      }
  }

  lemma HandleHeld(t: Tables, c: Config, verify: Verifier, q: Request, af: Af, ip: nat)
    requires Inv(t, c)
    ensures HeldStep(t.names, Handle(t, c, verify, q).tables.names, af, ip, NameLimit(c, af))
  {
    var u := Handle(t, c, verify, q).tables;
    if ValidSig(verify, q.pkt, q.e) && u == WriteName(t, c, q).tables {
      WriteHeld(t, c, q, af, ip);
    } else {
      FewerHeld(u.names, t.names, af, ip);
    }
  }

  /** A row never holds more names than its family's limit and the moves onto it allow. */
  lemma {:induction false} NamesPerRow(c: Config, verify: Verifier, qs: seq<Request>, af: Af, ip: nat)
    ensures |Held(Run(EMPTY, c, verify, qs).names, af, ip)|
            <= NameLimit(c, af) + Moves(EMPTY, c, verify, qs, af, ip)
  {
    EmptyInv(c);
    if |qs| > 0 {
      var rest := qs[..|qs| - 1];
      NamesPerRow(c, verify, rest, af, ip);
      RunKeepsInv(EMPTY, c, verify, rest);
      HandleHeld(Run(EMPTY, c, verify, rest), c, verify, qs[|qs| - 1], af, ip);
    } else {
      assert Held(EMPTY.names, af, ip) == {};
    }
  }

  // ------------------------------------------------------------------
  // The life of a row
  // ------------------------------------------------------------------

  predicate Later(t: Tables, u: Tables) {
    t.nextV4 <= u.nextV4 && t.nextV6 <= u.nextV6 && t.nextName <= u.nextName
  }

  /** IPv4 rows are never rewritten, and an id once handed out is never handed out again. */
  predicate V4Frame(t: Tables, u: Tables) {
    && Later(t, u)
    && (forall i :: i in u.v4 && i < t.nextV4 ==> i in t.v4 && u.v4[i] == t.v4[i])
    && (forall n :: n in u.names && n < t.nextName ==> n in t.names)
  }

  lemma FrameTransitive(t: Tables, u: Tables, w: Tables)
    requires V4Frame(t, u) && V4Frame(u, w)
    ensures V4Frame(t, w)
  {
  }

  lemma RecordIpFrame(t: Tables, c: Config, ip: Ip, now: nat)
    requires Inv(t, c)
    ensures var r := RecordIp(t, c, ip, now);
            match r
            case Raised(left) => left == t
            case Recorded(u, _) => V4Frame(t, u) && u.names == t.names
  {
  }

  /** A stored row after a name has been recorded: untouched, or updated by this packet. */
  predicate Touched(row: NameRow, after: NameRow, name: Buf, value: Buf, af: Af, updated: nat) {
    || after == row
    || (&& row.name == name && row.ts < updated
        && after == row.(value := value, af := af, ip := after.ip, ts := after.ts)
        && updated - (MIN_NAME_DURATION - MIN_DURATION_PENALTY) <= after.ts <= updated)
  }

  lemma RecordNameFrame(t: Tables, c: Config, af: Af, ip: nat, name: Buf, value: Buf, owner: Buf, updated: nat)
    requires Inv(t, c)
    ensures var r := RecordName(t, c, af, ip, name, value, owner, updated);
            r.Some? ==>
              && V4Frame(t, r.value)
              && forall n :: n in t.names ==>
                   n in r.value.names && Touched(t.names[n], r.value.names[n], name, value, af, updated)
  {
    var row := FindName(t.names, name);
    var r := RecordName(t, c, af, ip, name, value, owner, updated);
    if row.Some? && r.Some? {
      var used, limit := |Held(t.names, af, ip)|, NameLimit(c, af);
      var ts := StoredTime(updated, used, limit);
      var names := UpdateNames(t.names, name, t.names[row.value].ts, value, af, ip, ts);
      assert r.value == t.(names := names);
      forall n | n in t.names
        ensures Touched(t.names[n], names[n], name, value, af, updated)
      {
        var was := t.names[n];
        if was.name == name && was.ts == t.names[row.value].ts {
          assert names[n] == was.(value := value, af := af, ip := ip, ts := ts);
        }
      }
    }
  }

  lemma RecordedFrame(start: Tables, c: Config, q: Request)
    requires Inv(start, c) && q.pkt.vkc.Some?
    ensures var u := RecordBoth(start, c, q).tables;
            && V4Frame(start, u)
            && forall n :: n in start.names ==>
                 n in u.names
                 && Touched(start.names[n], u.names[n], q.pkt.name, q.pkt.value, AfOf(q.ip), q.pkt.updated)
  {
    var p := q.pkt;
    RecordIpKeepsInv(start, c, q.ip, q.insertTime);
    RecordIpFrame(start, c, q.ip, q.insertTime);
    match RecordIp(start, c, q.ip, q.insertTime)
    case Raised(_) =>
    case Recorded(u, id) =>
      RecordNameFrame(u, c, AfOf(q.ip), id, p.name, p.value, p.vkc.value, p.updated);
      var r := RecordName(u, c, AfOf(q.ip), id, p.name, p.value, p.vkc.value, p.updated);
      if r.Some? {
        FrameTransitive(start, u, r.value);
      }
  }

  lemma PrunedFrame(t: Tables, c: Config, q: Request)
    ensures V4Frame(t, Pruned(t, c, q))
  {
  }

  lemma WriteFrame(t: Tables, c: Config, q: Request)
    requires Inv(t, c) && q.pkt.vkc.Some?
    ensures V4Frame(t, WriteName(t, c, q).tables)
  {
    if !PruningStops(t, q) {
      WriteKeepsInv(t, c, q);
      PrunedFrame(t, c, q);
      RecordedFrame(Pruned(t, c, q), c, q);
      FrameTransitive(t, Pruned(t, c, q), WriteName(t, c, q).tables);
    }
  }

  lemma DeleteFrame(t: Tables, name: Buf, updated: nat)
    requires DeleteName(t, name, updated).Some?
    ensures V4Frame(t, DeleteName(t, name, updated).value)
  {
  }

  ghost predicate OwnerAgrees(t: Tables, verify: Verifier, q: Request) {
    var row := FindName(t.names, q.pkt.name);
    row.Some? ==> SignedBy(verify, t.names[row.value].owner, q)
  }

  /** The three things a request can do to the tables. */
  lemma HandleCases(t: Tables, c: Config, verify: Verifier, q: Request)
    ensures var u := Handle(t, c, verify, q).tables;
            || u == t
            || (&& DeleteName(t, q.pkt.name, q.pkt.updated) == Some(u)
                && |q.pkt.value| == 0 && OwnerAgrees(t, verify, q))
            || (q.pkt.vkc.Some? && u == WriteName(t, c, q).tables && OwnerAgrees(t, verify, q))
  {
  }

  lemma HandleFrame(t: Tables, c: Config, verify: Verifier, q: Request)
    requires Inv(t, c)
    ensures V4Frame(t, Handle(t, c, verify, q).tables)
  {
    var u := Handle(t, c, verify, q).tables;
    HandleCases(t, c, verify, q);
    if DeleteName(t, q.pkt.name, q.pkt.updated) == Some(u) {
      DeleteFrame(t, q.pkt.name, q.pkt.updated);
    } else if u != t {
      WriteFrame(t, c, q);
    }
  }

  /** What may become of a name's row in one request. */
  predicate RowStep(t: Tables, u: Tables, c: Config, verify: Verifier, q: Request, n: nat)
    requires n in t.names
  {
    var row := t.names[n];
    var signed := q.pkt.name == row.name && row.ts < q.pkt.updated && SignedBy(verify, row.owner, q);
    if n in u.names then
      && Touched(row, u.names[n], q.pkt.name, q.pkt.value, AfOf(q.ip), q.pkt.updated)
      && (u.names[n] != row ==> signed)
    else
      || (signed && |q.pkt.value| == 0)
      || (q.pkt.behavior != BEHAVIOR_DONT_BUMP && q.pruneTime - row.ts >= c.nameDuration)
  }

  lemma DeleteIsSigned(t: Tables, u: Tables, c: Config, verify: Verifier, q: Request, n: nat)
    requires Inv(t, c) && n in t.names && OwnerAgrees(t, verify, q) && |q.pkt.value| == 0
    requires DeleteName(t, q.pkt.name, q.pkt.updated) == Some(u)
    ensures RowStep(t, u, c, verify, q, n)
  {
  }

  lemma WriteIsSigned(t: Tables, c: Config, verify: Verifier, q: Request, n: nat)
    requires Inv(t, c) && n in t.names && q.pkt.vkc.Some? && OwnerAgrees(t, verify, q)
    ensures RowStep(t, WriteName(t, c, q).tables, c, verify, q, n)
  {
    WriteKeepsInv(t, c, q);
    RecordedFrame(Pruned(t, c, q), c, q);
    if t.names[n].name == q.pkt.name {
      assert FindName(t.names, q.pkt.name) == Some(n);
    }
  }

  /** Only the owner of a name changes or deletes it; besides that it can only expire. */
  lemma ChangesAreSigned(t: Tables, c: Config, verify: Verifier, q: Request, n: nat)
    requires Inv(t, c) && n in t.names
    ensures RowStep(t, Handle(t, c, verify, q).tables, c, verify, q, n)
  {
    var u := Handle(t, c, verify, q).tables;
    HandleCases(t, c, verify, q);
    if u == t {
    } else if q.pkt.vkc.Some? && u == WriteName(t, c, q).tables && OwnerAgrees(t, verify, q) {
      WriteIsSigned(t, c, verify, q, n);
    } else {
      DeleteIsSigned(t, u, c, verify, q, n);
    }
  }

  lemma {:induction false} RunFrame(t: Tables, c: Config, verify: Verifier, qs: seq<Request>)
    requires Inv(t, c)
    ensures Inv(Run(t, c, verify, qs), c) && V4Frame(t, Run(t, c, verify, qs))
  {
    if |qs| == 0 {
    } else {
      var rest := qs[..|qs| - 1];
      RunFrame(t, c, verify, rest);
      var mid := Run(t, c, verify, rest);
      HandleKeepsInv(mid, c, verify, qs[|qs| - 1]);
      HandleFrame(mid, c, verify, qs[|qs| - 1]);
      FrameTransitive(t, mid, Run(t, c, verify, qs));
    }
  }

  /** While a name's row lives it keeps its name and its owner, whatever requests arrive. */
  lemma {:induction false} OwnerIsForLife(t: Tables, c: Config, verify: Verifier, qs: seq<Request>, n: nat)
    requires Inv(t, c) && n in t.names && n in Run(t, c, verify, qs).names
    ensures var row := Run(t, c, verify, qs).names[n];
            row.owner == t.names[n].owner && row.name == t.names[n].name
  {
    if |qs| == 0 {
    } else {
      var rest := qs[..|qs| - 1];
      var mid := Run(t, c, verify, rest);
      RunFrame(t, c, verify, rest);
      HandleFrame(mid, c, verify, qs[|qs| - 1]);
      OwnerIsForLife(t, c, verify, rest, n);
      ChangesAreSigned(mid, c, verify, qs[|qs| - 1], n);
    }
  }

  /** In every reachable store an IPv4 name's row stands, and it is the row the name was recorded against. */
  lemma V4NamesStayPut(t: Tables, c: Config, verify: Verifier, qs: seq<Request>, n: nat)
    requires Inv(t, c)
    requires var u := Run(t, c, verify, qs); n in u.names && u.names[n].af == IP4
    ensures var u := Run(t, c, verify, qs);
            var ip := u.names[n].ip;
            ip in u.v4 && (ip < t.nextV4 ==> ip in t.v4 && u.v4[ip] == t.v4[ip])
  {
    RunFrame(t, c, verify, qs);
    var u := Run(t, c, verify, qs);
    assert RefersWell(u, u.names[n].af, u.names[n].ip);
  }

  // ------------------------------------------------------------------
  // How long an update lasts
  // ------------------------------------------------------------------

  /** A write that was answered and was not a delete. */
  ghost predicate Wrote(t: Tables, c: Config, verify: Verifier, q: Request) {
    && !Unsigned(q.pkt) && Handle(t, c, verify, q).reply.Some?
    && (FindName(t.names, q.pkt.name).Some? ==> |q.pkt.value| > 0)
  }

  /** The stored time lies at most 604740 seconds before the one the update carried. */
  predicate StillFresh(t: Tables, n: nat, updated: nat) {
    n in t.names && t.names[n].ts >= updated - (MIN_NAME_DURATION - MIN_DURATION_PENALTY)
  }

  /** An answered write has stored its value, under a time at most 604740 seconds before the one it carries. */
  lemma WriteStores(t: Tables, c: Config, verify: Verifier, q: Request)
    requires Inv(t, c) && Wrote(t, c, verify, q)
    ensures var u := Handle(t, c, verify, q).tables;
            var n := FindName(u.names, q.pkt.name);
            && n.Some? && StillFresh(u, n.value, q.pkt.updated)
            && u.names[n.value].ts <= q.pkt.updated
            && u.names[n.value].value == q.pkt.value && u.names[n.value].af == AfOf(q.ip)
  {
    WriteKeepsInv(t, c, q);
    var start := Pruned(t, c, q);
    RecordIpKeepsInv(start, c, q.ip, q.insertTime);
    var r := RecordIp(start, c, q.ip, q.insertTime);
    assert r.Recorded?;
    RecordNameStores(r.tables, c, AfOf(q.ip), r.id, q.pkt.name, q.pkt.value, q.pkt.vkc.value, q.pkt.updated);
  }

  lemma RecordNameStores(t: Tables, c: Config, af: Af, ip: nat, name: Buf, value: Buf, owner: Buf, updated: nat)
    requires Inv(t, c) && RefersWell(t, af, ip)
    requires RecordName(t, c, af, ip, name, value, owner, updated).Some?
    ensures var u := RecordName(t, c, af, ip, name, value, owner, updated).value;
            var n := FindName(u.names, name);
            && n.Some? && StillFresh(u, n.value, updated) && u.names[n.value].ts <= updated
            && u.names[n.value].value == value && u.names[n.value].af == af && u.names[n.value].ip == ip
  {
    RecordNameKeepsInv(t, c, af, ip, name, value, owner, updated);
    var u := RecordName(t, c, af, ip, name, value, owner, updated).value;
    match FindName(t.names, name)
    case Some(n) => assert u.names[n].name == name;
    case None => assert u.names[t.nextName].name == name;
  }

  /** Prunes that come before the row expires, and no newer request signed by its owner. */
  predicate Quiet(q: Request, c: Config, verify: Verifier, row: NameRow) {
    && (q.pkt.behavior != BEHAVIOR_DONT_BUMP ==> q.pruneTime - row.ts < c.nameDuration)
    && !(q.pkt.name == row.name && row.ts < q.pkt.updated && SignedBy(verify, row.owner, q))
  }

  /** Whatever else arrives, fetches, forgeries and requests for other names, leaves a row as it is. */
  lemma {:induction false} QuietRunsKeepRow(t: Tables, c: Config, verify: Verifier, qs: seq<Request>, n: nat)
    requires Inv(t, c) && n in t.names
    requires forall i :: 0 <= i < |qs| ==> Quiet(qs[i], c, verify, t.names[n])
    ensures var u := Run(t, c, verify, qs); n in u.names && u.names[n] == t.names[n]
  {
    if |qs| == 0 {
    } else {
      var q, rest := qs[|qs| - 1], qs[..|qs| - 1];
      QuietRunsKeepRow(t, c, verify, rest, n);
      RunFrame(t, c, verify, rest);
      ChangesAreSigned(Run(t, c, verify, rest), c, verify, q, n);
      assert Quiet(q, c, verify, t.names[n]);
    }
  }

  /** While the clock is behind the row; and no newer request signed by its owner. */
  predicate Before(q: Request, verify: Verifier, row: NameRow) {
    && (q.pkt.behavior != BEHAVIOR_DONT_BUMP ==> q.pruneTime < row.ts)
    && !(q.pkt.name == row.name && row.ts < q.pkt.updated && SignedBy(verify, row.owner, q))
  }

  predicate NewV4(t: Tables, val: nat) {
    forall i :: i in t.v4 ==> t.v4[i].val != val
  }

  predicate NewV6(t: Tables, parts: V6Parts) {
    forall i :: i in t.v6 ==> t.v6[i].parts != parts
  }

  /** A LAN not seen in its subnet, which has its number of LANs; or a LAN with its number of interfaces. */
  predicate V6Full(t: Tables, c: Config, p: V6Parts) {
    var lans := set i | i in t.v6 && t.v6[i].parts.main == p.main && t.v6[i].parts.extra == p.extra
                :: t.v6[i].parts.lan;
    var rows := set i | i in t.v6 && t.v6[i].parts.(iface := p.iface) == p;
    (p.lan !in lans && |lans| >= c.subnetLimit) || |rows| >= c.ifaceLimit
  }

  /** When an address is refused: only a new IPv6 address can be, and exactly when its subnet or LAN is full. */
  lemma AddressRefusedIff(t: Tables, c: Config, ip: Ip, now: nat)
    ensures RecordIp(t, c, ip, now).Raised? <==> ip.V6? && NewV6(t, ip.parts) && V6Full(t, c, ip.parts)
  {
    if ip.V6? {
      var p := ip.parts;
      assert (set i | i in t.v6 && t.v6[i].parts.(iface := p.iface) == p) == LanRows(t.v6, p.main, p.extra, p.lan);
    }
  }

  /** A write that records the address and then fails leaves all rows as they were, but the id it took for a
      new address stays used. */
  lemma FailedWriteUsesId(t: Tables, c: Config, q: Request)
    requires Inv(t, c) && q.pkt.vkc.Some? && RecordBoth(t, c, q).reply.None?
    ensures var u := RecordBoth(t, c, q).tables;
            && u.v4 == t.v4 && u.v6 == t.v6 && u.names == t.names && u.nextName == t.nextName
            && u.nextV4 == (if q.ip.V4? && NewV4(t, q.ip.val) then t.nextV4 + 1 else t.nextV4)
            && u.nextV6 == (if q.ip.V6? && NewV6(t, q.ip.parts) && !V6Full(t, c, q.ip.parts) then t.nextV6 + 1
                            else t.nextV6)
  {
    AddressRefusedIff(t, c, q.ip, q.insertTime);
  }

  /**
   A row newer than the clock stops every write that prunes, until the clock has passed it or its owner
   has changed it.  The time is the owner's choice; nothing compares it with the clock when it is stored.
   */
  lemma NewerRowStopsPruning(t: Tables, c: Config, verify: Verifier, qs: seq<Request>, q: Request, n: nat)
    requires Inv(t, c) && n in t.names
    requires forall i :: 0 <= i < |qs| ==> Before(qs[i], verify, t.names[n])
    requires Before(q, verify, t.names[n]) && q.pkt.behavior != BEHAVIOR_DONT_BUMP
    ensures var u := Run(t, c, verify, qs); n in u.names && u.names[n] == t.names[n] && !Wrote(u, c, verify, q)
  {
    forall i | 0 <= i < |qs| ensures Quiet(qs[i], c, verify, t.names[n]) {
      assert Before(qs[i], verify, t.names[n]);
    }
    QuietRunsKeepRow(t, c, verify, qs, n);
    assert PruningStops(Run(t, c, verify, qs), q);
  }

  /** The row an answered write left behind. */
  ghost function WrittenRow(t: Tables, c: Config, verify: Verifier, q: Request): NameRow
    requires Inv(t, c) && Wrote(t, c, verify, q)
  {
    WriteStores(t, c, verify, q);
    var u := Handle(t, c, verify, q).tables;
    u.names[FindName(u.names, q.pkt.name).value]
  }

  /** Prunes less than a minute after the write's own time, and no further request signed by the owner. */
  predicate QuietMinute(q: Request, verify: Verifier, name: Buf, owner: Buf, updated: nat) {
    && (q.pkt.behavior != BEHAVIOR_DONT_BUMP ==> q.pruneTime < updated + MIN_DURATION_PENALTY)
    && !(q.pkt.name == name && SignedBy(verify, owner, q))
  }

  /** With the default duration an answered write stands unchanged after any such run. */
  lemma WriteSurvives(t: Tables, c: Config, verify: Verifier, q: Request, qs: seq<Request>)
    requires Inv(t, c) && Wrote(t, c, verify, q) && c.nameDuration == MIN_NAME_DURATION
    requires forall i :: 0 <= i < |qs| ==>
               QuietMinute(qs[i], verify, q.pkt.name, WrittenRow(t, c, verify, q).owner, q.pkt.updated)
    ensures var u := Run(Handle(t, c, verify, q).tables, c, verify, qs);
            var n := FindName(u.names, q.pkt.name);
            n.Some? && u.names[n.value] == WrittenRow(t, c, verify, q)
  {
    var u := Handle(t, c, verify, q).tables;
    HandleKeepsInv(t, c, verify, q);
    WriteStores(t, c, verify, q);
    var n := FindName(u.names, q.pkt.name).value;
    forall i | 0 <= i < |qs| ensures Quiet(qs[i], c, verify, u.names[n]) {
      assert QuietMinute(qs[i], verify, q.pkt.name, u.names[n].owner, q.pkt.updated);
    }
    QuietRunsKeepRow(u, c, verify, qs, n);
    RunFrame(u, c, verify, qs);
    assert Run(u, c, verify, qs).names[n].name == q.pkt.name;
  }

  /** A fetch after any such run returns exactly the written value, with a time of the stated interval. */
  lemma FetchReturnsWritten(t: Tables, c: Config, verify: Verifier, q: Request, qs: seq<Request>, f: Request)
    requires Inv(t, c) && Wrote(t, c, verify, q) && c.nameDuration == MIN_NAME_DURATION
    requires forall i :: 0 <= i < |qs| ==>
               QuietMinute(qs[i], verify, q.pkt.name, WrittenRow(t, c, verify, q).owner, q.pkt.updated)
    requires Unsigned(f.pkt) && f.pkt.name == q.pkt.name && MsgToSign(f.pkt, f.d).Some?
    ensures var u := Run(Handle(t, c, verify, q).tables, c, verify, qs);
            var s := Handle(u, c, verify, f);
            && s.tables == u && s.reply.Some? && s.reply.value.value == q.pkt.value
            && s.reply.value.vkc == Some(WrittenRow(t, c, verify, q).owner)
            && q.pkt.updated - (MIN_NAME_DURATION - MIN_DURATION_PENALTY) <= s.reply.value.updated <= q.pkt.updated
  {
    WriteStores(t, c, verify, q);
    WriteSurvives(t, c, verify, q, qs);
  }

  /** As above, but the owner may go on updating, as long as no update carries an older time. */
  predicate Calm(q: Request, verify: Verifier, name: Buf, owner: Buf, updated: nat) {
    && (q.pkt.behavior != BEHAVIOR_DONT_BUMP ==> q.pruneTime < updated + MIN_DURATION_PENALTY)
    && (q.pkt.name == name && SignedBy(verify, owner, q) ==> q.pkt.updated >= updated && |q.pkt.value| > 0)
  }

  lemma {:induction false} FreshStays(t: Tables, c: Config, verify: Verifier, qs: seq<Request>, n: nat, updated: nat)
    requires Inv(t, c) && c.nameDuration == MIN_NAME_DURATION && StillFresh(t, n, updated)
    requires forall i :: 0 <= i < |qs| ==> Calm(qs[i], verify, t.names[n].name, t.names[n].owner, updated)
    ensures StillFresh(Run(t, c, verify, qs), n, updated)
  {
    if |qs| == 0 {
    } else {
      var q, rest := qs[|qs| - 1], qs[..|qs| - 1];
      FreshStays(t, c, verify, rest, n, updated);
      RunFrame(t, c, verify, rest);
      OwnerIsForLife(t, c, verify, rest, n);
      ChangesAreSigned(Run(t, c, verify, rest), c, verify, q, n);
      assert Calm(q, verify, t.names[n].name, t.names[n].owner, updated);
    }
  }

  /** Under the owner's own later updates the name lives on, with the same owner. */
  lemma NameSurvivesUpdates(t: Tables, c: Config, verify: Verifier, q: Request, qs: seq<Request>)
    requires Inv(t, c) && Wrote(t, c, verify, q) && c.nameDuration == MIN_NAME_DURATION
    requires forall i :: 0 <= i < |qs| ==>
               Calm(qs[i], verify, q.pkt.name, WrittenRow(t, c, verify, q).owner, q.pkt.updated)
    ensures var u := Run(Handle(t, c, verify, q).tables, c, verify, qs);
            var n := FindName(u.names, q.pkt.name);
            n.Some? && u.names[n.value].owner == WrittenRow(t, c, verify, q).owner
  {
    var u := Handle(t, c, verify, q).tables;
    HandleKeepsInv(t, c, verify, q);
    WriteStores(t, c, verify, q);
    var n := FindName(u.names, q.pkt.name).value;
    FreshStays(u, c, verify, qs, n, q.pkt.updated);
    OwnerIsForLife(u, c, verify, qs, n);
    RunFrame(u, c, verify, qs);
    assert Run(u, c, verify, qs).names[n].name == q.pkt.name;
  }

  /** An update on an IP at its limit outlives a prune exactly when that comes before `updated + 60`. */
  lemma FullIpLastsOneMinute(updated: nat, used: nat, limit: nat, now: int)
    requires used >= limit > 0
    ensures now - StoredTime(updated, used, limit) < MIN_NAME_DURATION <==> now < updated + MIN_DURATION_PENALTY
  {
    assert used as real / limit as real >= 1.0;
    assert Penalty(used, limit) == 604740.0;
  }

  // ------------------------------------------------------------------
  // Reading back
  // ------------------------------------------------------------------

  /** The owner's delete is answered exactly when it is newer than the time stored, and takes only that row. */
  lemma DeleteAnsweredIff(t: Tables, c: Config, verify: Verifier, q: Request, n: nat)
    requires Inv(t, c) && n in t.names && t.names[n].name == q.pkt.name
    requires !Unsigned(q.pkt) && SignedBy(verify, t.names[n].owner, q) && q.pkt.value == []
    ensures var s := Handle(t, c, verify, q);
            && (s.reply.Some? <==> t.names[n].ts < q.pkt.updated)
            && (s.reply.None? ==> s.tables == t)
            && (s.reply.Some? ==> s.tables == t.(names := t.names - {n}))
  {
    assert FindName(t.names, q.pkt.name) == Some(n);
    assert t.names[n].ts < q.pkt.updated ==> DeleteNames(t.names, q.pkt.name, t.names[n].ts) == t.names - {n};
  }

  /** A fetch right after an answered delete finds nothing. */
  lemma FetchAfterDelete(t: Tables, c: Config, verify: Verifier, q: Request, f: Request)
    requires Inv(t, c) && !Unsigned(q.pkt) && |q.pkt.value| == 0 && FindName(t.names, q.pkt.name).Some?
    requires Handle(t, c, verify, q).reply.Some?
    requires Unsigned(f.pkt) && f.pkt.name == q.pkt.name && MsgToSign(f.pkt, f.d).Some?
    ensures var s := Handle(Handle(t, c, verify, q).tables, c, verify, f);
            s.reply == Some(Reply(q.pkt.name, [], 0, f.pkt.vkc))
  {
    var n := FindName(t.names, q.pkt.name).value;
    var u := Handle(t, c, verify, q).tables;
    assert u.names == DeleteNames(t.names, q.pkt.name, t.names[n].ts);
    assert FindName(u.names, q.pkt.name).None?;
  }

  /** What a reply says: a signed request gets its own fields back, an unsigned one the stored row, or the
      empty value where the name has none; a fetch changes nothing and is always answered. */
  lemma ReplyTells(t: Tables, c: Config, verify: Verifier, q: Request)
    requires Inv(t, c)
    ensures var s, p := Handle(t, c, verify, q), q.pkt;
            var fetch := p.sig == None || p.sig == Some([]);
            && (s.reply.Some? ==> s.reply.value.name == p.name)
            && (s.reply.Some? && !fetch ==>
                  s.reply.value.value == p.value && s.reply.value.updated == p.updated && s.reply.value.vkc == p.vkc)
            && (fetch ==> s.tables == t && (s.reply.Some? <==> MsgToSign(p, q.d).Some?))
            && (fetch && s.reply.Some? ==>
                  && (forall n :: n in t.names && t.names[n].name == p.name ==>
                        && s.reply.value.value == t.names[n].value && s.reply.value.updated == t.names[n].ts
                        && s.reply.value.vkc == Some(t.names[n].owner))
                  && ((forall n :: n in t.names ==> t.names[n].name != p.name) ==>
                        s.reply.value.value == [] && s.reply.value.updated == 0 && s.reply.value.vkc == p.vkc))
  {
    var row := FindName(t.names, q.pkt.name);
    if row.Some? {
      assert forall n :: n in t.names && t.names[n].name == q.pkt.name ==> n == row.value;
    }
  }

  /**
   An UPDATE that changes no column is not committed.  Nothing is lost by that: the address
   was not new either, so there is nothing else to commit.
   */
  lemma NothingToCommit(t: Tables, c: Config, q: Request)
    requires Inv(t, c) && q.pkt.vkc.Some? && FindName(t.names, q.pkt.name).Some?
    requires RecordBoth(t, c, q).reply.Some? && RecordBoth(t, c, q).tables.names == t.names
    ensures RecordBoth(t, c, q).tables == t
  {
    RecordIpKeepsInv(t, c, q.ip, q.insertTime);
    var r := RecordIp(t, c, q.ip, q.insertTime);
    var p := q.pkt;
    RecordNameStores(r.tables, c, AfOf(q.ip), r.id, p.name, p.value, p.vkc.value, p.updated);
    var n := FindName(t.names, p.name).value;
    assert RefersWell(t, t.names[n].af, t.names[n].ip);
  }

  /** An IPv6 row outlives a prune only on a platform that numbers IPv6 as 23. */
  lemma V6RowKeptIff(t: Tables, c: Config, now: nat, i: nat)
    ensures i in Prune(t, c, now).v6
            <==> && c.ip6 == 23 && i in t.v6 && now - t.v6[i].ts < c.addrExpiry
                 && exists n :: n in t.names && now - t.names[n].ts < c.nameDuration
                                && t.names[n].af == IP6 && t.names[n].ip == i
  {
    var names := FreshNames(t.names, now, c.nameDuration);
    if n :| n in t.names && now - t.names[n].ts < c.nameDuration && t.names[n].af == IP6 && t.names[n].ip == i {
      assert n in names;
    }
  }

  /** An IPv4 row outlives a prune exactly when a fresh IPv4 name is on it. */
  lemma V4RowKeptIff(t: Tables, c: Config, now: nat, i: nat)
    requires c.ip6 != AfNumber(c, IP4)
    ensures i in Prune(t, c, now).v4
            <==> && i in t.v4
                 && exists n :: n in t.names && now - t.names[n].ts < c.nameDuration
                                && t.names[n].af == IP4 && t.names[n].ip == i
  {
    var names := FreshNames(t.names, now, c.nameDuration);
    if n :| n in t.names && now - t.names[n].ts < c.nameDuration && t.names[n].af == IP4 && t.names[n].ip == i {
      assert n in names;
    }
  }

  /** Every answered write that may prune clears out the rows that have expired, its own name's included. */
  lemma ExpiredRowsGo(t: Tables, c: Config, verify: Verifier, q: Request, n: nat)
    requires Inv(t, c) && Wrote(t, c, verify, q) && q.pkt.behavior != BEHAVIOR_DONT_BUMP
    requires n in t.names && q.pruneTime - t.names[n].ts >= c.nameDuration
    ensures n !in Handle(t, c, verify, q).tables.names
  {
    WriteKeepsInv(t, c, q);
    RecordedFrame(Pruned(t, c, q), c, q);
  }

  // ------------------------------------------------------------------
  // The server, changing its tables in place
  // ------------------------------------------------------------------

  class PNPServer {
    const config: Config
    const verify: Verifier
    /** What statements see, and what a rollback returns to. */
    var tables: Tables
    var committed: Tables

    constructor (config: Config, verify: Verifier)
      ensures this.config == config && this.verify == verify
      ensures tables == EMPTY && committed == EMPTY && Inv(tables, config)
    {
      this.config := config;
      this.verify := verify;
      tables := EMPTY;
      committed := EMPTY;
      EmptyInv(config);
    }

    method Commit()
      modifies this`committed
      ensures committed == tables
    {
      committed := tables;
    }

    method RollBack()
      modifies this`tables
      ensures tables == Rollback(committed, old(tables))
    {
      tables := committed.(nextV4 := tables.nextV4, nextV6 := tables.nextV6, nextName := tables.nextName);
    }

    method FetchName(name: Buf) returns (row: Option<nat>)
      requires Inv(tables, config)
      ensures row == FindName(tables.names, name)
    {
      if n :| n in tables.names && tables.names[n].name == name {
        row := Some(n);
      } else {
        row := None;
      }
    }

    /** False where a row is newer than the clock: what has been deleted by then is left to a rollback. */
    method VerifiedPruning(now: nat) returns (ok: bool)
      modifies this
      ensures ok == CanPrune(old(tables), now)
      ensures ok <==> && (forall i :: i in old(tables).v6 ==> old(tables).v6[i].ts <= now)
                      && (forall n :: n in old(tables).names ==> old(tables).names[n].ts <= now)
      ensures ok ==> tables == Prune(old(tables), config, now) && committed == tables
      ensures !ok ==> committed == old(committed) && Rollback(committed, tables) == Rollback(committed, old(tables))
    {
      if i :| i in tables.v6 && tables.v6[i].ts > now {
        return false;
      }
      tables := tables.(v6 := FreshV6(tables.v6, now, config.addrExpiry));
      if n :| n in tables.names && tables.names[n].ts > now {
        return false;
      }
      tables := tables.(names := FreshNames(tables.names, now, config.nameDuration));
      tables := tables.(v4 := Keep(tables.v4, Referenced(config, tables.names, 2)));
      tables := tables.(v6 := Keep(tables.v6, Referenced(config, tables.names, 23)));
      Commit();
      ok := true;
    }

    method RecordAddress4(val: nat, now: nat) returns (id: nat)
      requires Inv(tables, config)
      modifies this`tables
      ensures RecordV4(old(tables), val, now) == Recorded(tables, id)
    {
      if i :| i in tables.v4 && tables.v4[i].val == val {
        id := i;
      } else {
        id := tables.nextV4;
        tables := tables.(v4 := tables.v4[id := V4Row(val, now)], nextV4 := id + 1);
      }
    }

    /** None where a limit raises. */
    method RecordAddress6(p: V6Parts, now: nat) returns (id: Option<nat>)
      requires Inv(tables, config)
      modifies this`tables
      ensures RecordV6(old(tables), config, p, now)
              == if id.Some? then Recorded(tables, id.value) else Raised(tables)
    {
      var subnetsUsed := |Lans(tables.v6, p.main, p.extra)|;
      var ifacesUsed := |LanRows(tables.v6, p.main, p.extra, p.lan)|;
      var lanExists := LanRows(tables.v6, p.main, p.extra, p.lan) != {};
      LanKnown(tables.v6, p);
      if i :| i in tables.v6 && tables.v6[i].parts == p {
        return Some(i);
      }
      if !(lanExists || subnetsUsed < config.subnetLimit) {
        return None;
      }
      if !(ifacesUsed < config.ifaceLimit) {
        return None;
      }
      id := Some(tables.nextV6);
      tables := tables.(v6 := tables.v6[tables.nextV6 := V6Row(p, now)], nextV6 := tables.nextV6 + 1);
    }

    /** False where an exception is raised. */
    method RecordOneName(af: Af, ip: nat, name: Buf, value: Buf, owner: Buf, updated: nat) returns (ok: bool)
      requires Inv(tables, config)
      modifies this`tables
      ensures ok == RecordName(old(tables), config, af, ip, name, value, owner, updated).Some?
      ensures tables == if ok then RecordName(old(tables), config, af, ip, name, value, owner, updated).value
                        else old(tables)
    {
      var row := FetchName(name);
      var used := |Held(tables.names, af, ip)|;
      var limit := NameLimit(config, af);
      if used > 0 && limit == 0 {
        return false;
      }
      if row.Some? {
        var ts := tables.names[row.value].ts;
        if ts >= updated || StoredTime(updated, used, limit) < 0 {
          return false;
        }
        tables := tables.(names := UpdateNames(tables.names, name, ts, value, af, ip,
                                               StoredTime(updated, used, limit)));
        return true;
      }
      if used >= limit {
        return false;
      }
      tables := tables.(names := tables.names[tables.nextName := NameRow(name, value, owner, af, ip, updated)],
                        nextName := tables.nextName + 1);
      ok := true;
    }

    /** False where the request is not newer than the row. */
    method VerifiedDeleteName(name: Buf, updated: nat) returns (ok: bool)
      requires Inv(tables, config) && committed == tables
      modifies this
      ensures ok == DeleteName(old(tables), name, updated).Some? && committed == tables
      ensures ok <==> forall n :: n in old(tables).names && old(tables).names[n].name == name ==>
                        old(tables).names[n].ts < updated
      ensures tables == if ok then DeleteName(old(tables), name, updated).value else old(tables)
    {
      var row := FetchName(name);
      if row.None? {
        return true;
      }
      var ts := tables.names[row.value].ts;
      if ts >= updated {
        return false;
      }
      tables := tables.(names := DeleteNames(tables.names, name, ts));
      Commit();
      ok := true;
    }

    method VerifiedWriteName(q: Request) returns (ok: bool)
      requires Inv(tables, config) && committed == tables && q.pkt.vkc.Some?
      modifies this
      ensures var w := WriteName(old(tables), config, q);
              && ok == w.reply.Some?
              && (if ok then tables == w.tables && committed == tables else Rollback(committed, tables) == w.tables)
    {
      ghost var before := tables;
      if q.pkt.behavior != BEHAVIOR_DONT_BUMP {
        PruneKeepsInv(tables, config, q.pruneTime);
        var pruned := VerifiedPruning(q.pruneTime);
        if !pruned {
          return false;
        }
      }
      ghost var start := tables;
      assert start == Pruned(before, config, q);
      RecordIpKeepsInv(start, config, q.ip, q.insertTime);
      var id;
      match q.ip {
        case V4(val) => id := RecordAddress4(val, q.insertTime);
        case V6(parts) =>
          var found := RecordAddress6(parts, q.insertTime);
          if found.None? {
            return false;
          }
          id := found.value;
      }
      assert RecordIp(start, config, q.ip, q.insertTime) == Recorded(tables, id);
      ok := RecordOneName(AfOf(q.ip), id, q.pkt.name, q.pkt.value, q.pkt.vkc.value, q.pkt.updated);
      if ok {
        Commit();
      }
    }

    /** One message from a client; None where nothing is sent back. */
    method MsgCb(q: Request) returns (reply: Option<Reply>)
      requires Inv(tables, config)
      modifies this
      ensures Inv(tables, config)
      ensures Handle(old(tables), config, verify, q) == Served(tables, reply)
    {
      HandleKeepsInv(tables, config, verify, q);
      ghost var before := tables;
      committed := tables;
      var p := q.pkt;
      var msg := MsgToSign(p, q.d);
      if msg.None? {
        return None;
      }
      var row := FetchName(p.name);
      if row.Some? {
        var stored := tables.names[row.value];
        if p.sig.None? || |p.sig.value| == 0 {
          return Some(Reply(p.name, stored.value, stored.ts, Some(stored.owner)));
        }
        if !verify(stored.owner, msg.value, p.sig.value) {
          return None;
        }
        if |p.value| == 0 {
          var deleted := VerifiedDeleteName(p.name, p.updated);
          return if deleted then Some(Echo(p)) else None;
        }
      }
      if p.sig.None? || |p.sig.value| == 0 {
        return Some(Reply(p.name, [], 0, p.vkc));
      }
      if !ValidSig(verify, p, q.e) {
        return None;
      }
      assert Handle(before, config, verify, q) == WriteName(before, config, q);
      var ok := VerifiedWriteName(q);
      if !ok {
        RollBack();
        return None;
      }
      reply := Some(Echo(p));
    }
  }

  /** A LAN has been seen exactly when it has a row. */
  lemma LanKnown(rows: map<nat, V6Row>, p: V6Parts)
    ensures p.lan in Lans(rows, p.main, p.extra) <==> LanRows(rows, p.main, p.extra, p.lan) != {}
  {
    if i :| i in LanRows(rows, p.main, p.extra, p.lan) {
      assert rows[i].parts.lan in Lans(rows, p.main, p.extra);
    }
    if p.lan in Lans(rows, p.main, p.extra) {
      var i :| i in rows && rows[i].parts.main == p.main && rows[i].parts.extra == p.extra
               && rows[i].parts.lan == p.lan;
      assert i in LanRows(rows, p.main, p.extra, p.lan);
    }
  }
}
