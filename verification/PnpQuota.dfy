/**
 How many names an address holds.  The tables count names per row id, so the count per
 address is a matter of which rows an address gets over a run.
 */
module PnpQuota {
  import opened Bytes
  import opened Endian
  import opened Families
  import opened Options
  import opened PnpPacket
  import opened PnpStore

  // ------------------------------------------------------------------
  // Where a stored name was last written from
  // ------------------------------------------------------------------

  function Origin(before: Tables, after: Tables, was: map<nat, Ip>, q: Request, n: nat): Ip
    requires n in after.names
  {
    if n in before.names && n in was && after.names[n] == before.names[n] then was[n] else q.ip
  }

  function NextOrigins(before: Tables, after: Tables, was: map<nat, Ip>, q: Request): map<nat, Ip> {
    map n | n in after.names :: Origin(before, after, was, q, n)
  }

  /** For every stored name, the address of the request that last wrote its row. */
  ghost function Origins(c: Config, verify: Verifier, qs: seq<Request>): map<nat, Ip> {
    if |qs| == 0 then map[]
    else
      var rest := qs[..|qs| - 1];
      NextOrigins(Run(EMPTY, c, verify, rest), Run(EMPTY, c, verify, qs), Origins(c, verify, rest), qs[|qs| - 1])
  }

  function StoredBy(origins: map<nat, Ip>, ip: Ip): set<nat> {
    set n | n in origins && origins[n] == ip
  }

  /** Some name last written from elsewhere is now held by this address. */
  ghost predicate MovedOnto(was: map<nat, Ip>, now: map<nat, Ip>, ip: Ip) {
    exists n :: n in was && n in now && was[n] != ip && now[n] == ip
  }

  /** The number of requests in a run that moved a name onto this address. */
  ghost function MovesOnto(c: Config, verify: Verifier, qs: seq<Request>, ip: Ip): nat {
    if |qs| == 0 then 0
    else
      var rest := qs[..|qs| - 1];
      MovesOnto(c, verify, rest, ip)
      + if MovedOnto(Origins(c, verify, rest), Origins(c, verify, qs), ip) then 1 else 0
  }

  predicate OriginFits(t: Tables, row: NameRow, ip: Ip) {
    && row.af == AfOf(ip)
    && (ip.V4? ==> row.ip in t.v4 && t.v4[row.ip].val == ip.val)
  }

  predicate OriginsFit(t: Tables, origins: map<nat, Ip>) {
    && origins.Keys == t.names.Keys
    && forall n :: n in t.names ==> OriginFits(t, t.names[n], origins[n])
  }

  // ------------------------------------------------------------------
  // One request
  // ------------------------------------------------------------------

  /** What recording changes: rows are only added, and at most one name is written, onto the request's address. */
  predicate WritesOne(t: Tables, u: Tables, c: Config, q: Request, n: nat) {
    && (forall i :: i in t.v4 ==> i in u.v4 && u.v4[i] == t.v4[i])
    && (forall m :: m in t.names ==> m in u.names)
    && (forall m :: m in u.names && m != n ==> m in t.names && u.names[m] == t.names[m])
    && (n in u.names && (n !in t.names || u.names[n] != t.names[n]) ==> OriginFits(u, u.names[n], q.ip))
    && (n in u.names && n !in t.names ==> NameLimit(c, AfOf(q.ip)) > 0)
    && (q.ip.V6? && (c.subnetLimit == 0 || c.ifaceLimit == 0) ==> u.names == t.names)
  }

  lemma NoRowsWithoutQuota(t: Tables, c: Config, p: V6Parts)
    requires Inv(t, c) && (c.subnetLimit == 0 || c.ifaceLimit == 0)
    ensures FindV6(t.v6, p).None?
  {
    forall i ensures i in t.v6 ==> t.v6[i].parts != p {
      var lans, rows := Lans(t.v6, p.main, p.extra), LanRows(t.v6, p.main, p.extra, p.lan);
      assert lans == {} || rows == {};
      assert i in t.v6 && t.v6[i].parts == p ==> p.lan in lans && i in rows;
    }
  }

  lemma RecordedRowIsForAddress(t: Tables, c: Config, ip: Ip, now: nat)
    requires Inv(t, c)
    ensures var r := RecordIp(t, c, ip, now);
            match r
            case Raised(left) => left == t
            case Recorded(u, id) =>
              && u.names == t.names && u.nextName == t.nextName
              && (forall i :: i in t.v4 ==> i in u.v4 && u.v4[i] == t.v4[i])
              && (ip.V4? ==> id in u.v4 && u.v4[id].val == ip.val)
              && (ip.V6? ==> c.subnetLimit > 0 && c.ifaceLimit > 0)
  {
    if ip.V6? && (c.subnetLimit == 0 || c.ifaceLimit == 0) {
      NoRowsWithoutQuota(t, c, ip.parts);
    }
  }

  lemma RecordNameWritesOne(t: Tables, c: Config, q: Request, ip: nat) returns (n: nat)
    requires Inv(t, c) && q.pkt.vkc.Some?
    requires q.ip.V4? ==> ip in t.v4 && t.v4[ip].val == q.ip.val
    requires q.ip.V6? ==> c.subnetLimit > 0 && c.ifaceLimit > 0
    requires RecordName(t, c, AfOf(q.ip), ip, q.pkt.name, q.pkt.value, q.pkt.vkc.value, q.pkt.updated).Some?
    ensures WritesOne(t,
                      RecordName(t, c, AfOf(q.ip), ip, q.pkt.name, q.pkt.value, q.pkt.vkc.value, q.pkt.updated).value,
                      c, q, n)
  {
    var row := FindName(t.names, q.pkt.name);
    n := if row.Some? then row.value else t.nextName;
  }

  lemma RecordBothWritesOne(t: Tables, c: Config, q: Request) returns (n: nat)
    requires Inv(t, c) && q.pkt.vkc.Some?
    ensures WritesOne(t, RecordBoth(t, c, q).tables, c, q, n)
  {
    n := t.nextName;
    RecordedRowIsForAddress(t, c, q.ip, q.insertTime);
    RecordIpKeepsInv(t, c, q.ip, q.insertTime);
    match RecordIp(t, c, q.ip, q.insertTime)
    case Raised(_) =>
    case Recorded(u, id) =>
      var p := q.pkt;
      if RecordName(u, c, AfOf(q.ip), id, p.name, p.value, p.vkc.value, p.updated).Some? {
        n := RecordNameWritesOne(u, c, q, id);
      }
  }

  /** A whole request: rows may go first, and a name that stays keeps its IPv4 row. */
  predicate ChangesOne(t: Tables, u: Tables, c: Config, q: Request, n: nat) {
    && (forall m :: m in t.names && m in u.names && t.names[m].af == IP4 ==>
          t.names[m].ip in u.v4 && t.names[m].ip in t.v4 && u.v4[t.names[m].ip] == t.v4[t.names[m].ip])
    && (forall m :: m in u.names && m != n ==> m in t.names && u.names[m] == t.names[m])
    && (n in u.names && (n !in t.names || u.names[n] != t.names[n]) ==> OriginFits(u, u.names[n], q.ip))
    && (n in u.names && n !in t.names ==> NameLimit(c, AfOf(q.ip)) > 0)
    && (n in u.names && (n !in t.names || u.names[n] != t.names[n]) && q.ip.V6? ==>
          c.subnetLimit > 0 && c.ifaceLimit > 0)
  }

  lemma WriteChangesOne(t: Tables, c: Config, q: Request) returns (n: nat)
    requires Inv(t, c) && q.pkt.vkc.Some?
    ensures ChangesOne(t, WriteName(t, c, q).tables, c, q, n)
  {
    if PruningStops(t, q) {
      n := t.nextName;
      SameTables(t, c, q, n);
    } else {
      WriteKeepsInv(t, c, q);
      var start := Pruned(t, c, q);
      n := RecordBothWritesOne(start, c, q);
      RecordedFrame(start, c, q);
      WrittenChangesOne(t, start, WriteName(t, c, q).tables, c, q, n);
    }
  }

  lemma SameTables(t: Tables, c: Config, q: Request, n: nat)
    requires Inv(t, c) && n == t.nextName
    ensures ChangesOne(t, t, c, q, n)
  {
    forall m | m in t.names && t.names[m].af == IP4 ensures t.names[m].ip in t.v4 {
      assert RefersWell(t, t.names[m].af, t.names[m].ip);
    }
  }

  /** From the pruned tables to what was there before. */
  lemma WrittenChangesOne(t: Tables, start: Tables, u: Tables, c: Config, q: Request, n: nat)
    requires Inv(t, c) && Inv(start, c) && start == Pruned(t, c, q) && WritesOne(start, u, c, q, n)
    requires n in t.names ==> n in start.names || n !in u.names
    ensures ChangesOne(t, u, c, q, n)
  {
    forall m | m in t.names && m in u.names && t.names[m].af == IP4
      ensures t.names[m].ip in u.v4 && t.names[m].ip in t.v4 && u.v4[t.names[m].ip] == t.v4[t.names[m].ip]
    {
      assert m in start.names && start.names[m] == t.names[m];
      assert RefersWell(start, start.names[m].af, start.names[m].ip);
    }
  }

  lemma HandleChangesOne(t: Tables, c: Config, verify: Verifier, q: Request) returns (n: nat)
    requires Inv(t, c)
    ensures ChangesOne(t, Handle(t, c, verify, q).tables, c, q, n)
  {
    var u := Handle(t, c, verify, q).tables;
    HandleCases(t, c, verify, q);
    n := t.nextName;
    if u != t && DeleteName(t, q.pkt.name, q.pkt.updated) != Some(u) {
      n := WriteChangesOne(t, c, q);
    } else {
      SameTables(t, c, q, n);
    }
  }

  lemma OriginsStep(t: Tables, was: map<nat, Ip>, c: Config, verify: Verifier, q: Request)
    requires Inv(t, c) && OriginsFit(t, was)
    ensures var u := Handle(t, c, verify, q).tables; OriginsFit(u, NextOrigins(t, u, was, q))
  {
    var n := HandleChangesOne(t, c, verify, q);
    var u := Handle(t, c, verify, q).tables;
    var now := NextOrigins(t, u, was, q);
    forall m | m in u.names ensures OriginFits(u, u.names[m], now[m]) {
      if m in t.names {
        assert OriginFits(t, t.names[m], was[m]);
      }
    }
  }

  lemma {:induction false} OriginsAlwaysFit(c: Config, verify: Verifier, qs: seq<Request>)
    ensures Inv(Run(EMPTY, c, verify, qs), c)
    ensures OriginsFit(Run(EMPTY, c, verify, qs), Origins(c, verify, qs))
  {
    EmptyInv(c);
    RunKeepsInv(EMPTY, c, verify, qs);
    if |qs| == 0 {
    } else {
      var rest := qs[..|qs| - 1];
      OriginsAlwaysFit(c, verify, rest);
      OriginsStep(Run(EMPTY, c, verify, rest), Origins(c, verify, rest), c, verify, qs[|qs| - 1]);
    }
  }

  lemma OneMore(was: set<nat>, now: set<nat>, n: nat)
    requires forall m :: m in now && m != n ==> m in was
    ensures |now| <= |was| || (n in now && n !in was && |now| <= |was| + 1)
  {
    if n in now && n !in was {
      SubsetSize(now, was + {n});
    } else {
      SubsetSize(now, was);
    }
  }

  /** A name newly stored by an address was moved there, or inserted as limit and quotas admit. */
  lemma NewlyStored(t: Tables, u: Tables, was: map<nat, Ip>, c: Config, q: Request, n: nat, ip: Ip)
    requires OriginsFit(t, was) && ChangesOne(t, u, c, q, n)
    ensures var now := NextOrigins(t, u, was, q);
            && (forall m :: m in StoredBy(now, ip) && m != n ==> m in StoredBy(was, ip))
            && (n in StoredBy(now, ip) && n !in StoredBy(was, ip) ==>
                  MovedOnto(was, now, ip)
                  || (NameLimit(c, AfOf(ip)) > 0 && (ip.V6? ==> c.subnetLimit > 0 && c.ifaceLimit > 0)))
  {
    var now := NextOrigins(t, u, was, q);
    if n in StoredBy(now, ip) && n in t.names && n !in StoredBy(was, ip) {
      assert n in was && n in now && was[n] != ip && now[n] == ip;
    }
  }

  /** The count of one address grows by one at most: by a move, or by an insert that limit and quotas admit. */
  lemma StoredGrowsByOne(t: Tables, was: map<nat, Ip>, c: Config, verify: Verifier, q: Request, ip: Ip)
    requires Inv(t, c) && OriginsFit(t, was)
    ensures var now := NextOrigins(t, Handle(t, c, verify, q).tables, was, q);
            || |StoredBy(now, ip)| <= |StoredBy(was, ip)|
            || (&& |StoredBy(now, ip)| <= |StoredBy(was, ip)| + 1
                && (MovedOnto(was, now, ip)
                    || (NameLimit(c, AfOf(ip)) > 0 && (ip.V6? ==> c.subnetLimit > 0 && c.ifaceLimit > 0))))
  {
    var n := HandleChangesOne(t, c, verify, q);
    var u := Handle(t, c, verify, q).tables;
    NewlyStored(t, u, was, c, q, n, ip);
    OneMore(StoredBy(was, ip), StoredBy(NextOrigins(t, u, was, q), ip), n);
  }

  // ------------------------------------------------------------------
  // IPv4: the limit holds per address
  // ------------------------------------------------------------------

  /** The names of an IPv4 address are the names of its row. */
  lemma StoredIsHeld(t: Tables, origins: map<nat, Ip>, c: Config, v: nat)
    requires Inv(t, c) && OriginsFit(t, origins)
    ensures StoredBy(origins, V4(v))
            == match FindV4(t.v4, v) case None => {} case Some(i) => Held(t.names, IP4, i)
  {
    forall n | n in t.names ensures OriginFits(t, t.names[n], origins[n]) {}
    match FindV4(t.v4, v)
    case None =>
      forall n ensures n !in StoredBy(origins, V4(v)) {
        if n in t.names {
          assert OriginFits(t, t.names[n], origins[n]);
        }
      }
    case Some(i) =>
      forall n ensures n in StoredBy(origins, V4(v)) <==> n in Held(t.names, IP4, i) {
        if n in t.names {
          assert OriginFits(t, t.names[n], origins[n]);
        }
      }
  }

  /** Nothing refers to a row that does not exist yet. */
  lemma NothingHeldAhead(t: Tables, c: Config, i: nat)
    requires Inv(t, c) && i >= t.nextV4
    ensures Held(t.names, IP4, i) == {}
  {
    forall n ensures n !in Held(t.names, IP4, i) {
      if n in t.names {
        assert RefersWell(t, t.names[n].af, t.names[n].ip);
      }
    }
  }

  lemma StoredStep(t: Tables, was: map<nat, Ip>, c: Config, verify: Verifier, q: Request, v: nat)
    requires Inv(t, c) && OriginsFit(t, was)
    ensures var now := NextOrigins(t, Handle(t, c, verify, q).tables, was, q);
            || |StoredBy(now, V4(v))| <= |StoredBy(was, V4(v))|
            || |StoredBy(now, V4(v))| <= c.v4NameLimit
            || (MovedOnto(was, now, V4(v)) && |StoredBy(now, V4(v))| <= |StoredBy(was, V4(v))| + 1)
  {
    var u := Handle(t, c, verify, q).tables;
    var now := NextOrigins(t, u, was, q);
    HandleKeepsInv(t, c, verify, q);
    OriginsStep(t, was, c, verify, q);
    StoredIsHeld(t, was, c, v);
    StoredIsHeld(u, now, c, v);
    if FindV4(u.v4, v).Some? {
      var i := FindV4(u.v4, v).value;
      HandleHeld(t, c, verify, q, IP4, i);
      HandleFrame(t, c, verify, q);
      if i >= t.nextV4 {
        NothingHeldAhead(t, c, i);
      }
      if Moved(t.names, u.names, IP4, i) {
        MoveIsMove(t, was, c, verify, q, v, i);
      }
    }
  }

  /** A name that has come to the row of an address has come to the address. */
  lemma MoveIsMove(t: Tables, was: map<nat, Ip>, c: Config, verify: Verifier, q: Request, v: nat, i: nat)
    requires Inv(t, c) && OriginsFit(t, was)
    requires var u := Handle(t, c, verify, q).tables;
             i in u.v4 && u.v4[i].val == v && Moved(t.names, u.names, IP4, i)
    ensures MovedOnto(was, NextOrigins(t, Handle(t, c, verify, q).tables, was, q), V4(v))
  {
    var u := Handle(t, c, verify, q).tables;
    var now := NextOrigins(t, u, was, q);
    HandleKeepsInv(t, c, verify, q);
    OriginsStep(t, was, c, verify, q);
    var m := HandleChangesOne(t, c, verify, q);
    var n :| n in t.names && n in u.names && n !in Held(t.names, IP4, i) && n in Held(u.names, IP4, i);
    assert OriginFits(u, u.names[n], now[n]) && OriginFits(t, t.names[n], was[n]);
    assert t.names[n].af == IP4 ==> t.names[n].ip in u.v4 && t.names[n].ip != i;
    assert was[n] != V4(v);
  }

  /** An IPv4 address never holds more names than the limit and the moves onto it allow. */
  lemma {:induction false} NamesPerIp(c: Config, verify: Verifier, qs: seq<Request>, v: nat)
    ensures |StoredBy(Origins(c, verify, qs), V4(v))| <= c.v4NameLimit + MovesOnto(c, verify, qs, V4(v))
  {
    if |qs| == 0 {
      assert StoredBy(map[], V4(v)) == {};
    } else {
      var rest := qs[..|qs| - 1];
      NamesPerIp(c, verify, rest, v);
      OriginsAlwaysFit(c, verify, rest);
      StoredStep(Run(EMPTY, c, verify, rest), Origins(c, verify, rest), c, verify, qs[|qs| - 1], v);
    }
  }

  // ------------------------------------------------------------------
  // IPv6: it does not, as soon as a name can be stored at all
  // ------------------------------------------------------------------

  const ADDRESS := V6Parts(1, 2, 3, 4)

  /** A signed write of the k-th name from the address.  The row it makes at time 0 has expired at the
      moment the last request below prunes; the names have not. */
  function Filling(c: Config, k: nat, behavior: nat, clock: nat): Request {
    Request(Packet(1, None, behavior, c.addrExpiry, Zeros(k), [1], Some(Zeros(33)), Some([1])), V6(ADDRESS),
            clock, clock, 1, 1)
  }

  function FilledRow(c: Config, k: nat): NameRow {
    NameRow(Zeros(k), [1], Zeros(33), IP6, 1, c.addrExpiry)
  }

  function FilledNames(c: Config, k: nat): map<nat, NameRow> {
    if k == 0 then map[] else FilledNames(c, k - 1)[k := FilledRow(c, k - 1)]
  }

  /** The tables after k such writes without pruning. */
  function Filled(c: Config, k: nat): Tables {
    if k == 0 then EMPTY
    else Tables(map[], map[1 := V6Row(ADDRESS, 0)], FilledNames(c, k), 1, 2, k + 1)
  }

  function Fillings(c: Config, k: nat): seq<Request> {
    if k == 0 then [] else Fillings(c, k - 1) + [Filling(c, k - 1, 0, 0)]
  }

  predicate IsFilled(c: Config, rows: map<nat, NameRow>, k: nat) {
    forall i :: i in rows ==> 1 <= i <= k && rows[i] == FilledRow(c, i - 1)
  }

  lemma AddRow(c: Config, rows: map<nat, NameRow>, k: nat)
    requires IsFilled(c, rows, k)
    ensures var more := rows[k + 1 := FilledRow(c, k)];
            IsFilled(c, more, k + 1) && |more.Keys| == |rows.Keys| + 1
  {
    var more := rows[k + 1 := FilledRow(c, k)];
    assert more.Keys == rows.Keys + {k + 1};
  }

  lemma {:induction false} FilledRows(c: Config, k: nat)
    ensures IsFilled(c, FilledNames(c, k), k) && |FilledNames(c, k).Keys| == k
  {
    if k == 0 {
    } else {
      FilledRows(c, k - 1);
      AddRow(c, FilledNames(c, k - 1), k - 1);
    }
  }

  lemma FilledHeld(c: Config, rows: map<nat, NameRow>, k: nat)
    requires IsFilled(c, rows, k)
    ensures Held(rows, IP6, 1) == rows.Keys && Held(rows, IP6, 2) == {}
  {
  }

  lemma FilledNew(c: Config, rows: map<nat, NameRow>, k: nat)
    requires IsFilled(c, rows, k)
    ensures FindName(rows, Zeros(k)).None?
  {
    forall i | i in rows ensures rows[i].name != Zeros(k) {
      assert |rows[i].name| == i - 1;
    }
  }

  lemma FilledFacts(c: Config, k: nat)
    ensures |Held(FilledNames(c, k), IP6, 1)| == k && Held(FilledNames(c, k), IP6, 2) == {}
    ensures FindName(FilledNames(c, k), Zeros(k)).None?
    ensures forall i :: i in FilledNames(c, k) ==> i <= k && FilledNames(c, k)[i].ts == c.addrExpiry
  {
    FilledRows(c, k);
    FilledHeld(c, FilledNames(c, k), k);
    FilledNew(c, FilledNames(c, k), k);
  }

  lemma FillingSigned(c: Config, k: nat, behavior: nat, clock: nat)
    requires behavior < 256
    ensures var q := Filling(c, k, behavior, clock);
            && MsgToSign(q.pkt, 1).Some? && !Unsigned(q.pkt) && ValidSig(EVERYONE, q.pkt, 1)
  {
    FieldSizes();
  }

  /** The address has row 1, now if not before. */
  lemma FillRecords(c: Config, k: nat)
    requires c.subnetLimit > 0 && c.ifaceLimit > 0
    ensures var t := Filled(c, k);
            RecordIp(t, c, V6(ADDRESS), 0)
            == Recorded(Tables(map[], map[1 := V6Row(ADDRESS, 0)],
                               FilledNames(c, k), 1, 2, k + 1), 1)
  {
    var t := Filled(c, k);
    if k == 0 {
      assert Lans(t.v6, ADDRESS.main, ADDRESS.extra) == {};
      assert LanRows(t.v6, ADDRESS.main, ADDRESS.extra, ADDRESS.lan) == {};
    } else {
      assert 1 in t.v6 && t.v6[1].parts == ADDRESS;
    }
  }

  /** One more name while the row's count is below the limit. */
  lemma FillOne(c: Config, k: nat)
    requires k < c.v6NameLimit && c.subnetLimit > 0 && c.ifaceLimit > 0
    ensures Handle(Filled(c, k), c, EVERYONE, Filling(c, k, 0, 0)).tables == Filled(c, k + 1)
  {
    var t, q := Filled(c, k), Filling(c, k, 0, 0);
    FillingSigned(c, k, 0, 0);
    FilledFacts(c, k);
    FillRecords(c, k);
    assert Handle(t, c, EVERYONE, q) == WriteName(t, c, q);
  }

  predicate AllFrom(origins: map<nat, Ip>, ip: Ip) {
    forall n :: n in origins ==> origins[n] == ip
  }

  lemma AllFromStays(before: Tables, after: Tables, was: map<nat, Ip>, q: Request)
    requires AllFrom(was, q.ip)
    ensures var now := NextOrigins(before, after, was, q);
            now.Keys == after.names.Keys && AllFrom(now, q.ip) && !MovedOnto(was, now, q.ip)
  {
  }

  lemma AllStored(origins: map<nat, Ip>, ip: Ip)
    requires AllFrom(origins, ip)
    ensures StoredBy(origins, ip) == origins.Keys
  {
  }

  lemma {:induction false} Fill(c: Config, k: nat)
    requires k <= c.v6NameLimit && c.subnetLimit > 0 && c.ifaceLimit > 0
    ensures Run(EMPTY, c, EVERYONE, Fillings(c, k)) == Filled(c, k)
    ensures AllFrom(Origins(c, EVERYONE, Fillings(c, k)), V6(ADDRESS))
    ensures MovesOnto(c, EVERYONE, Fillings(c, k), V6(ADDRESS)) == 0
  {
    if k == 0 {
    } else {
      Fill(c, k - 1);
      FillOne(c, k - 1);
      var qs, rest := Fillings(c, k), Fillings(c, k - 1);
      assert qs[..|qs| - 1] == rest;
      AllFromStays(Run(EMPTY, c, EVERYONE, rest), Run(EMPTY, c, EVERYONE, qs), Origins(c, EVERYONE, rest),
                   qs[|qs| - 1]);
    }
  }

  /** Then a write that prunes: the row is gone, the names are not, and the count starts again. */
  lemma Overfill(c: Config)
    requires c.v6NameLimit > 0 && c.subnetLimit > 0 && c.ifaceLimit > 0
    ensures var k := c.v6NameLimit;
            var u := Handle(Filled(c, k), c, EVERYONE, Filling(c, k, 1, c.addrExpiry)).tables;
            u.names == FilledNames(c, k)[k + 1 := NameRow(Zeros(k), [1], Zeros(33), IP6, 2, c.addrExpiry)]
  {
    var k := c.v6NameLimit;
    var t, q := Filled(c, k), Filling(c, k, 1, c.addrExpiry);
    FillingSigned(c, k, 1, c.addrExpiry);
    FilledFacts(c, k);
    assert Handle(t, c, EVERYONE, q) == WriteName(t, c, q);
    var start := Pruned(t, c, q);
    assert start.names == FilledNames(c, k);
    assert start.v6 == map[];
    assert Lans(start.v6, ADDRESS.main, ADDRESS.extra) == {};
    assert LanRows(start.v6, ADDRESS.main, ADDRESS.extra, ADDRESS.lan) == {};
  }

  /** The bound per address, for IPv6 and every run. */
  ghost predicate V6Bounded(c: Config) {
    forall verify: Verifier, qs, p ::
      |StoredBy(Origins(c, verify, qs), V6(p))| <= c.v6NameLimit + MovesOnto(c, verify, qs, V6(p))
  }

  lemma FilledAndOne(c: Config, k: nat, row: NameRow)
    ensures |FilledNames(c, k)[k + 1 := row].Keys| == k + 1
  {
    FilledRows(c, k);
    assert FilledNames(c, k)[k + 1 := row].Keys == FilledNames(c, k).Keys + {k + 1};
  }

  /** A run in which one address comes to hold one name more than its limit, with no move at all. */
  lemma V6Overfilled(c: Config)
    requires c.v6NameLimit > 0 && c.subnetLimit > 0 && c.ifaceLimit > 0
    ensures var qs := Fillings(c, c.v6NameLimit) + [Filling(c, c.v6NameLimit, 1, c.addrExpiry)];
            && |StoredBy(Origins(c, EVERYONE, qs), V6(ADDRESS))| == c.v6NameLimit + 1
            && MovesOnto(c, EVERYONE, qs, V6(ADDRESS)) == 0
  {
    var k := c.v6NameLimit;
    var rest, q := Fillings(c, k), Filling(c, k, 1, c.addrExpiry);
    var qs := rest + [q];
    assert qs[..|qs| - 1] == rest;
    Fill(c, k);
    Overfill(c);
    AllFromStays(Run(EMPTY, c, EVERYONE, rest), Run(EMPTY, c, EVERYONE, qs), Origins(c, EVERYONE, rest), q);
    AllStored(Origins(c, EVERYONE, qs), V6(ADDRESS));
    FilledAndOne(c, k, NameRow(Zeros(k), [1], Zeros(33), IP6, 2, c.addrExpiry));
  }

  lemma {:induction false} V6BoundedWithoutRoom(c: Config, verify: Verifier, qs: seq<Request>, p: V6Parts)
    requires c.v6NameLimit == 0 || c.subnetLimit == 0 || c.ifaceLimit == 0
    ensures |StoredBy(Origins(c, verify, qs), V6(p))| <= MovesOnto(c, verify, qs, V6(p))
  {
    if |qs| == 0 {
      assert StoredBy(map[], V6(p)) == {};
    } else {
      var rest := qs[..|qs| - 1];
      V6BoundedWithoutRoom(c, verify, rest, p);
      OriginsAlwaysFit(c, verify, rest);
      StoredGrowsByOne(Run(EMPTY, c, verify, rest), Origins(c, verify, rest), c, verify, qs[|qs| - 1], V6(p));
    }
  }

  /** For IPv6 the bound holds in every run exactly when no name can be inserted from IPv6 at all: an
      address's row goes while its names stay, and its next row starts with none. */
  lemma V6BoundedIff(c: Config)
    ensures V6Bounded(c) <==> c.v6NameLimit == 0 || c.subnetLimit == 0 || c.ifaceLimit == 0
  {
    if c.v6NameLimit == 0 || c.subnetLimit == 0 || c.ifaceLimit == 0 {
      forall verify: Verifier, qs, p
        ensures |StoredBy(Origins(c, verify, qs), V6(p))| <= c.v6NameLimit + MovesOnto(c, verify, qs, V6(p))
      {
        V6BoundedWithoutRoom(c, verify, qs, p);
      }
    } else {
      V6Overfilled(c);
    }
  }
}
