/**
 The guard against replayed updates.  A stored row carries the time of the request that wrote
 it, less a penalty; a request is taken for a replay when its own time is not newer.
 */
module PnpReplay {
  import opened Bytes
  import opened Endian
  import opened Families
  import opened Options
  import opened PnpPacket
  import opened PnpStore

  // ------------------------------------------------------------------
  // Recording a name twice
  // ------------------------------------------------------------------

  /** The time a name is stored under: its own for a new name or an IP row without names. */
  ghost function StoredFor(t: Tables, c: Config, af: Af, ip: nat, name: Buf, updated: nat): int
    requires Held(t.names, af, ip) != {} ==> NameLimit(c, af) > 0
  {
    if FindName(t.names, name).None? then updated
    else
      assert |Held(t.names, af, ip)| > 0 ==> Held(t.names, af, ip) != {};
      StoredTime(updated, |Held(t.names, af, ip)|, NameLimit(c, af))
  }

  /** An IP row can take an update: its penalty can be computed, and leaves a time that can be stored. */
  predicate UpdateFits(t: Tables, c: Config, af: Af, ip: nat, updated: nat) {
    var used, limit := |Held(t.names, af, ip)|, NameLimit(c, af);
    (used > 0 ==> limit > 0) && StoredTime(updated, used, limit) >= 0
  }

  lemma RecordedTime(t: Tables, c: Config, af: Af, ip: nat, name: Buf, value: Buf, owner: Buf, updated: nat)
    requires Inv(t, c) && RefersWell(t, af, ip)
    requires RecordName(t, c, af, ip, name, value, owner, updated).Some?
    ensures Held(t.names, af, ip) != {} ==> NameLimit(c, af) > 0
    ensures var u := RecordName(t, c, af, ip, name, value, owner, updated).value;
            var n := FindName(u.names, name);
            && Inv(u, c) && n.Some? && u.names[n.value].ts == StoredFor(t, c, af, ip, name, updated)
            && u.names[n.value].owner
               == match FindName(t.names, name) case None => owner case Some(m) => t.names[m].owner
  {
    RecordNameKeepsInv(t, c, af, ip, name, value, owner, updated);
    var u := RecordName(t, c, af, ip, name, value, owner, updated).value;
    match FindName(t.names, name)
    case Some(m) => assert u.names[m].name == name;
    case None => assert u.names[t.nextName].name == name;
  }

  /** A penalty is taken off exactly when the name was known and its IP row held names. */
  lemma EarlierIff(t: Tables, c: Config, af: Af, ip: nat, name: Buf, updated: nat)
    requires Held(t.names, af, ip) != {} ==> NameLimit(c, af) > 0
    ensures StoredFor(t, c, af, ip, name, updated) <= updated
    ensures StoredFor(t, c, af, ip, name, updated) < updated
            <==> FindName(t.names, name).Some? && Held(t.names, af, ip) != {}
  {
    assert |Held(t.names, af, ip)| == 0 <==> Held(t.names, af, ip) == {};
  }

  /** Once a name has been recorded, any other record of it, from whatever address, is accepted exactly
      when its address can take an update and its time is newer than the time stored. */
  lemma LaterRecordIff(t: Tables, c: Config, af: Af, ip: nat, name: Buf, value: Buf, owner: Buf, updated: nat,
                       af2: Af, ip2: nat, value2: Buf, owner2: Buf, updated2: nat)
    requires Inv(t, c) && RefersWell(t, af, ip)
    requires RecordName(t, c, af, ip, name, value, owner, updated).Some?
    ensures Held(t.names, af, ip) != {} ==> NameLimit(c, af) > 0
    ensures var u := RecordName(t, c, af, ip, name, value, owner, updated).value;
            RecordName(u, c, af2, ip2, name, value2, owner2, updated2).Some?
            <==> UpdateFits(u, c, af2, ip2, updated2) && StoredFor(t, c, af, ip, name, updated) < updated2
  {
    RecordedTime(t, c, af, ip, name, value, owner, updated);
  }

  /** So the very same record is refused if the first was an insert or its IP row held no names; otherwise
      only where its address cannot take the update. */
  lemma SecondRecordRefusedIff(t: Tables, c: Config, af: Af, ip: nat, name: Buf, value: Buf, owner: Buf, updated: nat)
    requires Inv(t, c) && RefersWell(t, af, ip)
    requires RecordName(t, c, af, ip, name, value, owner, updated).Some?
    ensures var u := RecordName(t, c, af, ip, name, value, owner, updated).value;
            RecordName(u, c, af, ip, name, value, owner, updated).None?
            <==> || FindName(t.names, name).None? || Held(t.names, af, ip) == {}
                 || !UpdateFits(u, c, af, ip, updated)
  {
    RecordedTime(t, c, af, ip, name, value, owner, updated);
    EarlierIff(t, c, af, ip, name, updated);
    LaterRecordIff(t, c, af, ip, name, value, owner, updated, af, ip, value, owner, updated);
  }

  // ------------------------------------------------------------------
  // A request for a name that is stored
  // ------------------------------------------------------------------

  /** The row of the request's address, as recording the name finds it. */
  ghost function AddressRow(t: Tables, c: Config, q: Request): Recorded {
    RecordIp(Pruned(t, c, q), c, q.ip, q.insertTime)
  }

  /** Pruning goes through, and the address can be recorded and can take an update. */
  ghost predicate HasPlace(t: Tables, c: Config, q: Request) {
    var row := AddressRow(t, c, q);
    !PruningStops(t, q) && row.Recorded? && UpdateFits(row.tables, c, AfOf(q.ip), row.id, q.pkt.updated)
  }

  /** A write of the row's name, signed by its owner; the key it carries verifies it too. */
  predicate OwnedWrite(verify: Verifier, row: NameRow, q: Request) {
    && q.pkt.name == row.name && |q.pkt.value| > 0 && !Unsigned(q.pkt)
    && SignedBy(verify, row.owner, q) && ValidSig(verify, q.pkt, q.e)
  }

  lemma OwnedIsWrite(t: Tables, c: Config, verify: Verifier, q: Request, n: nat)
    requires Inv(t, c) && n in t.names && OwnedWrite(verify, t.names[n], q)
    ensures Handle(t, c, verify, q) == WriteName(t, c, q)
  {
    assert FindName(t.names, q.pkt.name) == Some(n);
  }

  lemma BothIffNewer(start: Tables, c: Config, q: Request, n: nat)
    requires Inv(start, c) && q.pkt.vkc.Some? && n in start.names && start.names[n].name == q.pkt.name
    ensures var row := RecordIp(start, c, q.ip, q.insertTime);
            RecordBoth(start, c, q).reply.Some?
            <==> && row.Recorded? && UpdateFits(row.tables, c, AfOf(q.ip), row.id, q.pkt.updated)
                 && start.names[n].ts < q.pkt.updated
  {
    RecordIpKeepsInv(start, c, q.ip, q.insertTime);
    assert FindName(start.names, q.pkt.name) == Some(n);
  }

  /** While the row outlives the request's own pruning, it is answered exactly when it is newer. */
  lemma AnsweredIffNewer(t: Tables, c: Config, verify: Verifier, q: Request, n: nat)
    requires Inv(t, c) && n in Pruned(t, c, q).names && OwnedWrite(verify, t.names[n], q)
    ensures Handle(t, c, verify, q).reply.Some? <==> HasPlace(t, c, q) && t.names[n].ts < q.pkt.updated
  {
    OwnedIsWrite(t, c, verify, q, n);
    WriteKeepsInv(t, c, q);
    BothIffNewer(Pruned(t, c, q), c, q, n);
  }

  /** What an answered write found, and that it went through. */
  lemma WroteRecords(t: Tables, c: Config, verify: Verifier, q: Request)
    requires Inv(t, c) && Wrote(t, c, verify, q)
    ensures q.pkt.vkc.Some? && ValidSig(verify, q.pkt, q.e) && !PruningStops(t, q) && OwnerAgrees(t, verify, q)
    ensures var row := AddressRow(t, c, q);
            && row.Recorded? && Inv(row.tables, c) && RefersWell(row.tables, AfOf(q.ip), row.id)
            && row.tables.names == Pruned(t, c, q).names
            && var p := q.pkt;
            var w := RecordName(row.tables, c, AfOf(q.ip), row.id, p.name, p.value, p.vkc.value, p.updated);
            w.Some? && Handle(t, c, verify, q).tables == w.value
  {
    WriteKeepsInv(t, c, q);
    RecordIpKeepsInv(Pruned(t, c, q), c, q.ip, q.insertTime);
  }

  /** The time an answered write is stored under. */
  lemma WrittenTime(t: Tables, c: Config, verify: Verifier, q: Request)
    requires Inv(t, c) && Wrote(t, c, verify, q)
    ensures var row := AddressRow(t, c, q);
            && row.Recorded?
            && (Held(row.tables.names, AfOf(q.ip), row.id) != {} ==> NameLimit(c, AfOf(q.ip)) > 0)
            && WrittenRow(t, c, verify, q).ts
               == StoredFor(row.tables, c, AfOf(q.ip), row.id, q.pkt.name, q.pkt.updated)
  {
    WroteRecords(t, c, verify, q);
    var row, p := AddressRow(t, c, q), q.pkt;
    RecordedTime(row.tables, c, AfOf(q.ip), row.id, p.name, p.value, p.vkc.value, p.updated);
  }

  /**
   After an answered write and any run that is quiet for its row, a write of that name signed by its
   owner is answered exactly when its address has a place for it and its time is newer than the time
   stored, whichever older or newer packet it carries.
   */
  lemma WriteAnsweredIff(t: Tables, c: Config, verify: Verifier, q: Request, qs: seq<Request>, r: Request)
    requires Inv(t, c) && Wrote(t, c, verify, q)
    requires forall i :: 0 <= i < |qs| ==> Quiet(qs[i], c, verify, WrittenRow(t, c, verify, q))
    requires OwnedWrite(verify, WrittenRow(t, c, verify, q), r)
    requires r.pkt.behavior != BEHAVIOR_DONT_BUMP ==>
               r.pruneTime - WrittenRow(t, c, verify, q).ts < c.nameDuration
    ensures var u := Run(Handle(t, c, verify, q).tables, c, verify, qs);
            Handle(u, c, verify, r).reply.Some?
            <==> HasPlace(u, c, r) && WrittenRow(t, c, verify, q).ts < r.pkt.updated
  {
    var w := Handle(t, c, verify, q).tables;
    HandleKeepsInv(t, c, verify, q);
    WriteStores(t, c, verify, q);
    var n := FindName(w.names, q.pkt.name).value;
    QuietRunsKeepRow(w, c, verify, qs, n);
    RunKeepsInv(w, c, verify, qs);
    AnsweredIffNewer(Run(w, c, verify, qs), c, verify, r, n);
  }

  // ------------------------------------------------------------------
  // The same signed packet sent twice
  // ------------------------------------------------------------------

  /** `r` carries the packet of `q` from the same address; the message signed is the same throughout,
      as it always is for a packet id other than 0. */
  predicate Resent(q: Request, r: Request) {
    && r.pkt == q.pkt && r.ip == q.ip
    && MsgToSign(q.pkt, q.d) == MsgToSign(q.pkt, q.e) == MsgToSign(q.pkt, r.d) == MsgToSign(q.pkt, r.e)
  }

  /** The packet is signed by the owner of the row it left. */
  lemma ResentIsOwned(t: Tables, c: Config, verify: Verifier, q: Request, r: Request)
    requires Inv(t, c) && Wrote(t, c, verify, q) && Resent(q, r) && |q.pkt.value| > 0
    ensures OwnedWrite(verify, WrittenRow(t, c, verify, q), r)
  {
    WriteStores(t, c, verify, q);
    WroteRecords(t, c, verify, q);
    var row, p := AddressRow(t, c, q), q.pkt;
    RecordedTime(row.tables, c, AfOf(q.ip), row.id, p.name, p.value, p.vkc.value, p.updated);
    var m := FindName(row.tables.names, p.name);
    if m.Some? {
      assert m.value in t.names && t.names[m.value].name == p.name;
      assert FindName(t.names, p.name) == m;
    }
  }

  /** Sent again after a quiet run, a packet whose address has a place for it is answered exactly when it
      was an update and its IP row already held names: only then is the time stored older than its own. */
  lemma ReplayAnsweredIff(t: Tables, c: Config, verify: Verifier, q: Request, qs: seq<Request>, r: Request)
    requires Inv(t, c) && Wrote(t, c, verify, q) && |q.pkt.value| > 0 && Resent(q, r)
    requires forall i :: 0 <= i < |qs| ==> Quiet(qs[i], c, verify, WrittenRow(t, c, verify, q))
    requires r.pkt.behavior != BEHAVIOR_DONT_BUMP ==>
               r.pruneTime - WrittenRow(t, c, verify, q).ts < c.nameDuration
    ensures AddressRow(t, c, q).Recorded?
    ensures var first, u := AddressRow(t, c, q), Run(Handle(t, c, verify, q).tables, c, verify, qs);
            Handle(u, c, verify, r).reply.Some?
            <==> && HasPlace(u, c, r) && FindName(first.tables.names, q.pkt.name).Some?
                 && Held(first.tables.names, AfOf(q.ip), first.id) != {}
  {
    ResentIsOwned(t, c, verify, q, r);
    WriteAnsweredIff(t, c, verify, q, qs, r);
    WrittenTime(t, c, verify, q);
    var first := AddressRow(t, c, q);
    EarlierIff(first.tables, c, AfOf(q.ip), first.id, q.pkt.name, q.pkt.updated);
  }

  // ------------------------------------------------------------------
  // A request for a name that is not stored
  // ------------------------------------------------------------------

  /** Pruning goes through, and the address can be recorded and has room for one more name. */
  ghost predicate InsertFits(t: Tables, c: Config, q: Request) {
    var row := AddressRow(t, c, q);
    && !PruningStops(t, q) && row.Recorded?
    && |Held(row.tables.names, AfOf(q.ip), row.id)| < NameLimit(c, AfOf(q.ip))
  }

  /** A write with a valid signature, of the owner too while an expired row still stands. */
  ghost predicate NewWrite(t: Tables, c: Config, verify: Verifier, q: Request) {
    && FindName(Pruned(t, c, q).names, q.pkt.name).None? && MsgToSign(q.pkt, q.d).Some?
    && !Unsigned(q.pkt) && ValidSig(verify, q.pkt, q.e) && OwnerAgrees(t, verify, q)
    && (FindName(t.names, q.pkt.name).Some? ==> |q.pkt.value| > 0)
  }

  /** A write of a name without a row is answered exactly when there is room: its time is not asked. */
  lemma InsertAnsweredIff(t: Tables, c: Config, verify: Verifier, q: Request)
    requires Inv(t, c) && NewWrite(t, c, verify, q)
    ensures Handle(t, c, verify, q).reply.Some? <==> InsertFits(t, c, q)
  {
    assert Handle(t, c, verify, q) == WriteName(t, c, q);
    if !PruningStops(t, q) {
      WriteKeepsInv(t, c, q);
      RecordIpKeepsInv(Pruned(t, c, q), c, q.ip, q.insertTime);
    }
  }

  /** Nothing that could write the name. */
  predicate Elsewhere(q: Request, verify: Verifier, name: Buf) {
    q.pkt.name != name || Unsigned(q.pkt) || !ValidSig(verify, q.pkt, q.e)
  }

  lemma AbsentStep(t: Tables, c: Config, verify: Verifier, q: Request, name: Buf)
    requires Inv(t, c) && FindName(t.names, name).None? && Elsewhere(q, verify, name)
    ensures FindName(Handle(t, c, verify, q).tables.names, name).None?
  {
    var u := Handle(t, c, verify, q).tables;
    if q.pkt.name != name {
      HandleCases(t, c, verify, q);
      if q.pkt.vkc.Some? && u == WriteName(t, c, q).tables {
        OthersAbsent(t, c, q, name);
      }
    } else {
      assert u == t;
    }
  }

  lemma OthersAbsent(t: Tables, c: Config, q: Request, name: Buf)
    requires Inv(t, c) && q.pkt.vkc.Some? && FindName(t.names, name).None? && q.pkt.name != name
    ensures FindName(WriteName(t, c, q).tables.names, name).None?
  {
    if !PruningStops(t, q) {
      var start, p := Pruned(t, c, q), q.pkt;
      WriteKeepsInv(t, c, q);
      RecordIpKeepsInv(start, c, q.ip, q.insertTime);
      var row := RecordIp(start, c, q.ip, q.insertTime);
      if row.Recorded? {
        OtherRecorded(row.tables, c, AfOf(q.ip), row.id, p.name, p.value, p.vkc.value, p.updated, name);
      }
    }
  }

  lemma OtherRecorded(t: Tables, c: Config, af: Af, ip: nat, name: Buf, value: Buf, owner: Buf, updated: nat,
                      other: Buf)
    requires FindName(t.names, other).None? && name != other
    ensures var w := RecordName(t, c, af, ip, name, value, owner, updated);
            w.Some? ==> FindName(w.value.names, other).None?
  {
    var w := RecordName(t, c, af, ip, name, value, owner, updated);
    assert w.Some? ==> forall n :: n in w.value.names ==> w.value.names[n].name != other;
  }

  lemma {:induction false} AbsentStays(t: Tables, c: Config, verify: Verifier, qs: seq<Request>, name: Buf)
    requires Inv(t, c) && FindName(t.names, name).None?
    requires forall i :: 0 <= i < |qs| ==> Elsewhere(qs[i], verify, name)
    ensures Inv(Run(t, c, verify, qs), c) && FindName(Run(t, c, verify, qs).names, name).None?
  {
    RunKeepsInv(t, c, verify, qs);
    if |qs| == 0 {
    } else {
      var rest := qs[..|qs| - 1];
      AbsentStays(t, c, verify, rest, name);
      AbsentStep(Run(t, c, verify, rest), c, verify, qs[|qs| - 1], name);
    }
  }

  /** The same for a name that has no row at all. */
  lemma AbsentAnsweredIff(t: Tables, c: Config, verify: Verifier, q: Request)
    requires Inv(t, c) && FindName(t.names, q.pkt.name).None? && MsgToSign(q.pkt, q.d).Some?
    requires !Unsigned(q.pkt) && ValidSig(verify, q.pkt, q.e)
    ensures Handle(t, c, verify, q).reply.Some? <==> InsertFits(t, c, q)
  {
    assert FindName(Pruned(t, c, q).names, q.pkt.name).None?;
    InsertAnsweredIff(t, c, verify, q);
  }

  /** An answered delete. */
  ghost predicate Deleted(t: Tables, c: Config, verify: Verifier, q: Request) {
    && !Unsigned(q.pkt) && |q.pkt.value| == 0 && FindName(t.names, q.pkt.name).Some?
    && Handle(t, c, verify, q).reply.Some?
  }

  lemma DeletedIsAbsent(t: Tables, c: Config, verify: Verifier, q: Request)
    requires Inv(t, c) && Deleted(t, c, verify, q)
    ensures var w := Handle(t, c, verify, q).tables; Inv(w, c) && FindName(w.names, q.pkt.name).None?
  {
    var n := FindName(t.names, q.pkt.name).value;
    HandleKeepsInv(t, c, verify, q);
    assert Handle(t, c, verify, q).tables.names == DeleteNames(t.names, q.pkt.name, t.names[n].ts);
  }

  /** After an answered delete, and any run without a write of the name, any write of it with a valid
      signature is answered exactly when there is room, however old its packet. */
  lemma DeletedAnsweredIff(t: Tables, c: Config, verify: Verifier, q: Request, qs: seq<Request>, r: Request)
    requires Inv(t, c) && Deleted(t, c, verify, q)
    requires forall i :: 0 <= i < |qs| ==> Elsewhere(qs[i], verify, q.pkt.name)
    requires r.pkt.name == q.pkt.name && !Unsigned(r.pkt)
    requires ValidSig(verify, r.pkt, r.e) && MsgToSign(r.pkt, r.d).Some?
    ensures var u := Run(Handle(t, c, verify, q).tables, c, verify, qs);
            Handle(u, c, verify, r).reply.Some? <==> InsertFits(u, c, r)
  {
    DeletedIsAbsent(t, c, verify, q);
    var w := Handle(t, c, verify, q).tables;
    AbsentStays(w, c, verify, qs, q.pkt.name);
    AbsentAnsweredIff(Run(w, c, verify, qs), c, verify, r);
  }

  // ------------------------------------------------------------------
  // Inputs
  // ------------------------------------------------------------------

  const T0: nat := 1_000_000

  /** A signed packet for one name, with this value and time. */
  function Stamped(value: Buf, updated: nat): Request {
    Request(Packet(1, None, 0, updated, [65], value, Some(Zeros(33)), Some([1])), V4(7), 0, 0, 1, 1)
  }

  /** The tables with that name alone. */
  function Single(value: Buf, ts: nat): Tables {
    Tables(map[1 := V4Row(7, 0)], map[], map[1 := NameRow([65], value, Zeros(33), IP4, 1, ts)], 2, 1, 2)
  }

  lemma StampedIsSigned(value: Buf, updated: nat)
    requires updated < 0x1_0000_0000 && |value| < 500
    ensures var q := Stamped(value, updated);
            MsgToSign(q.pkt, 1).Some? && !Unsigned(q.pkt) && ValidSig(EVERYONE, q.pkt, 1)
  {
    FieldSizes();
  }

  lemma SingleInOrder(c: Config, value: Buf, ts: nat)
    ensures Inv(Single(value, ts), c) && FindName(Single(value, ts).names, [65]) == Some(1)
    ensures FindV4(Single(value, ts).v4, 7) == Some(1) && Held(Single(value, ts).names, IP4, 1) == {1}
  {
    var t := Single(value, ts);
    forall m, e, l ensures Lans(t.v6, m, e) == {} && LanRows(t.v6, m, e, l) == {} {}
    assert 1 in t.names && t.names[1].name == [65];
    assert 1 in t.v4 && t.v4[1].val == 7;
  }

  lemma FirstWrite(c: Config)
    requires c.v4NameLimit > 0
    ensures Run(EMPTY, c, EVERYONE, [Stamped([66], T0)]) == Single([66], T0)
  {
    StampedIsSigned([66], T0);
    assert [Stamped([66], T0)][..0] == [];
    assert Held(EMPTY.names, IP4, 1) == {};
    assert Handle(EMPTY, c, EVERYONE, Stamped([66], T0)) == WriteName(EMPTY, c, Stamped([66], T0));
  }

  /** An update of that name takes effect exactly when it is newer and late enough for its penalty. */
  lemma UpdateSingle(c: Config, value: Buf, ts: nat, value2: Buf, updated: nat)
    requires c.v4NameLimit > 0 && 0 < |value2| < 500 && MIN_NAME_DURATION <= updated < 0x1_0000_0000
    requires ts < updated
    ensures var s := Handle(Single(value, ts), c, EVERYONE, Stamped(value2, updated));
            && s.reply.Some? && StoredTime(updated, 1, c.v4NameLimit) >= 0
            && s.tables == Single(value2, StoredTime(updated, 1, c.v4NameLimit))
  {
    var t, q := Single(value, ts), Stamped(value2, updated);
    SingleInOrder(c, value, ts);
    StampedIsSigned(value2, updated);
    OwnedIsWrite(t, c, EVERYONE, q, 1);
    assert UpdateNames(t.names, [65], ts, value2, IP4, 1, StoredTime(updated, 1, c.v4NameLimit))
           == Single(value2, StoredTime(updated, 1, c.v4NameLimit)).names;
  }

  lemma FirstTwo(c: Config, b: Request)
    requires c.v4NameLimit > 0
    ensures Run(EMPTY, c, EVERYONE, [Stamped([66], T0), b]) == Handle(Single([66], T0), c, EVERYONE, b).tables
  {
    FirstWrite(c);
    var a := Stamped([66], T0);
    assert [a, b][..1] == [a];
  }

  /** A name is written, then updated with the next time; the very same update is then answered again. */
  lemma ReplayAccepted(c: Config)
    requires c.v4NameLimit > 0
    ensures var b := Stamped([67], T0 + 1);
            Handle(Run(EMPTY, c, EVERYONE, [Stamped([66], T0), b]), c, EVERYONE, b).reply.Some?
  {
    var b := Stamped([67], T0 + 1);
    FirstTwo(c, b);
    UpdateSingle(c, [66], T0, [67], T0 + 1);
    UpdateSingle(c, [67], StoredTime(T0 + 1, 1, c.v4NameLimit), [67], T0 + 1);
  }

  /** And so is the packet that first wrote the name: the old value is back. */
  lemma OldValueReturns(c: Config)
    requires c.v4NameLimit > 0
    ensures var a, b := Stamped([66], T0), Stamped([67], T0 + 1);
            var s := Handle(Run(EMPTY, c, EVERYONE, [a, b]), c, EVERYONE, a);
            && 1 in Run(EMPTY, c, EVERYONE, [a, b]).names && Run(EMPTY, c, EVERYONE, [a, b]).names[1].value == [67]
            && s.reply.Some? && 1 in s.tables.names && s.tables.names[1].value == [66]
  {
    var b := Stamped([67], T0 + 1);
    FirstTwo(c, b);
    UpdateSingle(c, [66], T0, [67], T0 + 1);
    UpdateSingle(c, [67], StoredTime(T0 + 1, 1, c.v4NameLimit), [66], T0);
  }

  /** A name is written and deleted; the packet that wrote it brings it back. */
  lemma DeletedNameReturns(c: Config)
    requires c.v4NameLimit > 0
    ensures var a, d := Stamped([66], T0), Stamped([], T0 + 1);
            var t := Run(EMPTY, c, EVERYONE, [a, d]);
            var s := Handle(t, c, EVERYONE, a);
            t.names == map[] && s.reply.Some? && FindName(s.tables.names, [65]).Some?
  {
    var a, d := Stamped([66], T0), Stamped([], T0 + 1);
    FirstTwo(c, d);
    SingleInOrder(c, [66], T0);
    StampedIsSigned([], T0 + 1);
    StampedIsSigned([66], T0);
    var t := Handle(Single([66], T0), c, EVERYONE, d).tables;
    assert t.names == map[];
    HandleKeepsInv(Single([66], T0), c, EVERYONE, d);
    assert FindV4(t.v4, 7) == Some(1) && Held(t.names, IP4, 1) == {};
    InsertAnsweredIff(t, c, EVERYONE, a);
    WriteStores(t, c, EVERYONE, a);
  }
}
