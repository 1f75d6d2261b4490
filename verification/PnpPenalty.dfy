/**
 The penalty of an update in whole seconds: what it takes off the time stored, and so how
 long the update outlives the prunes that follow.
 */
module PnpPenalty {
  import opened Bytes
  import opened Families
  import opened Options
  import opened PnpStore

  // ------------------------------------------------------------------
  // From quotients to products
  // ------------------------------------------------------------------

  lemma ScaleLe(a: real, b: real, m: real)
    requires m > 0.0
    ensures a <= b <==> a * m <= b * m
  {
    assert a < b ==> (b - a) * m > 0.0;
    assert a > b ==> (a - b) * m > 0.0;
  }

  /** used / limit * 604800 against a whole number. */
  lemma ShareLe(used: nat, limit: nat, x: int)
    requires limit > 0
    ensures used as real / limit as real * 604800.0 <= x as real <==> used * 604800 <= x * limit
    ensures used as real / limit as real * 604800.0 < x as real <==> used * 604800 < x * limit
  {
    var r, m := used as real / limit as real, limit as real;
    assert r * m == used as real;
    assert r * 604800.0 * m == (used * 604800) as real;
    assert x as real * m == (x * limit) as real;
    ScaleLe(r * 604800.0, x as real, m);
    ScaleLe(x as real, r * 604800.0, m);
  }

  /** A time k is not later than the time stored. */
  lemma StoredFrom(updated: nat, used: nat, limit: nat, k: int)
    requires used > 0 && limit > 0 && k >= 1
    ensures k <= StoredTime(updated, used, limit)
            <==> k + 604740 <= updated || used * 604800 <= (updated - k - 1) * limit
  {
    ShareLe(used, limit, updated - k - 1);
    var x := updated as real - Penalty(used, limit);
    assert k <= Truncate(x) <==> k as real <= x;
  }

  lemma TimesOneMore(x: int, limit: nat)
    ensures x * limit == (x - 1) * limit + limit
  {
  }

  lemma EarlierByShare(updated: nat, used: nat, used': nat, limit: nat)
    requires 0 < used < used' && limit > 0
    requires StoredTime(updated, used, limit) >= 0 && StoredTime(updated, used', limit) >= 0
    ensures var ts, ts' := StoredTime(updated, used, limit), StoredTime(updated, used', limit);
            && ts' <= ts
            && ((used' - used) * 604800 >= limit && ts > updated - 604740 && ts > 0 ==> ts' < ts)
  {
    var ts, ts' := StoredTime(updated, used, limit), StoredTime(updated, used', limit);
    if ts' > 0 {
      StoredFrom(updated, used, limit, ts');
      StoredFrom(updated, used', limit, ts');
    }
    if ts > 0 {
      StoredFrom(updated, used, limit, ts + 1);
      StoredFrom(updated, used', limit, ts);
      TimesOneMore(updated - ts - 1, limit);
    }
  }

  /** The time stored is not negative. */
  lemma StoredFits(updated: nat, used: nat, limit: nat)
    requires used > 0 && limit > 0
    ensures StoredTime(updated, used, limit) >= 0 <==> updated >= 604740 || used * 604800 < updated * limit
  {
    ShareLe(used, limit, updated);
    var x := updated as real - Penalty(used, limit);
    assert Truncate(x) >= 0 <==> x > -1.0;
  }

  // ------------------------------------------------------------------
  // What an update stores
  // ------------------------------------------------------------------

  /** An update that went through, and the row it left. */
  ghost predicate Updated(t: Tables, c: Config, af: Af, ip: nat, name: Buf, value: Buf, owner: Buf, updated: nat,
                          row: NameRow) {
    && Inv(t, c) && RefersWell(t, af, ip) && FindName(t.names, name).Some?
    && var u := RecordName(t, c, af, ip, name, value, owner, updated);
    u.Some? && var n := FindName(u.value.names, name); n.Some? && row == u.value.names[n.value]
  }

  lemma UpdatedTime(t: Tables, c: Config, af: Af, ip: nat, name: Buf, value: Buf, owner: Buf, updated: nat,
                    row: NameRow)
    requires Updated(t, c, af, ip, name, value, owner, updated, row)
    ensures |Held(t.names, af, ip)| > 0 ==> NameLimit(c, af) > 0
    ensures row.ts == StoredTime(updated, |Held(t.names, af, ip)|, NameLimit(c, af))
  {
    RecordNameKeepsInv(t, c, af, ip, name, value, owner, updated);
    var u := RecordName(t, c, af, ip, name, value, owner, updated).value;
    var n := FindName(t.names, name).value;
    assert u.names[n].name == name;
    assert FindName(u.names, name) == Some(n);
  }

  /** The time stored, in whole seconds: an IP row without names takes nothing off; otherwise a time is
      reached as long as the cap, or the row's share of the limit with one second more, leaves it. */
  lemma StoredInSeconds(t: Tables, c: Config, af: Af, ip: nat, name: Buf, value: Buf, owner: Buf, updated: nat,
                        row: NameRow, k: int)
    requires Updated(t, c, af, ip, name, value, owner, updated, row) && k >= 1
    ensures var used, limit := |Held(t.names, af, ip)|, NameLimit(c, af);
            && (used == 0 ==> row.ts == updated)
            && (used > 0 ==> (k <= row.ts <==> k + 604740 <= updated || used * 604800 <= (updated - k - 1) * limit))
  {
    UpdatedTime(t, c, af, ip, name, value, owner, updated, row);
    if |Held(t.names, af, ip)| > 0 {
      StoredFrom(updated, |Held(t.names, af, ip)|, NameLimit(c, af), k);
    }
  }

  /** How long an update lives: it outlives a prune at `now`, for names that last d seconds, exactly while it
      is younger than d less the penalty, in whole seconds; or while the clock has not reached d. */
  lemma UpdateOutlivesIff(t: Tables, c: Config, af: Af, ip: nat, name: Buf, value: Buf, owner: Buf, updated: nat,
                          row: NameRow, now: int, d: int)
    requires Updated(t, c, af, ip, name, value, owner, updated, row)
    ensures var used, limit := |Held(t.names, af, ip)|, NameLimit(c, af);
            now - row.ts < d
            <==> || now < d
                 || (used == 0 && now - updated < d)
                 || (used > 0 && (now - updated < d - 604740
                                  || used * 604800 <= (d - 2 - (now - updated)) * limit))
  {
    if now >= d {
      StoredInSeconds(t, c, af, ip, name, value, owner, updated, row, now - d + 1);
    }
  }

  /** The same update against two tables: on a row with more names it is stored no later, and earlier below
      the cap as soon as the further names' share comes to a second. */
  lemma MoreNamesEarlier(t: Tables, t': Tables, c: Config, af: Af, ip: nat, ip': nat, name: Buf, value: Buf, owner: Buf,
                         updated: nat, row: NameRow, row': NameRow)
    requires Updated(t, c, af, ip, name, value, owner, updated, row)
    requires Updated(t', c, af, ip', name, value, owner, updated, row')
    requires |Held(t.names, af, ip)| < |Held(t'.names, af, ip')|
    ensures row'.ts <= row.ts
    ensures var more := |Held(t'.names, af, ip')| - |Held(t.names, af, ip)|;
            more * 604800 >= NameLimit(c, af) && row.ts > updated - 604740 && row.ts > 0 ==> row'.ts < row.ts
  {
    var used, used', limit := |Held(t.names, af, ip)|, |Held(t'.names, af, ip')|, NameLimit(c, af);
    UpdatedTime(t, c, af, ip, name, value, owner, updated, row);
    UpdatedTime(t', c, af, ip', name, value, owner, updated, row');
    if used > 0 {
      EarlierByShare(updated, used, used', limit);
    }
  }

  /** When an update's stored time can be stored at all. */
  lemma UpdateRefusedIff(t: Tables, c: Config, af: Af, ip: nat, name: Buf, value: Buf, owner: Buf, updated: nat)
    requires Inv(t, c) && FindName(t.names, name).Some?
    ensures var used, limit := |Held(t.names, af, ip)|, NameLimit(c, af);
            RecordName(t, c, af, ip, name, value, owner, updated).None?
            <==> || t.names[FindName(t.names, name).value].ts >= updated
                 || (used > 0 && (limit == 0 || (updated < 604740 && used * 604800 >= updated * limit)))
  {
    var used, limit := |Held(t.names, af, ip)|, NameLimit(c, af);
    if used > 0 && limit > 0 {
      StoredFits(updated, used, limit);
    }
  }
}
