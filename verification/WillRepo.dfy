/** The will repository: the tables behind one connection pool and the statements sent to them.
    The digital-asset and property tables belong to a repository of their own in the program; here
    they are columns of the will's row. */
module WillRepos {
  import opened Wrappers
  import opened Clock
  import opened Wills
  import opened Permutations

  /** A table with one row replaced; like UPDATE ... WHERE id = $1, it does nothing without that row. */
  function WithRow(t: Table, id: WillId, w: Will): Table {
    if id in t.rows then t.(rows := t.rows[id := w]) else t
  }

  function StoredOption(t: Option<Time>): Option<Time> {
    if t.Some? then Some(Stored(t.value)) else None
  }

  /** How many statements CreateDraft's transaction sends, the commit included. */
  function Statements(w: Will, supersede: seq<WillId>): nat {
    2 + |w.origin.clauses| + |w.origin.beneficiaries| + |w.origin.executors| + |supersede|
  }

  predicate AllSucceed(fails: nat -> bool, n: nat) {
    forall k :: 0 <= k < n ==> !fails(k)
  }

  class WillRepo {
    var wills: Table

    constructor ()
      ensures wills == EMPTY
    {
      wills := EMPTY;
    }

    method GetByID(id: WillId) returns (row: Option<Will>)
      ensures row == RowOf(wills, id)
    {
      row := if id in wills.rows then Some(wills.rows[id]) else None;
    }

    /** The query names no order: scan is the one in which the database happens to visit the rows. */
    method FindActiveByTestatorFLT(flt: Flt, scan: seq<WillId>) returns (ids: seq<WillId>)
      requires multiset(scan) == multiset(wills.order)
      ensures ids == ActiveAmong(wills.rows, scan, flt)
      ensures forall id :: id in ids <==> id in FindActive(wills, flt)
    {
      ids := [];
      var rows := wills.rows;
      for k := 0 to |scan|
        invariant ids == ActiveAmong(rows, scan[..k], flt)
      {
        assert scan[..k + 1][..k] == scan[..k];
        if scan[k] in rows && IsActive(rows[scan[k]], flt) {
          ids := ids + [scan[k]];
        }
      }
      assert scan[..|scan|] == scan;
      SameMembers(scan, wills.order);
    }

    /** One transaction: the will row, its child rows one by one, then the supersessions.  If any
        statement fails nothing at all has changed. */
    method CreateDraft(id: WillId, w: Will, supersede: seq<WillId>, fails: nat -> bool) returns (ok: bool)
      modifies this
      ensures ok <==> id !in old(wills).rows && AllSucceed(fails, Statements(w, supersede))
      ensures !ok ==> wills == old(wills)
      ensures ok ==> wills == Table(
                Supersede(old(wills).rows[id := w.(origin := w.origin.(serial := |old(wills).order|))], supersede, id),
                old(wills).order + [id])
    {
      var before := wills;
      if fails(0) || id in before.rows {
        return false;
      }
      var n := 1;
      var o := w.origin.(clauses := [], beneficiaries := [], executors := [], serial := |before.order|);
      for k := 0 to |w.origin.clauses|
        invariant n == 1 + k && AllSucceed(fails, n)
        invariant o == w.origin.(clauses := w.origin.clauses[..k], beneficiaries := [], executors := [],
            serial := |before.order|)
      {
        if fails(n) {
          return false;
        }
        o := o.(clauses := o.clauses + [w.origin.clauses[k]]);
        n := n + 1;
      }
      for k := 0 to |w.origin.beneficiaries|
        invariant n == 1 + |w.origin.clauses| + k && AllSucceed(fails, n)
        invariant o == w.origin.(beneficiaries := w.origin.beneficiaries[..k], executors := [],
            serial := |before.order|)
      {
        if fails(n) {
          return false;
        }
        o := o.(beneficiaries := o.beneficiaries + [w.origin.beneficiaries[k]]);
        n := n + 1;
      }
      for k := 0 to |w.origin.executors|
        invariant n == 1 + |w.origin.clauses| + |w.origin.beneficiaries| + k && AllSucceed(fails, n)
        invariant o == w.origin.(executors := w.origin.executors[..k], serial := |before.order|)
      {
        if fails(n) {
          return false;
        }
        o := o.(executors := o.executors + [w.origin.executors[k]]);
        n := n + 1;
      }
      assert o == w.origin.(serial := |before.order|);
      var inserted := before.rows[id := w.(origin := o)];
      var rows := inserted;
      for k := 0 to |supersede|
        invariant n == Statements(w, supersede) - 1 - |supersede| + k && AllSucceed(fails, n)
        invariant rows == Supersede(inserted, supersede[..k], id)
      {
        if fails(n) {
          return false;
        }
        rows := SupersedeOne(rows, inserted, supersede[..k], supersede[k], id);
        assert supersede[..k + 1] == supersede[..k] + [supersede[k]];
        n := n + 1;
      }
      assert supersede[..|supersede|] == supersede;
      if fails(n) {
        return false;
      }
      wills := Table(rows, before.order + [id]);
      return true;
    }

    // UPDATE will SET status = 'superseded', superseded_by = $3 WHERE id = $1
    static function SupersedeOne(rows: map<WillId, Will>, ghost base: map<WillId, Will>, ghost done: seq<WillId>,
        sid: WillId, heir: WillId): (r: map<WillId, Will>)
      requires rows == Supersede(base, done, heir)
      ensures r == Supersede(base, done + [sid], heir)
    {
      if sid in rows then rows[sid := SupersededWill(rows[sid], heir)] else rows
    }

    method UpdateStatus(id: WillId, status: Status, lockedAt: Option<Time>, unlockedAt: Option<Time>, dbOk: bool)
        returns (ok: bool)
      modifies this
      ensures ok == dbOk
      ensures wills == var t := old(wills);
                       if dbOk && id in t.rows
                       then WithRow(t, id, t.rows[id].(status := status, lockedAt := StoredOption(lockedAt),
                                                       unlockedAt := StoredOption(unlockedAt)))
                       else t
    {
      ok := dbOk;
      if dbOk && id in wills.rows {
        wills := WithRow(wills, id, wills.rows[id].(status := status, lockedAt := StoredOption(lockedAt),
                                                    unlockedAt := StoredOption(unlockedAt)));
      }
    }

    method NotifyDeath(id: WillId, notifiedAt: Time, unlockAfter: Time, dbOk: bool) returns (ok: bool)
      modifies this
      ensures ok == dbOk
      ensures wills == var t := old(wills);
                       if dbOk && id in t.rows
                       then WithRow(t, id, t.rows[id].(status := DeathNotified,
                                                       deathNotifiedAt := Some(Stored(notifiedAt)),
                                                       unlockAfter := Some(Stored(unlockAfter))))
                       else t
    {
      ok := dbOk;
      if dbOk && id in wills.rows {
        wills := WithRow(wills, id, wills.rows[id].(status := DeathNotified,
                                                    deathNotifiedAt := Some(Stored(notifiedAt)),
                                                    unlockAfter := Some(Stored(unlockAfter))));
      }
    }

    method RecordTestatorSignature(id: WillId, payloadHash: string, signedAt: Time, dbOk: bool) returns (ok: bool)
      modifies this
      ensures ok == dbOk
      ensures wills == var t := old(wills);
                       if dbOk && id in t.rows
                       then WithRow(t, id, t.rows[id].(signedAt := Some(Stored(signedAt)),
                                                       signedHash := Some(payloadHash)))
                       else t
    {
      ok := dbOk;
      if dbOk && id in wills.rows {
        wills := WithRow(wills, id,
            wills.rows[id].(signedAt := Some(Stored(signedAt)), signedHash := Some(payloadHash)));
      }
    }

    /** The row's key holds the will and the timestamp to the nanosecond, so a second signature of the
        same instant is refused. */
    method RecordWitnessSignature(id: WillId, payloadHash: string, signedAt: Time, signer: Identity, dbOk: bool)
        returns (ok: bool)
      requires id in wills.rows
      modifies this
      ensures ok <==> dbOk && forall k :: 0 <= k < |old(wills).rows[id].witnesses| ==>
          old(wills).rows[id].witnesses[k].rowKey != signedAt
      ensures wills == var t := old(wills);
                       var signature := WitnessSignature(signer, Stored(signedAt), payloadHash, signedAt);
                       if ok then WithRow(t, id, t.rows[id].(witnesses := t.rows[id].witnesses + [signature])) else t
    {
      var w := wills.rows[id];
      ok := dbOk && forall k :: 0 <= k < |w.witnesses| ==> w.witnesses[k].rowKey != signedAt;
      if ok {
        var signature := WitnessSignature(signer, Stored(signedAt), payloadHash, signedAt);
        wills := WithRow(wills, id, w.(witnesses := w.witnesses + [signature]));
      }
    }

    method RecordLivenessConfirmation(id: WillId, at: Time, dbOk: bool) returns (ok: bool)
      modifies this
      ensures ok == dbOk
      ensures wills == var t := old(wills);
                       if dbOk && id in t.rows
                       then WithRow(t, id, t.rows[id].(lastConfirmedAt := Some(Stored(at))))
                       else t
    {
      ok := dbOk;
      if dbOk && id in wills.rows {
        wills := WithRow(wills, id, wills.rows[id].(lastConfirmedAt := Some(Stored(at))));
      }
    }

    method RecordLivenessReminder(id: WillId, at: Time, dbOk: bool) returns (ok: bool)
      modifies this
      ensures ok == dbOk
      ensures wills == var t := old(wills);
                       if dbOk && id in t.rows
                       then WithRow(t, id, t.rows[id].(livenessNotifiedAt := Some(Stored(at))))
                       else t
    {
      ok := dbOk;
      if dbOk && id in wills.rows {
        wills := WithRow(wills, id, wills.rows[id].(livenessNotifiedAt := Some(Stored(at))));
      }
    }

    method InsertDigitalAsset(id: WillId, asset: DigitalAsset, dbOk: bool) returns (ok: bool)
      modifies this
      ensures ok == dbOk
      ensures wills == var t := old(wills);
                       if dbOk && id in t.rows
                       then WithRow(t, id, t.rows[id].(assets := t.rows[id].assets + [asset]))
                       else t
    {
      ok := dbOk;
      if dbOk && id in wills.rows {
        wills := WithRow(wills, id, wills.rows[id].(assets := wills.rows[id].assets + [asset]));
      }
    }

    method InsertPropertyClause(id: WillId, property: Property, dbOk: bool) returns (ok: bool)
      modifies this
      ensures ok == dbOk
      ensures wills == var t := old(wills);
                       if dbOk && id in t.rows
                       then WithRow(t, id, t.rows[id].(properties := t.rows[id].properties + [property]))
                       else t
    {
      ok := dbOk;
      if dbOk && id in wills.rows {
        wills := WithRow(wills, id, wills.rows[id].(properties := wills.rows[id].properties + [property]));
      }
    }
  }
}
