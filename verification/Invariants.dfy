/** What every table the service can reach looks like.

    Durable collects the facts that no write can undo, so they hold even when calls overlap and
    write on stale reads.  Orderly adds the facts that hold only when calls do not overlap. */
module Invariants {
  import opened Wrappers
  import opened Wills

  predicate Sealed(s: Status) {
    s == Locked || s == DeathNotified || s == UnlockedAtDeath
  }

  ghost predicate NoSelfWitness(w: Will) {
    forall k :: 0 <= k < |w.witnesses| ==> w.witnesses[k].signer.flt != w.origin.testator.flt
  }

  /** The signatures behind a will: a sealed will has the testator's and at least two witness rows,
      a signing time goes with a signed hash, witnesses only sign after the testator, and the testator
      never witnesses. */
  ghost predicate Signed(w: Will) {
    && (Sealed(w.status) ==> w.signedAt.Some? && |w.witnesses| >= 2)
    && (w.signedAt.Some? <==> w.signedHash.Some?)
    && (w.witnesses != [] ==> w.signedAt.Some?)
    && NoSelfWitness(w)
    && (w.status == DeathNotified ==> w.unlockAfter.Some?)
    && (w.status == Superseded ==> w.supersededBy.Some?)
    && (w.origin.isCodicil <==> w.origin.parent.Some?)
  }

  ghost predicate SameTestator(w: Will, v: Will) {
    w.origin.testator.flt == v.origin.testator.flt
  }

  /** A supersession link leads from a will to a later will of the same testator; codicils take no part. */
  ghost predicate LinkHolds(t: Table, w: Will) {
    w.supersededBy.Some? ==>
      var h := w.supersededBy.value;
      && h in t.rows && SameTestator(w, t.rows[h])
      && !w.origin.isCodicil && !t.rows[h].origin.isCodicil
      && w.origin.serial < t.rows[h].origin.serial
  }

  /** A codicil's parent is an earlier will of the same testator that has left draft. */
  ghost predicate ParentHolds(t: Table, w: Will) {
    w.origin.parent.Some? ==>
      var p := w.origin.parent.value;
      && p in t.rows && SameTestator(w, t.rows[p])
      && t.rows[p].status != Draft
      && t.rows[p].origin.serial < w.origin.serial
  }

  ghost predicate RowDurable(t: Table, id: WillId)
    requires id in t.rows
  {
    Signed(t.rows[id]) && LinkHolds(t, t.rows[id]) && ParentHolds(t, t.rows[id])
  }

  /** Serial numbers are places in insertion order. */
  ghost predicate Numbered(t: Table) {
    && (forall k :: 0 <= k < |t.order| ==> t.order[k] in t.rows && t.rows[t.order[k]].origin.serial == k)
    && (forall id :: id in t.rows ==> t.rows[id].origin.serial < |t.order| && t.order[t.rows[id].origin.serial] == id)
  }

  ghost predicate Durable(t: Table) {
    Numbered(t) && forall id :: id in t.rows ==> RowDurable(t, id)
  }

  /** How a row may change: its origin, and everything ever signed or linked, stays; it never returns to draft. */
  ghost predicate RowGrows(w: Will, w': Will) {
    && w'.origin == w.origin
    && (w.signedAt.Some? ==> w'.signedAt.Some?)
    && w.witnesses <= w'.witnesses
    && w.assets <= w'.assets && w.properties <= w'.properties
    && (w.supersededBy.Some? ==> w'.supersededBy.Some?)
    && (w.unlockAfter.Some? ==> w'.unlockAfter.Some?)
    && (w.status != Draft ==> w'.status != Draft)
  }

  ghost predicate Grows(t: Table, t': Table) {
    && t.order <= t'.order
    && forall id :: id in t.rows ==> id in t'.rows && RowGrows(t.rows[id], t'.rows[id])
  }

  lemma GrowsTransitive(t: Table, u: Table, v: Table)
    requires Grows(t, u) && Grows(u, v)
    ensures Grows(t, v)
  {
  }

  /** What a past read still says about the table: the row has only grown since, the witness rows
      counted are there, and the wills listed for supersession are the testator's own, codicils aside. */
  ghost predicate Remembers(t: Table, c: Call, r: Read) {
    && (r.row.Some? ==>
          && !c.CreateDraft? && c.id in t.rows
          && RowGrows(r.row.value, t.rows[c.id]) && Signed(r.row.value)
          && r.witnessRows <= |t.rows[c.id].witnesses|)
    && (r.active != [] ==> c.CreateDraft?)
    && forall k :: 0 <= k < |r.active| ==> Supersedable(t, c, r.active[k])
  }

  ghost predicate Supersedable(t: Table, c: Call, id: WillId) {
    id in t.rows && !t.rows[id].origin.isCodicil
        && (c.CreateDraft? ==> t.rows[id].origin.testator.flt == c.testator.flt)
  }

  lemma ReadRemembers(t: Table, c: Call)
    requires Durable(t)
    ensures Remembers(t, c, ReadOf(t, c))
  {
  }

  /** Once true of a table, what a read says stays true as the table grows. */
  lemma RemembersAsTableGrows(t: Table, t': Table, c: Call, r: Read)
    requires Remembers(t, c, r) && Grows(t, t')
    ensures Remembers(t', c, r)
  {
  }

  // Links drawn in a table hold in any table it grows into.
  lemma LinksSurvive(t: Table, t': Table, w: Will)
    requires Grows(t, t')
    ensures LinkHolds(t, w) ==> LinkHolds(t', w)
    ensures ParentHolds(t, w) ==> ParentHolds(t', w)
  {
  }

  lemma NumberedSurvives(t: Table, t': Table)
    requires Numbered(t) && Grows(t, t') && t'.order == t.order && t'.rows.Keys == t.rows.Keys
    ensures Numbered(t')
  {
  }

  // One row replaced by a grown row whose own links are unchanged.
  lemma ReplacedRowDurable(t: Table, id: WillId, w': Will)
    requires Durable(t) && id in t.rows
    requires RowGrows(t.rows[id], w') && Signed(w') && w'.supersededBy == t.rows[id].supersededBy
    ensures Durable(t.(rows := t.rows[id := w'])) && Grows(t, t.(rows := t.rows[id := w']))
  {
    var t' := t.(rows := t.rows[id := w']);
    assert Grows(t, t');
    NumberedSurvives(t, t');
    forall k | k in t'.rows ensures RowDurable(t', k) {
      assert RowDurable(t, k);
      KeptRowDurable(t, t', k);
    }
  }

  lemma KeptRowDurable(t: Table, t': Table, k: WillId)
    requires Grows(t, t') && k in t.rows && RowDurable(t, k) && Signed(t'.rows[k])
    requires t'.rows[k].supersededBy == t.rows[k].supersededBy
    ensures RowDurable(t', k)
  {
    LinksSurvive(t, t', t.rows[k]);
  }

  // A signature put on a row that was read unsealed.
  lemma SignedRow(c: Call, v: Will, w: Will)
    requires c.SignTestator? || c.SignWitness?
    requires CheckRow(c, v, 0) == Done && RowGrows(v, w) && Signed(w)
    ensures RowGrows(w, Updated(c, w)) && Signed(Updated(c, w))
  {
  }

  // A step of the lifecycle taken on a row that was read with enough signatures.
  lemma MovedRow(c: Call, v: Will, rows: nat, w: Will)
    requires c.Lock? || c.NotifyDeath? || c.CompleteUnlock?
    requires CheckRow(c, v, rows) == Done && RowGrows(v, w) && Signed(v) && Signed(w) && rows <= |w.witnesses|
    ensures RowGrows(w, Updated(c, w)) && Signed(Updated(c, w))
  {
  }

  lemma UpdatedRow(c: Call, r: Read, w: Will)
    requires !c.CreateDraft? && !c.CreateCodicil?
    requires Check(c, r) == Done && Signed(w)
    requires r.row.Some? ==> RowGrows(r.row.value, w) && Signed(r.row.value) && r.witnessRows <= |w.witnesses|
    ensures RowGrows(w, Updated(c, w)) && Signed(Updated(c, w))
  {
    if c.SignTestator? || c.SignWitness? {
      SignedRow(c, r.row.value, w);
    } else if c.Lock? || c.NotifyDeath? || c.CompleteUnlock? {
      MovedRow(c, r.row.value, r.witnessRows, w);
    }
  }

  lemma InsertedDurable(t: Table, newId: WillId, w: Will)
    requires Durable(t) && newId !in t.rows
    requires w.status == Draft && w.witnesses == [] && w.supersededBy.None? && Signed(w)
    requires w.origin.serial == |t.order| && ParentHolds(t, w)
    ensures Durable(Table(t.rows[newId := w], t.order + [newId]))
        && Grows(t, Table(t.rows[newId := w], t.order + [newId]))
  {
    var t' := Table(t.rows[newId := w], t.order + [newId]);
    assert Grows(t, t') && Numbered(t');
    forall id | id in t'.rows ensures RowDurable(t', id) {
      if id != newId {
        assert RowDurable(t, id);
      }
      LinksSurvive(t, t', t'.rows[id]);
    }
  }

  // id may be superseded by heir.
  ghost predicate Yields(t: Table, id: WillId, heir: WillId) {
    && id in t.rows && heir in t.rows && id != heir && SameTestator(t.rows[id], t.rows[heir])
    && !t.rows[id].origin.isCodicil && !t.rows[heir].origin.isCodicil
    && t.rows[id].origin.serial < t.rows[heir].origin.serial
  }

  lemma SupersededGrows(t: Table, ids: seq<WillId>, heir: WillId)
    ensures Grows(t, t.(rows := Supersede(t.rows, ids, heir)))
  {
  }

  lemma SupersededRowDurable(t: Table, ids: seq<WillId>, heir: WillId, id: WillId)
    requires id in t.rows && RowDurable(t, id) && (id in ids ==> Yields(t, id, heir))
    ensures RowDurable(t.(rows := Supersede(t.rows, ids, heir)), id)
  {
  }

  lemma SupersededDurable(t: Table, ids: seq<WillId>, heir: WillId)
    requires Durable(t) && forall id :: id in ids ==> Yields(t, id, heir)
    ensures Durable(t.(rows := Supersede(t.rows, ids, heir))) && Grows(t, t.(rows := Supersede(t.rows, ids, heir)))
  {
    var t' := t.(rows := Supersede(t.rows, ids, heir));
    SupersededGrows(t, ids, heir);
    NumberedSurvives(t, t');
    forall id | id in t'.rows ensures RowDurable(t', id) {
      assert RowDurable(t, id);
      SupersededRowDurable(t, ids, heir, id);
    }
  }

  lemma DraftDurable(t: Table, c: Call, r: Read)
    requires c.CreateDraft? && Durable(t) && Remembers(t, c, r) && c.newId !in t.rows
    ensures Durable(Write(t, c, r)) && Grows(t, Write(t, c, r))
  {
    var w := NewWill(c.testator, c.req, None, |t.order|);
    InsertedDurable(t, c.newId, w);
    var u := Table(t.rows[c.newId := w], t.order + [c.newId]);
    ListedYield(t, c, r);
    SupersededDurable(u, r.active, c.newId);
    GrowsTransitive(t, u, Write(t, c, r));
  }

  // The wills on a draft's list may be superseded by it.
  lemma ListedYield(t: Table, c: Call, r: Read)
    requires c.CreateDraft? && Numbered(t) && Remembers(t, c, r) && c.newId !in t.rows
    ensures var u := Table(t.rows[c.newId := NewWill(c.testator, c.req, None, |t.order|)], t.order + [c.newId]);
            forall id :: id in r.active ==> Yields(u, id, c.newId)
  {
    var u := Table(t.rows[c.newId := NewWill(c.testator, c.req, None, |t.order|)], t.order + [c.newId]);
    forall id | id in r.active ensures Yields(u, id, c.newId) {
      var k :| 0 <= k < |r.active| && r.active[k] == id;
      assert Supersedable(t, c, r.active[k]);
    }
  }

  lemma CodicilDurable(t: Table, c: Call, r: Read)
    requires c.CreateCodicil? && Durable(t) && Remembers(t, c, r) && c.newId !in t.rows
    requires Check(c, r) == Done
    ensures Durable(Write(t, c, r)) && Grows(t, Write(t, c, r))
  {
    InsertedDurable(t, c.newId, NewWill(c.testator, c.req, Some(c.id), |t.order|));
  }

  lemma UpdateDurable(t: Table, c: Call, r: Read)
    requires !c.CreateDraft? && !c.CreateCodicil? && Durable(t) && Remembers(t, c, r) && Check(c, r) == Done
        && c.id in t.rows
    ensures Durable(Write(t, c, r)) && Grows(t, Write(t, c, r))
  {
    assert RowDurable(t, c.id);
    UpdatedRow(c, r, t.rows[c.id]);
    ReplacedRowDurable(t, c.id, Updated(c, t.rows[c.id]));
  }

  lemma GrowsReflexive(t: Table)
    ensures Grows(t, t)
  {
  }

  /** Any call that passed its check on a read the table still bears out writes a durable table,
      however stale that read is. */
  lemma WriteDurable(t: Table, c: Call, r: Read)
    requires Durable(t) && Remembers(t, c, r)
    requires Check(c, r) == Done && !KeyClash(t, c)
    ensures Durable(Write(t, c, r)) && Grows(t, Write(t, c, r))
  {
    if c.CreateDraft? {
      DraftDurable(t, c, r);
    } else if c.CreateCodicil? {
      CodicilDurable(t, c, r);
    } else if c.id in t.rows {
      UpdateDurable(t, c, r);
    } else {
      GrowsReflexive(t);
    }
  }

  lemma ApplyDurable(t: Table, c: Call)
    requires Durable(t)
    ensures Durable(Apply(t, c).table) && Grows(t, Apply(t, c).table)
  {
    var r := ReadOf(t, c);
    ReadRemembers(t, c);
    GrowsReflexive(t);
    if Check(c, r) == Done && !KeyClash(t, c) {
      WriteDurable(t, c, r);
      assert Apply(t, c).table == Write(t, c, r);
    } else {
      assert Apply(t, c).table == t;
    }
  }
}
