/** What each call of the will service promises its caller: exactly when it succeeds, which error it gives
    otherwise, what every column holds afterwards, and which events it records. */
module Outcomes {
  import opened Wrappers
  import opened Clock
  import opened Wills
  import opened Invariants
  import opened Lifecycle

  // ---- When a call succeeds, and which error it gives ----

  /** The call looks up the will it names. */
  predicate Names(c: Call) {
    !c.CreateDraft? && !c.RecordReminder?
  }

  /** The stages of a will in which the call is allowed. */
  predicate RightStage(c: Call, s: Status)
    requires Names(c)
  {
    if c.CreateCodicil? || c.NotifyDeath? then s == Locked
    else if c.CompleteUnlock? then s == DeathNotified
    else if c.ConfirmLiveness? then s == Draft || s == Locked || s == DeathNotified
    else s == Draft
  }

  /** A witness must not be the testator; every other caller must be. */
  predicate RightCaller(c: Call, w: Will) {
    ActorOf(c).Some? ==> (ActorOf(c).value == w.origin.testator.flt <==> !c.SignWitness?)
  }

  /** What else must have happened: signatures in their order, and the time lock run out. */
  predicate Ready(c: Call, w: Will)
    requires Names(c)
  {
    && (c.SignWitness? || c.Lock? ==> w.signedAt.Some?)
    && (c.Lock? ==> |w.witnesses| >= 2)
    && (c.CompleteUnlock? && w.unlockAfter.Some? ==> w.unlockAfter.value <= c.now)
  }

  /** A creation comes with a vault under the one algorithm accepted. */
  predicate VaultGiven(c: Call) {
    c.CreateDraft? || c.CreateCodicil? ==>
      c.req.vault.ciphertext != "" && c.req.vault.nonce != "" && c.req.vault.alg == "AES-GCM-256"
  }

  /** The identifier of a new will is new, and so is the nanosecond of a witness row. */
  predicate KeyFree(t: Table, c: Call) {
    && (c.CreateDraft? || c.CreateCodicil? ==> c.newId !in t.rows)
    && (c.SignWitness? && c.id in t.rows ==> forall s :: s in t.rows[c.id].witnesses ==> s.rowKey != c.now)
  }

  lemma KeyFreeExact(t: Table, c: Call)
    ensures KeyFree(t, c) <==> !KeyClash(t, c)
  {
    if c.SignWitness? && c.id in t.rows {
      var ws := t.rows[c.id].witnesses;
      assert forall k :: 0 <= k < |ws| ==> ws[k] in ws;
    }
  }

  /** A call succeeds if and only if its will exists, is in the right stage, is called for by the right
      identity, is ready, the vault is complete, and the keys are free. */
  lemma SucceedsExactly(t: Table, c: Call)
    ensures Apply(t, c).outcome == Done <==>
            && VaultGiven(c) && KeyFree(t, c)
            && (Names(c) ==>
                  && c.id in t.rows && RightStage(c, t.rows[c.id].status)
                  && RightCaller(c, t.rows[c.id]) && Ready(c, t.rows[c.id]))
  {
    KeyFreeExact(t, c);
  }

  // The verdict on a row, every witness row having been read.
  lemma CheckExact(c: Call, w: Will)
    requires Names(c)
    ensures var outcome := CheckRow(c, w, |w.witnesses|);
            var stage, caller := RightStage(c, w.status), RightCaller(c, w);
            && (outcome == Forbidden <==> !caller && (stage || c.ConfirmLiveness?))
            && (outcome == InvalidState <==>
                  if c.ConfirmLiveness? then caller && !stage else !stage || (caller && !Ready(c, w)))
            && (outcome == InvalidVault <==> stage && caller && !VaultGiven(c))
            && (outcome == Done <==> stage && caller && Ready(c, w) && VaultGiven(c))
  {
  }

  /** The errors in their order.  A missing will comes first; then, but for a confirmation, the stage before
      the identity; then what is not ready; then the vault; and last the keys.  A refused call leaves no
      trace. */
  lemma RefusesExactly(t: Table, c: Call)
    ensures Apply(t, c).outcome == NotFound <==> Names(c) && c.id !in t.rows
    ensures Names(c) && c.id in t.rows ==>
              var w, outcome := t.rows[c.id], Apply(t, c).outcome;
              var stage, caller := RightStage(c, w.status), RightCaller(c, w);
              && (outcome == Forbidden <==> !caller && (stage || c.ConfirmLiveness?))
              && (outcome == InvalidState <==>
                    if c.ConfirmLiveness? then caller && !stage else !stage || (caller && !Ready(c, w)))
              && (outcome == InvalidVault <==> stage && caller && !VaultGiven(c))
              && (outcome == DbError <==> stage && caller && Ready(c, w) && VaultGiven(c) && !KeyFree(t, c))
    ensures c.CreateDraft? ==> (Apply(t, c).outcome == InvalidVault <==> !VaultGiven(c))
    ensures c.RecordReminder? ==> Apply(t, c).outcome == Done
    ensures Apply(t, c).outcome != Done ==> Apply(t, c).table == t && Apply(t, c).events == []
  {
    KeyFreeExact(t, c);
    if Names(c) && c.id in t.rows {
      CheckExact(c, t.rows[c.id]);
      OutcomeOf(t, c);
    }
  }

  lemma OutcomeOf(t: Table, c: Call)
    requires Names(c) && c.id in t.rows
    ensures var verdict := CheckRow(c, t.rows[c.id], |t.rows[c.id].witnesses|);
            Apply(t, c).outcome == if verdict == Done && KeyClash(t, c) then DbError else verdict
    ensures CheckRow(c, t.rows[c.id], |t.rows[c.id].witnesses|) != DbError
  {
  }

  // ---- What the columns hold afterwards ----

  /** A successful call on an existing will, column by column: who writes it, and what.  All other columns,
      and all other wills, are as they were. */
  lemma ColumnsAfter(t: Table, c: Call)
    requires Apply(t, c).outcome == Done && !c.CreateDraft? && !c.CreateCodicil? && c.id in t.rows
    ensures var t', w := Apply(t, c).table, t.rows[c.id];
            && t'.order == t.order && t'.rows.Keys == t.rows.Keys
            && (forall id :: id in t.rows && id != c.id ==> t'.rows[id] == t.rows[id])
            && ColumnsOf(c, w, t'.rows[c.id])
  {
  }

  predicate ColumnsOf(c: Call, w: Will, w': Will) {
    SignatureColumns(c, w, w') && StageColumns(c, w, w') && LivenessColumns(c, w, w')
  }

  predicate SignatureColumns(c: Call, w: Will, w': Will) {
    && w'.origin == w.origin && w'.supersededBy == w.supersededBy
    && w'.signedAt == (if c.SignTestator? then Some(Stored(c.now)) else w.signedAt)
    && w'.signedHash == (if c.SignTestator? then Some(c.payloadHash) else w.signedHash)
    && Extends(w.witnesses, w'.witnesses, c.SignWitness?)
    && (c.SignWitness? ==>
          var s := w'.witnesses[|w.witnesses|];
          s.signer == c.signer && s.payloadHash == c.payloadHash && s.rowKey == c.now && s.signedAt == Stored(c.now))
    && Extends(w.assets, w'.assets, c.AddDigitalAsset?)
    && (c.AddDigitalAsset? ==> w'.assets[|w.assets|] == c.asset)
    && Extends(w.properties, w'.properties, c.AddProperty?)
    && (c.AddProperty? ==> w'.properties[|w.properties|] == c.property)
  }

  predicate Extends<T(==)>(s: seq<T>, s': seq<T>, grows: bool) {
    s <= s' && |s'| == |s| + if grows then 1 else 0
  }

  predicate StageColumns(c: Call, w: Will, w': Will) {
    var unlocks := c.CompleteUnlock? || (c.NotifyDeath? && c.delayDays == 0);
    var reports := c.NotifyDeath? && c.delayDays != 0;
    && w'.status == (if c.Lock? then Locked else if unlocks then UnlockedAtDeath
                     else if reports then DeathNotified else w.status)
    && w'.lockedAt == (if c.Lock? then Some(Stored(c.now)) else if unlocks then None else w.lockedAt)
    && w'.unlockedAt == (if unlocks then Some(Stored(c.now)) else if c.Lock? then None else w.unlockedAt)
    && w'.deathNotifiedAt == (if reports then Some(Stored(c.now)) else w.deathNotifiedAt)
    && w'.unlockAfter == (if reports then Some(Stored(c.now + c.delayDays * 24 * HOUR)) else w.unlockAfter)
  }

  predicate LivenessColumns(c: Call, w: Will, w': Will) {
    && w'.lastConfirmedAt == (if c.ConfirmLiveness? then Some(Stored(c.now)) else w.lastConfirmedAt)
    && w'.livenessNotifiedAt == (if c.RecordReminder? then Some(Stored(c.now)) else w.livenessNotifiedAt)
  }

  // ---- What a creation stores ----

  /** Everything the request says is in the row, and the row says nothing else. */
  predicate Holds(o: Origin, testator: Identity, req: CreateRequest, parent: Option<WillId>) {
    && o.testator == testator && o.clauses == req.clauses && o.beneficiaries == req.beneficiaries
    && o.executors == req.executors && o.vault == req.vault && o.delayDays == req.delayDays
    && o.parent == parent && (o.isCodicil <==> parent.Some?)
    && o.note == (if parent.Some? then "codicil to " + parent.value else "created draft")
  }

  /** A draft nobody has signed, confirmed, locked, reported or replaced. */
  predicate Untouched(w: Will) {
    && w.status == Draft && w.signedAt.None? && w.signedHash.None?
    && w.witnesses == [] && w.assets == [] && w.properties == []
    && w.lockedAt.None? && w.unlockedAt.None? && w.supersededBy.None?
    && w.deathNotifiedAt.None? && w.unlockAfter.None?
    && w.lastConfirmedAt.None? && w.livenessNotifiedAt.None?
  }

  function ParentGiven(c: Call): Option<WillId> {
    if c.CreateCodicil? then Some(c.id) else None
  }

  /** The wills a new draft replaces: the testator's own drafts and locked wills that are no codicils. */
  predicate Replaced(c: Call, w: Will) {
    && c.CreateDraft? && w.origin.testator.flt == c.testator.flt
    && (w.status == Draft || w.status == Locked) && w.origin.parent.None?
  }

  /** A successful creation adds one untouched draft that holds the request, last in order.  A draft replaces
      exactly the wills named above, naming itself as their heir; every other will is as it was. */
  lemma CreatedExactly(t: Table, c: Call)
    requires Durable(t) && Apply(t, c).outcome == Done && (c.CreateDraft? || c.CreateCodicil?)
    ensures var t' := Apply(t, c).table;
            && t'.order == t.order + [c.newId] && t'.rows.Keys == t.rows.Keys + {c.newId} && c.newId !in t.rows
            && Untouched(t'.rows[c.newId]) && Holds(t'.rows[c.newId].origin, c.testator, c.req, ParentGiven(c))
            && forall id :: id in t.rows ==>
                 t'.rows[id] == if Replaced(c, t.rows[id])
                                then t.rows[id].(status := Superseded, supersededBy := Some(c.newId))
                                else t.rows[id]
  {
    if c.CreateDraft? {
      forall id | id in t.rows ensures id in FindActive(t, c.testator.flt) <==> Replaced(c, t.rows[id]) {
        assert RowDurable(t, id);
        assert t.order[t.rows[id].origin.serial] == id;
      }
    }
  }

  // ---- What is recorded ----

  /** In whose name a call is recorded: its verified caller; for a lock, the testator; else nobody. */
  function RecordedActor(t: Table, c: Call): Flt {
    if ActorOf(c).Some? then ActorOf(c).value
    else if c.Lock? && c.id in t.rows then t.rows[c.id].origin.testator.flt
    else ""
  }

  /** The will and payload of an event of this kind, if the call records one. */
  predicate Fits(t: Table, c: Call, e: Event) {
    match e.kind
    case WillCreated => c.CreateDraft? && e.will == c.newId && e.payload == ""
    case WillSuperseded => e.will in t.rows && Replaced(c, t.rows[e.will]) && e.payload == c.newId
    case CodicilCreated => c.CreateCodicil? && e.will == c.newId && e.payload == ""
    case CodicilAppended => c.CreateCodicil? && e.will == c.id && e.payload == c.newId
    case TestatorSigned => c.SignTestator? && e.will == c.id && e.payload == c.payloadHash
    case WitnessSigned => c.SignWitness? && e.will == c.id && e.payload == c.payloadHash
    case WillLocked => c.Lock? && e.will == c.id && e.payload == ""
    case DeathWasNotified => c.NotifyDeath? && c.delayDays != 0 && e.will == c.id && e.payload == ""
    case VaultUnlocked =>
      (c.CompleteUnlock? || (c.NotifyDeath? && c.delayDays == 0)) && e.will == c.id && e.payload == ""
    case LivenessConfirmed => c.ConfirmLiveness? && e.will == c.id && e.payload == ""
    case LivenessReminderSent => c.RecordReminder? && e.will == c.id && e.payload == ""
  }

  lemma {:induction false} SupersededEventIn(ids: seq<WillId>, actor: Flt, heir: WillId, e: Event)
    ensures e in SupersededEvents(ids, actor, heir) <==>
            e.will in ids && e.kind == WillSuperseded && e.actor == actor && e.payload == heir
    ensures |SupersededEvents(ids, actor, heir)| == |ids|
  {
    if ids != [] {
      var n := |ids| - 1;
      SupersededEventIn(ids[..n], actor, heir, e);
      assert ids == ids[..n] + [ids[n]];
    }
  }

  lemma DoneEvents(t: Table, c: Call)
    requires Apply(t, c).outcome == Done
    ensures Apply(t, c).events == Events(c, ReadOf(t, c))
    ensures Names(c) ==> c.id in t.rows
  {
  }

  lemma DraftEventIn(c: Call, active: seq<WillId>, e: Event)
    requires c.CreateDraft?
    ensures e in Events(c, Read(None, 0, active)) <==>
            && e.actor == c.testator.flt
            && ((e.kind == WillCreated && e.will == c.newId && e.payload == "")
                || (e.kind == WillSuperseded && e.will in active && e.payload == c.newId))
  {
    SupersededEventIn(active, c.testator.flt, c.newId, e);
  }

  lemma DraftRecords(t: Table, c: Call, e: Event)
    requires Durable(t) && c.CreateDraft?
    ensures e in Events(c, ReadOf(t, c)) <==> Fits(t, c, e) && e.actor == RecordedActor(t, c)
  {
    DraftEventIn(c, FindActive(t, c.testator.flt), e);
    ActiveIsReplaced(t, c, e.will);
  }

  lemma CodicilRecords(t: Table, c: Call, e: Event)
    requires c.CreateCodicil?
    ensures e in Events(c, ReadOf(t, c)) <==> Fits(t, c, e) && e.actor == RecordedActor(t, c)
  {
  }

  lemma CreationRecordedFirst(c: Call, r: Read)
    requires c.CreateDraft? || c.CreateCodicil?
    ensures Events(c, r) != [] && Events(c, r)[0].will == c.newId
  {
  }

  lemma UpdateRecords(t: Table, c: Call, e: Event)
    requires !c.CreateDraft? && !c.CreateCodicil? && (c.Lock? ==> c.id in t.rows)
    ensures e in Events(c, ReadOf(t, c)) <==> Fits(t, c, e) && e.actor == RecordedActor(t, c)
  {
  }

  /** A successful call records an event if and only if it is of a kind the call has, about the will and with
      the payload that go with it, in the name of its caller; a creation first of all the new will's. */
  lemma RecordsExactly(t: Table, c: Call, e: Event)
    requires Durable(t) && Apply(t, c).outcome == Done
    ensures e in Apply(t, c).events <==> Fits(t, c, e) && e.actor == RecordedActor(t, c)
    ensures c.CreateDraft? || c.CreateCodicil? ==> Apply(t, c).events != [] && Apply(t, c).events[0].will == c.newId
  {
    DoneEvents(t, c);
    if c.CreateDraft? {
      DraftRecords(t, c, e);
    } else if c.CreateCodicil? {
      CodicilRecords(t, c, e);
    } else {
      UpdateRecords(t, c, e);
    }
    if c.CreateDraft? || c.CreateCodicil? {
      CreationRecordedFirst(c, ReadOf(t, c));
    }
  }

  lemma ActiveIsReplaced(t: Table, c: Call, id: WillId)
    requires Durable(t) && c.CreateDraft?
    ensures id in FindActive(t, c.testator.flt) <==> id in t.rows && Replaced(c, t.rows[id])
  {
    if id in t.rows {
      assert RowDurable(t, id);
      assert t.order[t.rows[id].origin.serial] == id;
    }
  }

  predicate NoRepeats<T(==)>(s: seq<T>) {
    forall i, j :: 0 <= i < j < |s| ==> s[i] != s[j]
  }

  lemma {:induction false} ActiveOnce(rows: map<WillId, Will>, order: seq<WillId>, flt: Flt)
    requires NoRepeats(order)
    ensures NoRepeats(ActiveAmong(rows, order, flt))
  {
    if order != [] {
      var n := |order| - 1;
      ActiveOnce(rows, order[..n], flt);
      assert forall id :: id in ActiveAmong(rows, order[..n], flt) ==> id in order[..n];
    }
  }

  /** ... and none twice. */
  lemma RecordsOnce(t: Table, c: Call)
    requires Durable(t) && Apply(t, c).outcome == Done
    ensures NoRepeats(Apply(t, c).events)
  {
    DoneEvents(t, c);
    if c.CreateDraft? {
      OrderListsRows(t);
      ActiveOnce(t.rows, t.order, c.testator.flt);
      DraftRecordsOnce(c, FindActive(t, c.testator.flt));
    } else {
      FewRecords(c, ReadOf(t, c));
    }
  }

  lemma DraftRecordsOnce(c: Call, active: seq<WillId>)
    requires c.CreateDraft? && NoRepeats(active)
    ensures NoRepeats(Events(c, Read(None, 0, active)))
  {
    SupersededOnce(active, c.testator.flt, c.newId);
  }

  lemma FewRecords(c: Call, r: Read)
    requires !c.CreateDraft?
    ensures NoRepeats(Events(c, r))
  {
  }

  lemma {:induction false} SupersededOnce(ids: seq<WillId>, actor: Flt, heir: WillId)
    requires NoRepeats(ids)
    ensures NoRepeats(SupersededEvents(ids, actor, heir))
    ensures forall e :: e in SupersededEvents(ids, actor, heir) ==> e.kind == WillSuperseded && e.will in ids
  {
    if ids != [] {
      SupersededOnce(ids[..|ids| - 1], actor, heir);
    }
  }
}
