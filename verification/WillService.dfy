/** The will service as a program over its repositories, proved against the atomic calls of module
    Wills.  A call takes, besides its arguments, what the outside world decides: clock readings, fresh
    identifiers, which database statements fail, and the surroundings of its audit records. */
module WillServices {
  import opened Wrappers
  import opened Clock
  import opened Wills
  import opened Permutations
  import opened WillRepos
  import opened AuditChain
  import opened AuditRepos
  import opened AuditHistory

  /** A call whose database writes may fail: it is then reported as an error and nothing is recorded. */
  function Effect(t: Table, c: Call, dbOk: bool): Step {
    var s := Apply(t, c);
    if s.outcome == Done && !dbOk then Step(t, DbError, []) else s
  }

  /** A failed write turns success into an error and leaves no trace; a call refused anyway is refused alike. */
  lemma FailedWriteLeavesNoTrace(t: Table, c: Call)
    ensures Effect(t, c, true) == Apply(t, c)
    ensures Effect(t, c, false).table == t && Effect(t, c, false).events == []
    ensures Apply(t, c).outcome != Done ==> Effect(t, c, false).outcome == Apply(t, c).outcome
    ensures Apply(t, c).outcome == Done ==> Effect(t, c, false).outcome == DbError
  {
  }

  /** buildWill. */
  function BuildWill(testator: Identity, req: CreateRequest, parent: Option<WillId>): Will {
    NewWill(testator, req, parent, 0)
  }

  /** What CreateDraft has read when the database lists the rows in the order scan. */
  function ListedFor(t: Table, scan: seq<WillId>, flt: Flt): Read {
    Read(None, 0, ActiveAmong(t.rows, scan, flt))
  }

  lemma ListedWrite(t: Table, c: Call, scan: seq<WillId>)
    requires c.CreateDraft? && multiset(scan) == multiset(t.order)
    ensures Write(t, c, ListedFor(t, scan, c.testator.flt)) == Write(t, c, ReadOf(t, c))
  {
    SameMembers(scan, t.order);
    ListOrderImmaterial(t, c, ListedFor(t, scan, c.testator.flt), ReadOf(t, c), [], c.newId);
  }

  lemma RecordAllSnoc(h: Hash, log: seq<Entry>, events: seq<Event>, e: Event, env: nat -> Surroundings)
    ensures RecordAll(h, log, events + [e], env) == Recorded(h, RecordAll(h, log, events, env), e, env(|events|))
  {
  }

  lemma RecordAllOne(h: Hash, log: seq<Entry>, e: Event, env: nat -> Surroundings)
    ensures RecordAll(h, log, [e], env) == Recorded(h, log, e, env(0))
  {
  }

  lemma {:induction false} SupersededEventsLength(ids: seq<WillId>, actor: Flt, heir: WillId)
    ensures |SupersededEvents(ids, actor, heir)| == |ids|
  {
    if ids != [] {
      SupersededEventsLength(ids[..|ids| - 1], actor, heir);
    }
  }

  function UnlockedRow(w: Will, at: Time): Will {
    w.(status := UnlockedAtDeath, lockedAt := None, unlockedAt := Some(Stored(at)))
  }

  function CoolingRow(w: Will, notifiedAt: Time, unlockAfter: Time): Will {
    w.(status := DeathNotified, deathNotifiedAt := Some(Stored(notifiedAt)), unlockAfter := Some(Stored(unlockAfter)))
  }

  // The atomic death report on a locked will: its row and its one event.
  lemma NoticeEffect(t: Table, id: WillId, delayDays: int, now: Time)
    requires id in t.rows && t.rows[id].status == Locked
    ensures var c := Call.NotifyDeath(id, delayDays, now);
            if delayDays == 0 then
              Apply(t, c) == Step(WithRow(t, id, UnlockedRow(t.rows[id], now)), Done,
                  [Event(id, VaultUnlocked, "", "")])
            else
              var w := CoolingRow(t.rows[id], now, now + delayDays * DAY);
              Apply(t, c) == Step(WithRow(t, id, w), Done, [Event(id, DeathWasNotified, "", "")])
  {
  }

  class WillService {
    const repo: WillRepo
    const audit: AuditService

    constructor (repo: WillRepo, audit: AuditService)
      ensures this.repo == repo && this.audit == audit
    {
      this.repo := repo;
      this.audit := audit;
    }

    /** The call had exactly the effect of the atomic call c on the tables and on the audit log. */
    twostate predicate Carried(c: Call, dbOk: bool, env: nat -> Surroundings, outcome: Outcome)
      reads repo, audit.repo
    {
      var s := Effect(old(repo.wills), c, dbOk);
      && repo.wills == s.table && outcome == s.outcome
      && audit.repo.rows == RecordAll(audit.hash, old(audit.repo.rows), s.events, env)
    }

    // How most calls end: report the failed write, or record one event.
    method Finish(ok: bool, id: WillId, kind: AuditEvent, actor: Flt, payload: string, env: nat -> Surroundings)
        returns (outcome: Outcome)
      modifies audit.repo
      ensures outcome == if ok then Done else DbError
      ensures audit.repo.rows
          == RecordAll(audit.hash, old(audit.repo.rows), if ok then [Event(id, kind, actor, payload)] else [], env)
    {
      if !ok {
        return DbError;
      }
      RecordAllOne(audit.hash, audit.repo.rows, Event(id, kind, actor, payload), env);
      audit.Record(id, kind, actor, payload, env(0));
      return Done;
    }

    // One event for the new will, then one for each will it supersedes.
    method RecordCreation(newId: WillId, actor: Flt, supersede: seq<WillId>, env: nat -> Surroundings)
      modifies audit.repo
      ensures audit.repo.rows
           == RecordAll(audit.hash, old(audit.repo.rows),
                        [Event(newId, WillCreated, actor, "")] + SupersededEvents(supersede, actor, newId), env)
    {
      ghost var rows, h, created := audit.repo.rows, audit.hash, Event(newId, WillCreated, actor, "");
      audit.Record(newId, WillCreated, actor, "", env(0));
      RecordAllOne(h, rows, created, env);
      for k := 0 to |supersede|
        invariant audit.repo.rows == RecordAll(h, rows, [created] + SupersededEvents(supersede[..k], actor, newId), env)
      {
        audit.Record(supersede[k], WillSuperseded, actor, newId, env(1 + k));
        SupersededEventsLength(supersede[..k], actor, newId);
        ghost var events, e := [created] + SupersededEvents(supersede[..k], actor, newId),
            Event(supersede[k], WillSuperseded, actor, newId);
        RecordAllSnoc(h, rows, events, e, env);
        assert supersede[..k + 1][..k] == supersede[..k];
        assert [created] + SupersededEvents(supersede[..k + 1], actor, newId) == events + [e];
      }
      assert supersede[..|supersede|] == supersede;
    }

    // One event for the codicil, and one for the will it amends.
    method RecordCodicil(newId: WillId, parentId: WillId, actor: Flt, env: nat -> Surroundings)
      modifies audit.repo
      ensures audit.repo.rows == RecordAll(audit.hash, old(audit.repo.rows),
                [Event(newId, CodicilCreated, actor, ""), Event(parentId, CodicilAppended, actor, newId)], env)
    {
      ghost var rows, h := audit.repo.rows, audit.hash;
      ghost var e, e' := Event(newId, CodicilCreated, actor, ""), Event(parentId, CodicilAppended, actor, newId);
      audit.Record(newId, CodicilCreated, actor, "", env(0));
      audit.Record(parentId, CodicilAppended, actor, newId, env(1));
      RecordAllOne(h, rows, e, env);
      RecordAllSnoc(h, rows, [e], e', env);
      assert [e] + [e'] == [e, e'];
    }

    /** The wills to supersede come in the order scan in which the database visits them; so do their events,
        and nothing else depends on it. */
    method CreateDraft(newId: WillId, testator: Identity, req: CreateRequest, scan: seq<WillId>, fails: nat -> bool,
        env: nat -> Surroundings)
        returns (outcome: Outcome)
      requires multiset(scan) == multiset(repo.wills.order)
      modifies repo, audit.repo
      ensures var c, r := Call.CreateDraft(newId, testator, req), ListedFor(old(repo.wills), scan, testator.flt);
              var dbOk := AllSucceed(fails, Statements(BuildWill(testator, req, None), r.active));
              var s := Effect(old(repo.wills), c, dbOk);
              && repo.wills == s.table && outcome == s.outcome
              && audit.repo.rows
                 == RecordAll(audit.hash, old(audit.repo.rows), if outcome == Done then Events(c, r) else [], env)
    {
      if !ValidVault(req.vault) {
        return InvalidVault;
      }
      ghost var t := repo.wills;
      var supersede := repo.FindActiveByTestatorFLT(testator.flt, scan);
      ListedWrite(t, Call.CreateDraft(newId, testator, req), scan);
      var ok := repo.CreateDraft(newId, BuildWill(testator, req, None), supersede, fails);
      if !ok {
        return DbError;
      }
      RecordCreation(newId, testator.flt, supersede, env);
      return Done;
    }

    method CreateCodicil(newId: WillId, parentId: WillId, testator: Identity, req: CreateRequest, fails: nat -> bool,
        env: nat -> Surroundings)
        returns (outcome: Outcome)
      modifies repo, audit.repo
      ensures Carried(Call.CreateCodicil(newId, parentId, testator, req),
                      AllSucceed(fails, Statements(BuildWill(testator, req, Some(parentId)), [])), env, outcome)
    {
      var parent := repo.GetByID(parentId);
      if parent.None? {
        return NotFound;
      }
      if parent.value.status != Locked {
        return InvalidState;
      }
      if parent.value.origin.testator.flt != testator.flt {
        return Forbidden;
      }
      if !ValidVault(req.vault) {
        return InvalidVault;
      }
      var ok := repo.CreateDraft(newId, BuildWill(testator, req, Some(parentId)), [], fails);
      if !ok {
        return DbError;
      }
      RecordCodicil(newId, parentId, testator.flt, env);
      return Done;
    }

    method SignTestator(id: WillId, signer: Identity, payloadHash: string, now: Time, dbOk: bool,
        env: nat -> Surroundings) returns (outcome: Outcome)
      modifies repo, audit.repo
      ensures Carried(Call.SignTestator(id, signer, payloadHash, now), dbOk, env, outcome)
    {
      var will := repo.GetByID(id);
      if will.None? {
        return NotFound;
      }
      if will.value.status != Draft {
        return InvalidState;
      }
      if will.value.origin.testator.flt != signer.flt {
        return Forbidden;
      }
      var ok := repo.RecordTestatorSignature(id, payloadHash, now, dbOk);
      outcome := Finish(ok, id, TestatorSigned, signer.flt, payloadHash, env);
    }

    method SignWitness(id: WillId, signer: Identity, payloadHash: string, now: Time, dbOk: bool,
        env: nat -> Surroundings) returns (outcome: Outcome)
      modifies repo, audit.repo
      ensures Carried(Call.SignWitness(id, signer, payloadHash, now), dbOk, env, outcome)
    {
      var will := repo.GetByID(id);
      if will.None? {
        return NotFound;
      }
      if will.value.status != Draft {
        return InvalidState;
      }
      if will.value.origin.testator.flt == signer.flt {
        return Forbidden;
      }
      if will.value.signedAt.None? {
        return InvalidState;
      }
      var ok := repo.RecordWitnessSignature(id, payloadHash, now, signer, dbOk);
      outcome := Finish(ok, id, WitnessSigned, signer.flt, payloadHash, env);
    }

    method Lock(id: WillId, lockedAt: Time, dbOk: bool, env: nat -> Surroundings) returns (outcome: Outcome)
      modifies repo, audit.repo
      ensures Carried(Call.Lock(id, lockedAt), dbOk, env, outcome)
    {
      var will := repo.GetByID(id);
      if will.None? {
        return NotFound;
      }
      if will.value.status != Draft {
        return InvalidState;
      }
      if will.value.signedAt.None? || |will.value.witnesses| < 2 {
        return InvalidState;
      }
      var ok := repo.UpdateStatus(id, Locked, Some(lockedAt), None, dbOk);
      outcome := Finish(ok, id, WillLocked, will.value.origin.testator.flt, "", env);
    }

    method NotifyDeath(id: WillId, delayDays: int, notifiedAt: Time, dbOk: bool, env: nat -> Surroundings)
        returns (outcome: Outcome)
      modifies repo, audit.repo
      ensures Carried(Call.NotifyDeath(id, delayDays, notifiedAt), dbOk, env, outcome)
    {
      var will := repo.GetByID(id);
      if will.None? {
        return NotFound;
      }
      if will.value.status != Locked {
        return InvalidState;
      }
      outcome := Notice(id, delayDays, notifiedAt, dbOk, env);
    }

    // The write of NotifyDeath: unlock at once, or start the cooling-off period.
    method Notice(id: WillId, delayDays: int, notifiedAt: Time, dbOk: bool, env: nat -> Surroundings)
        returns (outcome: Outcome)
      requires id in repo.wills.rows && repo.wills.rows[id].status == Locked
      modifies repo, audit.repo
      ensures Carried(Call.NotifyDeath(id, delayDays, notifiedAt), dbOk, env, outcome)
    {
      NoticeEffect(repo.wills, id, delayDays, notifiedAt);
      var unlockAfter := notifiedAt + delayDays * DAY;
      if delayDays == 0 {
        outcome := Unlock(id, notifiedAt, dbOk, env);
      } else {
        outcome := CoolOff(id, notifiedAt, unlockAfter, dbOk, env);
      }
    }

    // UPDATE to unlocked_at_death, and its event.
    method Unlock(id: WillId, at: Time, dbOk: bool, env: nat -> Surroundings) returns (outcome: Outcome)
      requires id in repo.wills.rows
      modifies repo, audit.repo
      ensures outcome == if dbOk then Done else DbError
      ensures repo.wills == var t := old(repo.wills); if dbOk then WithRow(t, id, UnlockedRow(t.rows[id], at)) else t
      ensures audit.repo.rows == RecordAll(audit.hash, old(audit.repo.rows),
                                           if dbOk then [Event(id, VaultUnlocked, "", "")] else [], env)
    {
      var ok := repo.UpdateStatus(id, UnlockedAtDeath, None, Some(at), dbOk);
      outcome := Finish(ok, id, VaultUnlocked, "", "", env);
    }

    // UPDATE to death_notified, and its event.
    method CoolOff(id: WillId, notifiedAt: Time, unlockAfter: Time, dbOk: bool, env: nat -> Surroundings)
        returns (outcome: Outcome)
      requires id in repo.wills.rows
      modifies repo, audit.repo
      ensures outcome == if dbOk then Done else DbError
      ensures repo.wills == var t := old(repo.wills);
                            if dbOk then WithRow(t, id, CoolingRow(t.rows[id], notifiedAt, unlockAfter)) else t
      ensures audit.repo.rows == RecordAll(audit.hash, old(audit.repo.rows),
                                           if dbOk then [Event(id, DeathWasNotified, "", "")] else [], env)
    {
      var ok := repo.NotifyDeath(id, notifiedAt, unlockAfter, dbOk);
      outcome := Finish(ok, id, DeathWasNotified, "", "", env);
    }

    method CompleteUnlock(id: WillId, now: Time, dbOk: bool, env: nat -> Surroundings) returns (outcome: Outcome)
      modifies repo, audit.repo
      ensures Carried(Call.CompleteUnlock(id, now), dbOk, env, outcome)
    {
      var will := repo.GetByID(id);
      if will.None? {
        return NotFound;
      }
      if will.value.status != DeathNotified {
        return InvalidState;
      }
      if will.value.unlockAfter.Some? && now < will.value.unlockAfter.value {
        return InvalidState;
      }
      outcome := Unlock(id, now, dbOk, env);
    }

    method ConfirmLiveness(id: WillId, testator: Identity, now: Time, dbOk: bool, env: nat -> Surroundings)
        returns (outcome: Outcome)
      modifies repo, audit.repo
      ensures Carried(Call.ConfirmLiveness(id, testator, now), dbOk, env, outcome)
    {
      var will := repo.GetByID(id);
      if will.None? {
        return NotFound;
      }
      if will.value.origin.testator.flt != testator.flt {
        return Forbidden;
      }
      if will.value.status == Superseded || will.value.status == UnlockedAtDeath {
        return InvalidState;
      }
      var ok := repo.RecordLivenessConfirmation(id, now, dbOk);
      outcome := Finish(ok, id, LivenessConfirmed, testator.flt, "", env);
    }

    method RecordLivenessReminder(id: WillId, now: Time, dbOk: bool, env: nat -> Surroundings)
        returns (outcome: Outcome)
      modifies repo, audit.repo
      ensures Carried(RecordReminder(id, now), dbOk, env, outcome)
    {
      var ok := repo.RecordLivenessReminder(id, now, dbOk);
      outcome := Finish(ok, id, LivenessReminderSent, "", "", env);
    }

    method AddDigitalAssetClause(id: WillId, testator: Identity, asset: DigitalAsset, dbOk: bool,
        env: nat -> Surroundings) returns (outcome: Outcome)
      modifies repo, audit.repo
      ensures Carried(AddDigitalAsset(id, testator, asset), dbOk, env, outcome)
    {
      var will := repo.GetByID(id);
      if will.None? {
        return NotFound;
      }
      if will.value.status != Draft {
        return InvalidState;
      }
      if will.value.origin.testator.flt != testator.flt {
        return Forbidden;
      }
      var ok := repo.InsertDigitalAsset(id, asset, dbOk);
      return if ok then Done else DbError;
    }

    /** The LINZ answer, if any, is already part of the clause: it only fills fields. */
    method AddPropertyClause(id: WillId, testator: Identity, property: Property, dbOk: bool, env: nat -> Surroundings)
        returns (outcome: Outcome)
      modifies repo, audit.repo
      ensures Carried(AddProperty(id, testator, property), dbOk, env, outcome)
    {
      var will := repo.GetByID(id);
      if will.None? {
        return NotFound;
      }
      if will.value.status != Draft {
        return InvalidState;
      }
      if will.value.origin.testator.flt != testator.flt {
        return Forbidden;
      }
      var ok := repo.InsertPropertyClause(id, property, dbOk);
      return if ok then Done else DbError;
    }
  }
}
