/** The logs that whole runs leave: when they verify, and what their identifiers commit to. */
module AuditRuns {
  import opened Wrappers
  import opened Wills
  import opened Runs
  import opened AuditChain
  import opened AuditVerification
  import opened AuditCommitment
  import opened AuditAgreement
  import opened Rfc3339
  import Lifecycle
  import WillIds

  // ---- Where the identifiers and actors of a run's events come from ----

  /** The identifier a request brings into the database, if any: that of a new will; or, since the service
      does not look the will up, that named by a reminder not sent through the handler. */
  function Introduces(q: Request): Option<WillId> {
    match q
    case Direct(CreateDraft(newId, _, _)) => Some(newId)
    case Direct(CreateCodicil(newId, _, _, _)) => Some(newId)
    case Direct(RecordReminder(id, _)) => Some(id)
    case _ => None
  }

  /** Every identifier the requests bring in is a UUID, as newWillID makes them. */
  predicate BringsUuids(run: seq<Request>) {
    forall k :: 0 <= k < |run| ==> Introduces(run[k]).None? || WillIds.IsUuid(Introduces(run[k]).value)
  }

  /** No caller's FLT holds the separator of the audit preimage. */
  predicate PlainCallers(run: seq<Request>) {
    forall k :: 0 <= k < |run| ==>
      var actor := Lifecycle.ActorOf(CallOf(run[k])); actor.None? || '|' !in actor.value
  }

  lemma {:induction false} SupersededEventsAre(ids: seq<WillId>, actor: Flt, heir: WillId)
    ensures forall e :: e in SupersededEvents(ids, actor, heir) ==> e.will in ids && e.actor == actor
  {
    if ids != [] {
      SupersededEventsAre(ids[..|ids| - 1], actor, heir);
    }
  }

  lemma CallEvents(t: Table, c: Call, e: Event)
    requires e in Apply(t, c).events
    ensures e.will in Apply(t, c).table.rows || (c.RecordReminder? && c.id == e.will)
    ensures e.actor == "" || Lifecycle.ActorOf(c) == Some(e.actor)
         || exists id :: id in t.rows && t.rows[id].origin.testator.flt == e.actor
  {
    if c.CreateDraft? {
      SupersededEventsAre(FindActive(t, c.testator.flt), c.testator.flt, c.newId);
    }
  }

  lemma CallRows(t: Table, c: Call, id: WillId)
    requires id in Apply(t, c).table.rows
    ensures var w := Apply(t, c).table.rows[id];
            if id in t.rows then w.origin == t.rows[id].origin
            else && (c.CreateDraft? || c.CreateCodicil?) && c.newId == id
                 && Lifecycle.ActorOf(c) == Some(w.origin.testator.flt)
  {
  }

  predicate PlainWills(events: seq<Event>) {
    forall e :: e in events ==> '|' !in e.will
  }

  predicate PlainEventActors(events: seq<Event>) {
    forall e :: e in events ==> '|' !in e.actor
  }

  predicate UuidKeys(t: Table) {
    forall id :: id in t.rows ==> WillIds.IsUuid(id)
  }

  predicate PlainOwners(t: Table) {
    forall id :: id in t.rows ==> '|' !in t.rows[id].origin.testator.flt
  }

  lemma RequestWills(t: Table, q: Request)
    requires UuidKeys(t) && (Introduces(q).Some? ==> WillIds.IsUuid(Introduces(q).value))
    ensures UuidKeys(Handle(t, q).table) && PlainWills(Handle(t, q).events)
  {
    HandleIsCall(t, q);
    var c := CallOf(q);
    if Handle(t, q).table != t || Handle(t, q).events != [] {
      forall id | id in Apply(t, c).table.rows ensures WillIds.IsUuid(id) {
        CallRows(t, c, id);
      }
      forall e | e in Apply(t, c).events ensures '|' !in e.will {
        CallEvents(t, c, e);
        WillIds.UuidIsPlain(e.will);
      }
    }
  }

  lemma RequestActors(t: Table, q: Request)
    requires PlainOwners(t) && var actor := Lifecycle.ActorOf(CallOf(q)); actor.None? || '|' !in actor.value
    ensures PlainOwners(Handle(t, q).table) && PlainEventActors(Handle(t, q).events)
  {
    HandleIsCall(t, q);
    var c := CallOf(q);
    if Handle(t, q).table != t || Handle(t, q).events != [] {
      forall id | id in Apply(t, c).table.rows ensures '|' !in Apply(t, c).table.rows[id].origin.testator.flt {
        CallRows(t, c, id);
      }
      forall e | e in Apply(t, c).events ensures '|' !in e.actor {
        CallEvents(t, c, e);
      }
    }
  }

  /** A run that brings in UUIDs alone has separator-free identifiers in its table and in its history. */
  lemma {:induction false} UuidRun(run: seq<Request>)
    requires BringsUuids(run)
    ensures UuidKeys(After(run)) && PlainWills(History(run))
  {
    if run != [] {
      var n := |run| - 1;
      assert BringsUuids(run[..n]);
      UuidRun(run[..n]);
      RequestWills(After(run[..n]), run[n]);
    }
  }

  // ---- Verification ----

  /** The clock readings behind the entries of a run's log. */
  function RunStamps(h: Hash, run: seq<Request>, env: Environment): seq<Instant> {
    if run == [] then []
    else
      var n := |run| - 1;
      StampsAfter(h, LogAfter(h, run[..n], env), RunStamps(h, run[..n], env), Handle(After(run[..n]), run[n]).events,
          At(env, n))
  }

  lemma {:induction false} RunLogHonest(h: Hash, run: seq<Request>, env: Environment)
    requires HexLike(h) && BringsUuids(run)
    ensures Honest(h, LogAfter(h, run, env), RunStamps(h, run, env))
  {
    if run != [] {
      var n := |run| - 1;
      assert BringsUuids(run[..n]);
      RunLogHonest(h, run[..n], env);
      UuidRun(run[..n]);
      RequestWills(After(run[..n]), run[n]);
      RecordAllHonest(h, LogAfter(h, run[..n], env), RunStamps(h, run[..n], env),
                      Handle(After(run[..n]), run[n]).events, At(env, n));
    }
  }

  /** The log a run leaves passes verification for a will exactly when the clock showed whole
      microseconds at every record made for it. */
  lemma RunVerifiesExact(h: Hash, run: seq<Request>, env: Environment, will: WillId)
    requires HexLike(h) && BringsUuids(run) && CutsSafely(h, LogAfter(h, run, env), RunStamps(h, run, env))
    ensures var log, stamps := LogAfter(h, run, env), RunStamps(h, run, env);
            |stamps| == |log| &&
            (ChainVerifies(h, log, will) <==> forall i :: 0 <= i < |log| && log[i].will == will ==>
                stamps[i] % 1_000 == 0)
  {
    RunLogHonest(h, run, env);
    VerifiesIffWholeMicroseconds(h, LogAfter(h, run, env), RunStamps(h, run, env), will);
  }

  // ---- Commitment ----

  lemma RunLogShape(h: Hash, run: seq<Request>, env: Environment)
    requires HexLike(h) && BringsUuids(run)
    ensures var log, stamps := LogAfter(h, run, env), RunStamps(h, run, env);
            Hashed(h, log, stamps) && Backward(log) && DistinctIds(log)
  {
    RunLogHonest(h, run, env);
    RunLogChained(h, run, env);
    ChainedIsBackward(LogAfter(h, run, env));
  }

  /** What the log of a run is worth as evidence: each of its identifiers commits to the whole history
      recorded behind it (every time, event, will, actor and link), against every log the verifier
      accepts, if no actor in that history holds a separator; and when the run's log is itself accepted,
      if and only if. */
  lemma RunHeadCommits(h: Hash, run: seq<Request>, env: Environment, i: nat)
    requires HexLike(h) && BringsUuids(run) && i < |LogAfter(h, run, env)|
    ensures var log, stamps := LogAfter(h, run, env), RunStamps(h, run, env);
            && |stamps| == |log|
            && (PlainActors(log, i) ==> Commits(h, log, stamps, i))
            && (stamps == StoredTimes(log) ==> (Commits(h, log, stamps, i) <==> PlainActors(log, i)))
  {
    var log, stamps := LogAfter(h, run, env), RunStamps(h, run, env);
    RunLogShape(h, run, env);
    if PlainActors(log, i) {
      PlainActorsCommit(h, log, stamps, i);
    } else if stamps == StoredTimes(log) {
      CommitmentExact(h, log, i);
    }
  }

  lemma RecordedActor(h: Hash, log: seq<Entry>, e: Event, s: Surroundings)
    requires PlainLog(log) && '|' !in e.actor
    ensures PlainLog(Recorded(h, log, e, s))
  {
  }

  lemma {:induction false} RecordedActors(h: Hash, log: seq<Entry>, events: seq<Event>, env: nat -> Surroundings)
    requires PlainLog(log) && PlainEventActors(events)
    ensures PlainLog(RecordAll(h, log, events, env))
  {
    if events != [] {
      var n := |events| - 1;
      assert PlainEventActors(events[..n]) && events[n] in events;
      RecordedActors(h, log, events[..n], env);
      RecordedActor(h, RecordAll(h, log, events[..n], env), events[n], env(n));
    }
  }

  lemma {:induction false} PlainCallersRun(h: Hash, run: seq<Request>, env: Environment)
    requires PlainCallers(run)
    ensures PlainOwners(After(run)) && PlainLog(LogAfter(h, run, env))
  {
    if run != [] {
      var n := |run| - 1;
      assert PlainCallers(run[..n]);
      PlainCallersRun(h, run[..n], env);
      RequestActors(After(run[..n]), run[n]);
      RecordedActors(h, LogAfter(h, run[..n], env), Handle(After(run[..n]), run[n]).events, At(env, n));
    }
  }

  /** If no caller of the run has a separator in its FLT, every identifier of the log commits to the
      history behind it. */
  lemma PlainCallersCommit(h: Hash, run: seq<Request>, env: Environment, i: nat)
    requires HexLike(h) && BringsUuids(run) && PlainCallers(run) && i < |LogAfter(h, run, env)|
    ensures var log, stamps := LogAfter(h, run, env), RunStamps(h, run, env);
            |stamps| == |log| && Commits(h, log, stamps, i)
  {
    PlainCallersRun(h, run, env);
    AllPlainActors(LogAfter(h, run, env), i);
    RunHeadCommits(h, run, env, i);
  }
}
