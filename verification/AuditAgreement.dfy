/** The stored log of a run against the will table: what a reader of the log learns. */
module AuditAgreement {
  import opened Wrappers
  import opened Clock
  import opened Wills
  import opened Invariants
  import opened Runs
  import opened AuditHistory
  import opened AuditChain

  /** The surroundings of the k-th event that request i of a run records. */
  type Environment = (nat, nat) -> Surroundings

  function At(env: Environment, i: nat): nat -> Surroundings {
    (k: nat) => env(i, k)
  }

  /** The log a run leaves, starting from none. */
  function LogAfter(h: Hash, run: seq<Request>, env: Environment): seq<Entry> {
    if run == [] then []
    else
      var n := |run| - 1;
      RecordAll(h, LogAfter(h, run[..n], env), Handle(After(run[..n]), run[n]).events, At(env, n))
  }

  /** An event name read back. */
  function KindOf(name: string): Option<AuditEvent> {
    match name
    case "will_created" => Some(WillCreated)
    case "codicil_created" => Some(CodicilCreated)
    case "codicil_appended" => Some(CodicilAppended)
    case "testator_signed" => Some(TestatorSigned)
    case "witness_signed" => Some(WitnessSigned)
    case "locked" => Some(WillLocked)
    case "superseded" => Some(WillSuperseded)
    case "death_notified" => Some(DeathWasNotified)
    case "vault_unlocked" => Some(VaultUnlocked)
    case "liveness_confirmed" => Some(LivenessConfirmed)
    case "liveness_reminder_sent" => Some(LivenessReminderSent)
    case _ => None
  }

  lemma KindOfName(k: AuditEvent)
    ensures KindOf(EventName(k)) == Some(k)
  {
  }

  function EntryEvents(e: Entry): seq<Event> {
    if KindOf(e.event).Some? then [Event(e.will, KindOf(e.event).value, e.actor, e.payload)] else []
  }

  /** The events a reader takes from log entries. */
  function LogEvents(log: seq<Entry>): seq<Event> {
    if log == [] then [] else LogEvents(log[..|log| - 1]) + EntryEvents(log[|log| - 1])
  }

  lemma LogEventsOne(log: seq<Entry>, e: Entry)
    ensures LogEvents(log + [e]) == LogEvents(log) + EntryEvents(e)
  {
  }

  /** Every INSERT goes through. */
  predicate AllInserted(h: Hash, log: seq<Entry>, events: seq<Event>, env: nat -> Surroundings) {
    events == [] ||
    var n := |events| - 1;
    AllInserted(h, log, events[..n], env) && Inserted(h, RecordAll(h, log, events[..n], env), events[n], env(n))
  }

  predicate RunInserted(h: Hash, run: seq<Request>, env: Environment) {
    run == [] ||
    var n := |run| - 1;
    RunInserted(h, run[..n], env)
        && AllInserted(h, LogAfter(h, run[..n], env), Handle(After(run[..n]), run[n]).events, At(env, n))
  }

  /** a is what is left of b after deleting some elements, order kept. */
  predicate Subsequence(a: seq<Event>, b: seq<Event>) {
    if a == [] then true
    else if b == [] then false
    else (a[|a| - 1] == b[|b| - 1] && Subsequence(a[..|a| - 1], b[..|b| - 1])) || Subsequence(a, b[..|b| - 1])
  }

  lemma SubsequenceStep(a: seq<Event>, b: seq<Event>, x: Event)
    requires Subsequence(a, b)
    ensures Subsequence(a + [x], b + [x]) && Subsequence(a, b + [x])
  {
  }

  lemma RecordedEvents(h: Hash, log: seq<Entry>, e: Event, s: Surroundings)
    ensures LogEvents(Recorded(h, log, e, s)) == if Inserted(h, log, e, s) then LogEvents(log) + [e] else LogEvents(log)
  {
    if Inserted(h, log, e, s) {
      LogEventsOne(log, EntryFor(h, log, e, s));
      KindOfName(e.kind);
    }
  }

  // The events up to the n-th, put after a history, and the n-th itself.
  lemma AppendPrefix(h: seq<Event>, events: seq<Event>)
    requires events != []
    ensures h + events == (h + events[..|events| - 1]) + [events[|events| - 1]]
  {
  }

  lemma {:induction false} RecordAllKeepsOrder(h: Hash, log: seq<Entry>, history: seq<Event>, events: seq<Event>,
      env: nat -> Surroundings)
    requires Subsequence(LogEvents(log), history)
    ensures Subsequence(LogEvents(RecordAll(h, log, events, env)), history + events)
  {
    if events == [] {
      assert history + events == history;
    } else {
      var n := |events| - 1;
      var log' := RecordAll(h, log, events[..n], env);
      RecordAllKeepsOrder(h, log, history, events[..n], env);
      RecordedEvents(h, log', events[n], env(n));
      SubsequenceStep(LogEvents(log'), history + events[..n], events[n]);
      AppendPrefix(history, events);
    }
  }

  lemma {:induction false} RecordAllComplete(h: Hash, log: seq<Entry>, events: seq<Event>, env: nat -> Surroundings)
    requires AllInserted(h, log, events, env)
    ensures LogEvents(RecordAll(h, log, events, env)) == LogEvents(log) + events
  {
    if events != [] {
      var n := |events| - 1;
      RecordAllComplete(h, log, events[..n], env);
      RecordedEvents(h, RecordAll(h, log, events[..n], env), events[n], env(n));
      AppendPrefix(LogEvents(log), events);
    }
  }

  /** Record may fail and be ignored: the log is then still the true history with some events left
      out, in order; if no INSERT fails it is the whole history. */
  lemma {:induction false} LogIsHistory(h: Hash, run: seq<Request>, env: Environment)
    ensures Subsequence(LogEvents(LogAfter(h, run, env)), History(run))
    ensures RunInserted(h, run, env) ==> LogEvents(LogAfter(h, run, env)) == History(run)
  {
    if run != [] {
      var n := |run| - 1;
      LogIsHistory(h, run[..n], env);
      var log, events := LogAfter(h, run[..n], env), Handle(After(run[..n]), run[n]).events;
      RecordAllKeepsOrder(h, log, History(run[..n]), events, At(env, n));
      if RunInserted(h, run, env) {
        RecordAllComplete(h, log, events, At(env, n));
      }
    }
  }

  lemma {:induction false} RunLogChained(h: Hash, run: seq<Request>, env: Environment)
    requires HexLike(h)
    ensures Chained(LogAfter(h, run, env))
  {
    if run != [] {
      var n := |run| - 1;
      RunLogChained(h, run[..n], env);
      RecordAllChained(h, LogAfter(h, run[..n], env), Handle(After(run[..n]), run[n]).events, At(env, n));
    }
  }

  lemma ReplayEntry(h: seq<Event>, e: Entry, will: WillId)
    ensures Replay(h + EntryEvents(e), will) ==
            var v := Replay(h, will);
            if e.will == will && KindOf(e.event).Some? then Advance(v, EntryEvents(e)[0]) else v
  {
    if KindOf(e.event).Some? {
      ReplayOne(h, EntryEvents(e)[0], will);
      assert EntryEvents(e) == [EntryEvents(e)[0]];
    } else {
      assert h + EntryEvents(e) == h;
    }
  }

  /** Entries of other wills do not matter to a reader of one will. */
  lemma {:induction false} ReplayOfWill(log: seq<Entry>, will: WillId)
    ensures Replay(LogEvents(OfWill(log, will)), will) == Replay(LogEvents(log), will)
  {
    if log != [] {
      var n := |log| - 1;
      var before, mine := log[..n], OfWill(log[..n], will);
      ReplayOfWill(before, will);
      ReplayEntry(LogEvents(before), log[n], will);
      if log[n].will == will {
        LogEventsOne(mine, log[n]);
        ReplayEntry(LogEvents(mine), log[n], will);
      } else {
        assert OfWill(log, will) == mine;
      }
    }
  }

  /** Agreement of log and table.  When no INSERT of the run failed and the will's stored times strictly
      increase, reading its entries back in time order gives one linked chain, and following it step by
      step gives what the row says of status, signed hash, witnesses and what they signed, and heir. */
  lemma ReadLogTellsTheRow(h: Hash, run: seq<Request>, env: Environment, will: WillId)
    requires HexLike(h) && RunInserted(h, run, env) && StrictTimes(LogAfter(h, run, env), will)
    ensures var entries := ReadOrder(LogAfter(h, run, env), will);
            && Linear(entries)
            && Replay(LogEvents(entries), will) == RowView(After(run), will)
  {
    var log := LogAfter(h, run, env);
    RunLogChained(h, run, env);
    OneChainPerWill(log, will);
    ReadInWritingOrder(log, will);
    ReplayOfWill(log, will);
    LogIsHistory(h, run, env);
    HistoryMatchesTable(run, will);
  }

  lemma {:induction false} SignatureCount(ws: seq<WitnessSignature>)
    ensures |Signatures(ws)| == |ws|
  {
    if ws != [] {
      SignatureCount(ws[..|ws| - 1]);
    }
  }

  /** The log alone decides whether a will can be locked: what its reader replays gives every fact that
      Lock tests. */
  lemma LogDecidesLock(h: Hash, run: seq<Request>, env: Environment, will: WillId, now: Time)
    requires HexLike(h) && RunInserted(h, run, env) && StrictTimes(LogAfter(h, run, env), will)
    ensures Apply(After(run), Lock(will, now)).outcome
         == LockVerdict(Replay(LogEvents(ReadOrder(LogAfter(h, run, env), will)), will))
  {
    ReadLogTellsTheRow(h, run, env, will);
    RunKeepsInvariants(run);
    LockFromView(After(run), will, now);
  }

  function LockVerdict(v: Option<View>): Outcome {
    if v.None? then NotFound
    else if v.value.status == Draft && v.value.signedHash.Some? && |v.value.witnesses| >= 2 then Done
    else InvalidState
  }

  lemma LockFromView(t: Table, will: WillId, now: Time)
    requires Durable(t)
    ensures Apply(t, Lock(will, now)).outcome == LockVerdict(RowView(t, will))
  {
    if will in t.rows {
      assert RowDurable(t, will);
      SignatureCount(t.rows[will].witnesses);
    }
  }
}
