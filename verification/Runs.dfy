/** Runs in which no two requests overlap: every request is one atomic step. */
module Runs {
  import opened Wrappers
  import opened Clock
  import opened Wills
  import opened Invariants

  /** What reaches the service: calls, and the two handlers that decide before calling. */
  datatype Request =
    | Direct(call: Call)
    | ExecutorGet(id: WillId, caller: Flt, now: Time)
    | SendReminder(id: WillId, checkedAt: Time, recordedAt: Time)

  datatype Response =
    | Replied(outcome: Outcome)
    | Served(will: Will) | CoolingOff(unlockAfter: Option<Time>) | NotUnlocked | NotNominated | Missing | ServerError
    | ReminderSent | ReminderSkipped | NotLive

  datatype Reply = Reply(table: Table, response: Response, events: seq<Event>)

  /** The executor gate on a loaded will. */
  function Gate(w: Will, caller: Flt): Response {
    if w.status != UnlockedAtDeath then NotUnlocked
    else if !IsNominated(w.origin.executors, caller) then NotNominated
    else Served(w)
  }

  function GetWill(t: Table, id: WillId, caller: Flt, now: Time): Reply {
    if id !in t.rows then Reply(t, Missing, [])
    else
      var w := t.rows[id];
      if w.status != DeathNotified then Reply(t, Gate(w, caller), [])
      else if w.unlockAfter.None? || now < w.unlockAfter.value then Reply(t, CoolingOff(w.unlockAfter), [])
      else
        var s := Apply(t, CompleteUnlock(id, now));
        if s.outcome != Done || id !in s.table.rows then Reply(s.table, ServerError, s.events)
        else Reply(s.table, Gate(s.table.rows[id], caller), s.events)
  }

  function Remind(t: Table, id: WillId, checkedAt: Time, recordedAt: Time): Reply {
    if id !in t.rows then Reply(t, Missing, [])
    else
      var w := t.rows[id];
      if w.status != Draft && w.status != Locked then Reply(t, NotLive, [])
      else if w.livenessNotifiedAt.Some? && checkedAt - w.livenessNotifiedAt.value < DAY
          then Reply(t, ReminderSkipped, [])
      else
        var s := Apply(t, RecordReminder(id, recordedAt));
        Reply(s.table, if s.outcome == Done then ReminderSent else ServerError, s.events)
  }

  function Handle(t: Table, q: Request): Reply {
    match q
    case Direct(c) => var s := Apply(t, c); Reply(s.table, Replied(s.outcome), s.events)
    case ExecutorGet(id, caller, now) => GetWill(t, id, caller, now)
    case SendReminder(id, checkedAt, recordedAt) => Remind(t, id, checkedAt, recordedAt)
  }

  /** The table after a run from the empty database. */
  function After(run: seq<Request>): Table {
    if run == [] then EMPTY else Handle(After(run[..|run| - 1]), run[|run| - 1]).table
  }

  /** Every audit event of a run, in the order it happened. */
  function History(run: seq<Request>): seq<Event> {
    if run == [] then []
    else History(run[..|run| - 1]) + Handle(After(run[..|run| - 1]), run[|run| - 1]).events
  }

  /** The reply to request k of a run. */
  function ReplyTo(run: seq<Request>, k: nat): Reply
    requires k < |run|
  {
    Handle(After(run[..k]), run[k])
  }

  /** What a run answered, request by request. */
  function Responses(run: seq<Request>): (rs: seq<Response>)
    ensures |rs| == |run|
  {
    if run == [] then []
    else Responses(run[..|run| - 1]) + [Handle(After(run[..|run| - 1]), run[|run| - 1]).response]
  }

  lemma {:induction false} ResponsesPrefix(run: seq<Request>, n: nat)
    requires n <= |run|
    ensures Responses(run[..n]) == Responses(run)[..n]
  {
    if n < |run| {
      ResponsesPrefix(run[..|run| - 1], n);
      assert run[..|run| - 1][..n] == run[..n];
    } else {
      assert run[..n] == run;
    }
  }

  lemma ResponseAt(run: seq<Request>, k: nat)
    requires k < |run|
    ensures Responses(run)[k] == ReplyTo(run, k).response
  {
    var upTo := run[..k + 1];
    assert Responses(run)[k] == Responses(upTo)[k] by {
      ResponsesPrefix(run, k + 1);
    }
    LastResponse(upTo);
    SameReply(run, k);
  }

  lemma SameReply(run: seq<Request>, k: nat)
    requires k < |run|
    ensures ReplyTo(run[..k + 1], k) == ReplyTo(run, k)
  {
    assert run[..k + 1][..k] == run[..k] && run[..k + 1][k] == run[k];
  }

  lemma LastResponse(run: seq<Request>)
    requires run != []
    ensures Responses(run)[|run| - 1] == ReplyTo(run, |run| - 1).response
  {
  }

  /** Which timestamps a will carries in each state.  Unlocking clears locked_at; a notice without
      delay sets neither death_notified_at nor unlock_after. */
  ghost predicate Timed(w: Will) {
    && (w.deathNotifiedAt.Some? <==> w.unlockAfter.Some?)
    && (w.unlockAfter.Some? ==> w.unlockAfter.value % MICRO == 0)
    && match w.status
       case Draft => w.lockedAt.None? && w.unlockedAt.None? && w.unlockAfter.None?
       case Locked => w.lockedAt.Some? && w.unlockedAt.None? && w.unlockAfter.None?
       case DeathNotified => w.lockedAt.Some? && w.unlockedAt.None? && w.unlockAfter.Some?
       case UnlockedAtDeath => w.lockedAt.None? && w.unlockedAt.Some?
           && (w.unlockAfter.Some? ==> w.unlockAfter.value <= w.unlockedAt.value)
       case Superseded => w.unlockedAt.None? && w.unlockAfter.None?
  }

  ghost predicate RowOrderly(w: Will) {
    Timed(w) && (w.supersededBy.Some? <==> w.status == Superseded)
  }

  /** No testator has two active wills. */
  ghost predicate OneActive(t: Table) {
    forall i, j, flt :: i in t.rows && j in t.rows && IsActive(t.rows[i], flt) && IsActive(t.rows[j], flt) ==> i == j
  }

  ghost predicate Orderly(t: Table) {
    OneActive(t) && forall id :: id in t.rows ==> RowOrderly(t.rows[id])
  }

  lemma UpdatedRowOrderly(c: Call, w: Will)
    requires !c.CreateDraft? && !c.CreateCodicil? && RowOrderly(w)
    requires !c.RecordReminder? ==> CheckRow(c, w, |w.witnesses|) == Done
    ensures RowOrderly(Updated(c, w))
    ensures forall flt :: IsActive(Updated(c, w), flt) ==> IsActive(w, flt)
  {
    if c.NotifyDeath? {
      StoredKeepsDays(c.now, c.delayDays);
      StoredKeepsDays(c.now + c.delayDays * DAY, 0);
    }
    if c.CompleteUnlock? && w.unlockAfter.Some? {
      StoredMonotone(w.unlockAfter.value, c.now);
    }
  }

  lemma FewerActive(t: Table, t': Table)
    requires OneActive(t)
    requires forall id, flt :: id in t'.rows && IsActive(t'.rows[id], flt) ==> id in t.rows && IsActive(t.rows[id], flt)
    ensures OneActive(t')
  {
  }

  // Superseding all active wills of the testator leaves the new one alone.
  lemma DraftOrderly(t: Table, c: Call)
    requires c.CreateDraft? && Durable(t) && Orderly(t) && c.newId !in t.rows
    ensures Orderly(Write(t, c, ReadOf(t, c)))
  {
    var flt0, t' := c.testator.flt, Write(t, c, ReadOf(t, c));
    forall id, flt | id in t'.rows && IsActive(t'.rows[id], flt)
      ensures if flt == flt0 then id == c.newId else id in t.rows && IsActive(t.rows[id], flt)
    {
    }
    forall id | id in t'.rows ensures RowOrderly(t'.rows[id]) {
      if id in t.rows {
        assert RowOrderly(t.rows[id]);
      }
    }
  }

  lemma CodicilOrderly(t: Table, c: Call)
    requires c.CreateCodicil? && Durable(t) && Orderly(t) && c.newId !in t.rows
    ensures Orderly(Write(t, c, ReadOf(t, c)))
  {
  }

  lemma UpdateOrderly(t: Table, c: Call)
    requires !c.CreateDraft? && !c.CreateCodicil? && Orderly(t) && c.id in t.rows
    requires Check(c, ReadOf(t, c)) == Done
    ensures Orderly(Write(t, c, ReadOf(t, c)))
  {
    var w := t.rows[c.id];
    UpdatedRowOrderly(c, w);
    FewerActive(t, t.(rows := t.rows[c.id := Updated(c, w)]));
  }

  lemma ApplyOrderly(t: Table, c: Call)
    requires Durable(t) && Orderly(t)
    ensures Orderly(Apply(t, c).table)
  {
    var r := ReadOf(t, c);
    if Check(c, r) == Done && !KeyClash(t, c) {
      if c.CreateDraft? {
        DraftOrderly(t, c);
      } else if c.CreateCodicil? {
        CodicilOrderly(t, c);
      } else if c.id in t.rows {
        UpdateOrderly(t, c);
      }
    }
  }

  /** The one service call a request can lead to. */
  function CallOf(q: Request): Call {
    match q
    case Direct(c) => c
    case ExecutorGet(id, _, now) => CompleteUnlock(id, now)
    case SendReminder(id, _, at) => RecordReminder(id, at)
  }

  /** A request either leaves the table and the log alone or does exactly what its call does. */
  lemma HandleIsCall(t: Table, q: Request)
    ensures || (Handle(t, q).table == t && Handle(t, q).events == [])
            || (Handle(t, q).table == Apply(t, CallOf(q)).table && Handle(t, q).events == Apply(t, CallOf(q)).events)
  {
  }

  lemma HandleKeepsInvariants(t: Table, q: Request)
    requires Durable(t) && Orderly(t)
    ensures Durable(Handle(t, q).table) && Orderly(Handle(t, q).table) && Grows(t, Handle(t, q).table)
  {
    HandleIsCall(t, q);
    GrowsReflexive(t);
    ApplyDurable(t, CallOf(q));
    ApplyOrderly(t, CallOf(q));
  }

  /** Every table a run of non-overlapping requests reaches is durable and orderly. */
  lemma {:induction false} RunKeepsInvariants(run: seq<Request>)
    ensures Durable(After(run)) && Orderly(After(run))
  {
    if run != [] {
      RunKeepsInvariants(run[..|run| - 1]);
      HandleKeepsInvariants(After(run[..|run| - 1]), run[|run| - 1]);
    }
  }

  lemma StepGrows(run: seq<Request>)
    requires run != []
    ensures Grows(After(run[..|run| - 1]), After(run))
  {
    RunKeepsInvariants(run[..|run| - 1]);
    HandleKeepsInvariants(After(run[..|run| - 1]), run[|run| - 1]);
  }

  /** Between two moments of a run, rows only appear and grow. */
  lemma {:induction false} RunGrows(run: seq<Request>, i: nat, j: nat)
    requires i <= j <= |run|
    ensures Grows(After(run[..i]), After(run[..j]))
    decreases j
  {
    if i == j {
      GrowsReflexive(After(run[..i]));
    } else {
      RunGrows(run, i, j - 1);
      assert run[..j][..j - 1] == run[..j - 1];
      StepGrows(run[..j]);
      GrowsTransitive(After(run[..i]), After(run[..j - 1]), After(run[..j]));
    }
  }
}
