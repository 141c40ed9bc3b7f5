/** Reminder requests that overlap.  SendReminder loads the will, looks at the time of the last reminder,
    and records the new one later, without looking again. */
module OverlappingReminders {
  import opened Wrappers
  import opened Clock
  import opened Wills
  import opened Invariants
  import opened Runs
  import opened Reminders
  import opened Stretches

  /** A request whose look at the will let it pass: when it looked, and what it saw in the reminder column. */
  datatype Passed = Passed(at: Time, saw: Option<Time>)

  datatype System = System(table: Table, sent: seq<Time>, passed: map<nat, Passed>)

  /** A request looks, or records; or any other call is served. */
  datatype Move = Look(pid: nat, at: Time) | Record(pid: nat, at: Time) | Serve(call: Call)

  const INITIAL := System(EMPTY, [], map[])

  /** The handler's test: a draft or locked will, and no reminder within 24 hours. */
  predicate LetsPass(t: Table, id: WillId, at: Time) {
    && id in t.rows && (t.rows[id].status == Draft || t.rows[id].status == Locked)
    && (ReminderColumn(t, id).Some? ==> at - ReminderColumn(t, id).value >= DAY)
  }

  /** The moves of the requests for one will. */
  function Next(s: System, m: Move, id: WillId): System {
    match m
    case Look(pid, at) =>
      if pid in s.passed || !LetsPass(s.table, id, at) then s
      else s.(passed := s.passed[pid := Passed(at, ReminderColumn(s.table, id))])
    case Record(pid, at) =>
      if pid !in s.passed then s
      else System(Apply(s.table, RecordReminder(id, at)).table, s.sent + [Stored(at)], s.passed - {pid})
    case Serve(c) =>
      if c.RecordReminder? then s else s.(table := Apply(s.table, c).table)
  }

  function Exec(moves: seq<Move>, id: WillId): System {
    if moves == [] then INITIAL else Next(Exec(moves[..|moves| - 1], id), moves[|moves| - 1], id)
  }

  /** Look and record back to back, they are the handler on one request. */
  lemma LookThenRecord(s: System, id: WillId, pid: nat, at: Time, recordedAt: Time)
    requires pid !in s.passed
    ensures Next(Next(s, Look(pid, at), id), Record(pid, recordedAt), id).table
         == Remind(s.table, id, at, recordedAt).table
    ensures LetsPass(s.table, id, at) <==> Remind(s.table, id, at, recordedAt).response == ReminderSent
  {
  }

  // What a request saw let it pass.
  predicate PassedSound(p: Passed) {
    p.saw.Some? ==> p.at - p.saw.value >= DAY
  }

  ghost predicate Sound(s: System, id: WillId) {
    && Durable(s.table)
    && ((s.passed.Keys != {} || s.sent != []) ==> id in s.table.rows)
    && ReminderColumn(s.table, id) == Latest(s.sent)
    && (forall k :: 0 <= k < |s.sent| ==> s.sent[k] % MICRO == 0)
    && (forall pid :: pid in s.passed ==> PassedSound(s.passed[pid]))
  }

  lemma RecordedColumn(t: Table, id: WillId, at: Time)
    requires Durable(t) && id in t.rows
    ensures var t' := Apply(t, RecordReminder(id, at)).table;
            Durable(t') && id in t'.rows && ReminderColumn(t', id) == Some(Stored(at))
  {
    ApplyDurable(t, RecordReminder(id, at));
  }

  lemma RecordSound(s: System, m: Move, id: WillId)
    requires Sound(s, id) && m.Record?
    ensures Sound(Next(s, m, id), id)
  {
    if m.pid in s.passed {
      assert s.passed.Keys != {};
      RecordedColumn(s.table, id, m.at);
      StoredKeepsDays(m.at, 0);
    }
  }

  lemma ServeSound(s: System, m: Move, id: WillId)
    requires Sound(s, id) && m.Serve?
    ensures Sound(Next(s, m, id), id)
  {
    ApplyDurable(s.table, m.call);
    if !m.call.RecordReminder? {
      CallKeepsReminder(s.table, m.call, id);
    }
  }

  lemma NextSound(s: System, m: Move, id: WillId)
    requires Sound(s, id)
    ensures Sound(Next(s, m, id), id)
  {
    match m
    case Look(_, _) =>
    case Record(_, _) => RecordSound(s, m, id);
    case Serve(_) => ServeSound(s, m, id);
  }

  lemma {:induction false} ExecSound(moves: seq<Move>, id: WillId)
    ensures Sound(Exec(moves, id), id)
  {
    if moves != [] {
      ExecSound(moves[..|moves| - 1], id);
      NextSound(Exec(moves[..|moves| - 1], id), moves[|moves| - 1], id);
    }
  }

  /** The record comes within a day of the reminder the row now shows. */
  predicate TooClose(s: System, m: Move, id: WillId) {
    && m.Record? && m.pid in s.passed
    && ReminderColumn(s.table, id).Some? && Stored(m.at) - ReminderColumn(s.table, id).value < DAY
  }

  /** Such a record has been overtaken: another one was written since its request looked. */
  lemma TooCloseIsOvertaken(moves: seq<Move>, m: Move, id: WillId)
    requires var s := Exec(moves, id); TooClose(s, m, id) && s.passed[m.pid].at <= m.at
    ensures ReminderColumn(Exec(moves, id).table, id) != Exec(moves, id).passed[m.pid].saw
  {
    ExecSound(moves, id);
    assert PassedSound(Exec(moves, id).passed[m.pid]);
  }

  lemma AppendDayApart(rs: seq<Time>, at: Time)
    ensures DayApart(rs + [Stored(at)]) <==> DayApart(rs) && (rs != [] ==> Stored(at) - rs[|rs| - 1] >= DAY)
  {
    var all := rs + [Stored(at)];
    assert forall k :: 0 <= k < |rs| ==> all[k] == rs[k];
    if DayApart(all) {
      assert rs != [] ==> all[|rs|] - all[|rs| - 1] >= DAY;
      forall k | 0 <= k < |rs| ensures rs[k] % MICRO == 0 && (k > 0 ==> rs[k] - rs[k - 1] >= DAY) {
        assert all[k] % MICRO == 0 && (k > 0 ==> all[k] - all[k - 1] >= DAY);
      }
    }
  }

  predicate TooCloseAt(moves: seq<Move>, k: nat, id: WillId)
    requires k < |moves|
  {
    TooClose(Exec(moves[..k], id), moves[k], id)
  }

  lemma NextSpaced(s: System, m: Move, id: WillId)
    requires Sound(s, id)
    ensures DayApart(Next(s, m, id).sent) <==> DayApart(s.sent) && !TooClose(s, m, id)
  {
    if m.Record? {
      AppendDayApart(s.sent, m.at);
    }
  }

  lemma SpacedStep(moves: seq<Move>, k: nat, id: WillId)
    requires k < |moves|
    ensures DayApart(Exec(moves[..k + 1], id).sent)
       <==> DayApart(Exec(moves[..k], id).sent) && !TooCloseAt(moves, k, id)
  {
    ExecStep(moves, k, id);
    ExecSound(moves[..k], id);
    NextSpaced(Exec(moves[..k], id), moves[k], id);
  }

  lemma ExecStep(moves: seq<Move>, k: nat, id: WillId)
    requires k < |moves|
    ensures Exec(moves[..k + 1], id) == Next(Exec(moves[..k], id), moves[k], id)
  {
    assert moves[..k + 1][..k] == moves[..k];
  }

  /** Reminders sent by overlapping requests are a day apart if and only if no record comes within a day of
      the reminder the row shows by then. */
  lemma SpacedExact(moves: seq<Move>, n: nat, id: WillId)
    requires n <= |moves|
    ensures DayApart(Exec(moves[..n], id).sent) <==> forall k: nat :: k < n ==> !TooCloseAt(moves, k, id)
  {
    var holds := (k: nat) => k <= |moves| && DayApart(Exec(moves[..k], id).sent);
    var good := (k: nat) => k < |moves| && !TooCloseAt(moves, k, id);
    forall k: nat | k < n ensures holds(k + 1) <==> holds(k) && good(k) {
      SpacedStep(moves, k, id);
    }
    assert Exec(moves[..0], id).sent == [];
    KeptAlong(holds, good, n);
    assert forall k: nat :: k < n ==> (good(k) <==> !TooCloseAt(moves, k, id));
  }

  /** Two requests that look before either records send two reminders at once. */
  lemma TwoRemindersAtOnce(s: System, id: WillId, p: nat, q: nat, at: Time)
    requires p !in s.passed && q !in s.passed && p != q && LetsPass(s.table, id, at)
    ensures var looked := Next(Next(s, Look(p, at), id), Look(q, at), id);
            var first := Next(looked, Record(p, at), id);
            && TooClose(first, Record(q, at), id)
            && Next(first, Record(q, at), id).sent == s.sent + [Stored(at), Stored(at)]
  {
  }
}
