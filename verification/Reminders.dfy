/** The spacing of liveness reminders over a run of non-overlapping requests. */
module Reminders {
  import opened Wrappers
  import opened Clock
  import opened Wills
  import opened Invariants
  import opened Runs

  predicate Reminds(q: Request, id: WillId, response: Response) {
    q.SendReminder? && q.id == id && response == ReminderSent
  }

  /** The reminder times a run stored for one will, oldest first. */
  function Recorded(run: seq<Request>, id: WillId): seq<Time> {
    if run == [] then []
    else
      var before, q := run[..|run| - 1], run[|run| - 1];
      Recorded(before, id) + (if Reminds(q, id, Handle(After(before), q).response) then [Stored(q.recordedAt)] else [])
  }

  /** Reminders go out through SendReminder alone, whose second clock reading is not before its first. */
  predicate ClockedReminders(run: seq<Request>) {
    forall k :: 0 <= k < |run| ==>
      match run[k]
      case Direct(c) => !c.RecordReminder?
      case SendReminder(_, checkedAt, recordedAt) => checkedAt <= recordedAt
      case _ => true
  }

  ghost predicate DayApart(rs: seq<Time>) {
    && (forall k :: 0 <= k < |rs| ==> rs[k] % MICRO == 0)
    && (forall k :: 0 < k < |rs| ==> rs[k] - rs[k - 1] >= DAY)
  }

  // What the reminder column holds after the reminders rs.
  function Latest(rs: seq<Time>): Option<Time> {
    if rs == [] then None else Some(rs[|rs| - 1])
  }

  function ReminderColumn(t: Table, id: WillId): Option<Time> {
    if id in t.rows then t.rows[id].livenessNotifiedAt else None
  }

  lemma CallKeepsReminder(t: Table, c: Call, id: WillId)
    requires Durable(t) && (c.RecordReminder? ==> c.id != id)
    ensures ReminderColumn(Apply(t, c).table, id) == ReminderColumn(t, id)
  {
    if !KeyClash(t, c) {
      WriteKeepsReminder(t, c, ReadOf(t, c), id);
    }
    assert Apply(t, c).table == t || (!KeyClash(t, c) && Apply(t, c).table == Write(t, c, ReadOf(t, c)));
  }

  lemma WriteKeepsReminder(t: Table, c: Call, r: Read, id: WillId)
    requires (c.RecordReminder? ==> c.id != id) && !KeyClash(t, c)
    ensures ReminderColumn(Write(t, c, r), id) == ReminderColumn(t, id)
  {
  }

  lemma RemindStep(t: Table, q: Request, id: WillId)
    requires q.SendReminder? && q.id == id
    ensures var reply := Handle(t, q);
            if reply.response == ReminderSent then
              && id in t.rows && ReminderColumn(reply.table, id) == Some(Stored(q.recordedAt))
              && (ReminderColumn(t, id).Some? ==> q.checkedAt - ReminderColumn(t, id).value >= DAY)
            else reply.table == t
  {
  }

  lemma NextReminder(rs: seq<Time>, checkedAt: Time, recordedAt: Time)
    requires DayApart(rs) && checkedAt <= recordedAt && (rs != [] ==> checkedAt - rs[|rs| - 1] >= DAY)
    ensures DayApart(rs + [Stored(recordedAt)])
  {
  }

  // One request, from a column that holds the last of the reminders so far.
  lemma ReminderKept(t: Table, q: Request, id: WillId, rs: seq<Time>)
    requires Durable(t) && ClockedReminders([q]) && ReminderColumn(t, id) == Latest(rs) && DayApart(rs)
    ensures var reply := Handle(t, q);
            var rs' := rs + (if Reminds(q, id, reply.response) then [Stored(q.recordedAt)] else []);
            ReminderColumn(reply.table, id) == Latest(rs') && DayApart(rs')
  {
    assert [q][0] == q;
    if q.SendReminder? && q.id == id {
      RemindStep(t, q, id);
      if Handle(t, q).response == ReminderSent {
        NextReminder(rs, q.checkedAt, q.recordedAt);
      } else {
        assert rs + [] == rs;
      }
    } else {
      HandleIsCall(t, q);
      CallKeepsReminder(t, CallOf(q), id);
      assert rs + [] == rs;
    }
  }

  /** The row remembers the last reminder, and reminders are at least a day apart. */
  lemma {:induction false} RemindersSpaced(run: seq<Request>, id: WillId)
    requires ClockedReminders(run)
    ensures ReminderColumn(After(run), id) == Latest(Recorded(run, id)) && DayApart(Recorded(run, id))
  {
    if run != [] {
      var n := |run| - 1;
      assert ClockedReminders(run[..n]) && ClockedReminders([run[n]]);
      RemindersSpaced(run[..n], id);
      RunKeepsInvariants(run[..n]);
      ReminderKept(After(run[..n]), run[n], id, Recorded(run[..n], id));
    }
  }

  lemma {:induction false} DaysApart(rs: seq<Time>, i: nat, j: nat)
    requires DayApart(rs) && i <= j < |rs|
    ensures rs[j] - rs[i] >= (j - i) * DAY
  {
    if i < j {
      DaysApart(rs, i, j - 1);
    }
  }

  lemma WholeDays(n: nat, window: nat)
    requires n * DAY <= window
    ensures n <= window / DAY
  {
  }

  /** Any two reminders recorded for a will are as many days apart as there are reminders between
      them, so a window of length L holds at most L / 24h + 1. */
  lemma RemindersAreDaysApart(run: seq<Request>, id: WillId, i: nat, j: nat, window: nat)
    requires ClockedReminders(run) && i <= j < |Recorded(run, id)|
    ensures Recorded(run, id)[j] - Recorded(run, id)[i] >= (j - i) * DAY
    ensures Recorded(run, id)[j] - Recorded(run, id)[i] <= window ==> j - i + 1 <= window / DAY + 1
  {
    RemindersSpaced(run, id);
    DaysApart(Recorded(run, id), i, j);
    if Recorded(run, id)[j] - Recorded(run, id)[i] <= window {
      WholeDays(j - i, window);
    }
  }
}
