/** What the two deciding handlers answer, stage by stage, and who passes the executor gate. */
module Answers {
  import opened Wrappers
  import opened Clock
  import opened Wills
  import opened Runs

  /** The FLTs captured for the executors of a will. */
  function CapturedFlts(executors: seq<Executor>): set<Flt> {
    set e | e in executors && e.flt != "" :: e.flt
  }

  /** Nominated is who is among the captured FLTs, or anyone if none was captured. */
  lemma GateExact(executors: seq<Executor>, flt: Flt)
    ensures IsNominated(executors, flt) <==> CapturedFlts(executors) == {} || flt in CapturedFlts(executors)
  {
    assert forall k :: 0 <= k < |executors| ==> executors[k] in executors;
    if CapturedFlts(executors) != {} {
      var f :| f in CapturedFlts(executors);
      var e :| e in executors && e.flt != "" && e.flt == f;
    } else {
      forall e | e in executors ensures e.flt == "" {
        assert e.flt == "" || e.flt in CapturedFlts(executors);
      }
    }
  }

  /** The vault is open: unlocked, or notified and past its unlock time. */
  predicate Open(w: Will, now: Time) {
    || w.status == UnlockedAtDeath
    || (w.status == DeathNotified && w.unlockAfter.Some? && w.unlockAfter.value <= now)
  }

  /** What a caller is shown of an open will: the row itself, or the row as this request unlocks it. */
  predicate Shown(w: Will, v: Will, now: Time) {
    if w.status == UnlockedAtDeath then v == w
    else v == w.(status := UnlockedAtDeath, unlockedAt := Some(Stored(now)), lockedAt := None)
  }

  /** The executor's request, answer by answer: without the row it is missing; served with the row exactly if
      the vault is open and the caller nominated; refused to others exactly if it is open; told to wait, with
      the row's own unlock time, exactly if notified and not due; and not unlocked in every other stage. */
  lemma GetWillExact(t: Table, id: WillId, caller: Flt, now: Time)
    ensures var answer := GetWill(t, id, caller, now).response;
            && (answer == Missing <==> id !in t.rows)
            && (id in t.rows ==>
                  var w := t.rows[id];
                  && (answer.Served? <==> Open(w, now) && IsNominated(w.origin.executors, caller))
                  && (answer.Served? ==> Shown(w, answer.will, now))
                  && (answer == NotNominated <==> Open(w, now) && !IsNominated(w.origin.executors, caller))
                  && (answer.CoolingOff? <==> w.status == DeathNotified && !Open(w, now))
                  && (answer.CoolingOff? ==> answer.unlockAfter == w.unlockAfter)
                  && (answer == NotUnlocked <==> w.status == Draft || w.status == Locked || w.status == Superseded))
  {
  }

  /** It changes nothing but a will that has come due, which it unlocks whoever asks, and records just that. */
  lemma GetWillWrites(t: Table, id: WillId, caller: Flt, now: Time)
    ensures var reply := GetWill(t, id, caller, now);
            if id in t.rows && t.rows[id].status == DeathNotified && Open(t.rows[id], now) then
              && reply.table.order == t.order && reply.table.rows.Keys == t.rows.Keys
              && Shown(t.rows[id], reply.table.rows[id], now)
              && (forall other :: other in t.rows && other != id ==> reply.table.rows[other] == t.rows[other])
              && reply.events == [Event(id, VaultUnlocked, "", "")]
            else reply.table == t && reply.events == []
  {
  }

  function Reminded(w: Will, at: Time): Will {
    w.(livenessNotifiedAt := Some(Stored(at)))
  }

  /** The reminder request, answer by answer: skipped within 24 hours of the last reminder, and sent otherwise,
      to drafts and locked wills alone; sending stores the second clock reading and records the reminder. */
  lemma RemindExact(t: Table, id: WillId, checkedAt: Time, recordedAt: Time)
    ensures var reply := Remind(t, id, checkedAt, recordedAt);
            && (reply.response == Missing <==> id !in t.rows)
            && (id in t.rows ==>
                  var w := t.rows[id];
                  var live := w.status == Draft || w.status == Locked;
                  var recent := w.livenessNotifiedAt.Some? && checkedAt < w.livenessNotifiedAt.value + 24 * HOUR;
                  && (reply.response == NotLive <==> !live)
                  && (reply.response == ReminderSkipped <==> live && recent)
                  && (reply.response == ReminderSent <==> live && !recent))
            && (if reply.response == ReminderSent then
                  && id in t.rows
                  && reply.table == t.(rows := t.rows[id := Reminded(t.rows[id], recordedAt)])
                  && reply.events == [Event(id, LivenessReminderSent, "", "")]
                else reply.table == t && reply.events == [])
  {
  }
}
