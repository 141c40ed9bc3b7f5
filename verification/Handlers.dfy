/** The two handlers that decide before they call: the executor's view of a will and the liveness
    reminder, proved against the requests of module Runs. */
module Handlers {
  import opened Clock
  import opened Wills
  import opened Runs
  import opened AuditChain
  import opened WillServices

  /** The FLT gate: remember whether any FLT was stored, accept the first that matches. */
  method IsNominatedExecutor(executors: seq<Executor>, flt: Flt) returns (nominated: bool)
    ensures nominated <==> IsNominated(executors, flt)
  {
    var anyFltStored := false;
    for k := 0 to |executors|
      invariant !anyFltStored <==> forall j :: 0 <= j < k ==> executors[j].flt == ""
      invariant forall j :: 0 <= j < k && executors[j].flt != "" ==> executors[j].flt != flt
    {
      if executors[k].flt != "" {
        anyFltStored := true;
        if executors[k].flt == flt {
          return true;
        }
      }
    }
    return !anyFltStored;
  }

  /** The executor query drops its errors and hands on the rows delivered so far.  A short read keeps
      out everyone the full list keeps out if and only if it still contains a stored FLT, or the full
      list has none to lose. */
  lemma ShortExecutorReadExact(executors: seq<Executor>, n: nat)
    requires n <= |executors|
    ensures (forall flt :: IsNominated(executors[..n], flt) ==> IsNominated(executors, flt))
       <==> ((exists k :: 0 <= k < n && executors[k].flt != "")
           || (forall k :: 0 <= k < |executors| ==> executors[k].flt == ""))
  {
    if k :| 0 <= k < n && executors[k].flt != "" {
      assert executors[..n][k] == executors[k];
      forall flt | IsNominated(executors[..n], flt) ensures IsNominated(executors, flt) {
        var j :| 0 <= j < n && executors[..n][j].flt != "" && executors[..n][j].flt == flt;
        assert executors[j].flt == flt;
      }
    } else if k :| 0 <= k < |executors| && executors[k].flt != "" {
      var stranger := Stranger(executors);
      assert IsNominated(executors[..n], stranger) && !IsNominated(executors, stranger);
    }
  }

  // An FLT nobody on the list has: longer than all of theirs.
  function Stranger(executors: seq<Executor>): (flt: Flt)
    ensures flt != "" && forall k :: 0 <= k < |executors| ==> |executors[k].flt| < |flt|
  {
    if executors == [] then "x" else Stranger(executors[..|executors| - 1]) + executors[|executors| - 1].flt + "x"
  }

  class ExecutorHandler {
    const willSvc: WillService

    constructor (willSvc: WillService)
      ensures this.willSvc == willSvc
    {
      this.willSvc := willSvc;
    }

    /** Loads the will, completes a due unlock and loads it again, then applies the gates. */
    method GetWill(id: WillId, caller: Flt, now: Time, dbOk: bool, env: nat -> Surroundings)
        returns (response: Response)
      modifies willSvc.repo, willSvc.audit.repo
      ensures var reply := Runs.GetWill(old(willSvc.repo.wills), id, caller, now);
              if dbOk || reply.events == []
              then && willSvc.repo.wills == reply.table && response == reply.response
                   && willSvc.audit.repo.rows
                   == RecordAll(willSvc.audit.hash, old(willSvc.audit.repo.rows), reply.events, env)
              else && response == ServerError && willSvc.repo.wills == old(willSvc.repo.wills)
                   && willSvc.audit.repo.rows == old(willSvc.audit.repo.rows)
    {
      var will := willSvc.repo.GetByID(id);
      if will.None? {
        return Missing;
      }
      if will.value.status == DeathNotified {
        if will.value.unlockAfter.Some? && will.value.unlockAfter.value <= now {
          var outcome := willSvc.CompleteUnlock(id, now, dbOk, env);
          if outcome != Done {
            return ServerError;
          }
          will := willSvc.repo.GetByID(id);
        } else {
          return CoolingOff(will.value.unlockAfter);
        }
      }
      if will.value.status != UnlockedAtDeath {
        return NotUnlocked;
      }
      var nominated := IsNominatedExecutor(will.value.origin.executors, caller);
      return if nominated then Response.Served(will.value) else NotNominated;
    }
  }

  class LivenessHandler {
    const willSvc: WillService

    constructor (willSvc: WillService)
      ensures this.willSvc == willSvc
    {
      this.willSvc := willSvc;
    }

    /** Only drafts and locked wills are reminded, and none twice within 24 hours. */
    method SendReminder(id: WillId, checkedAt: Time, recordedAt: Time, dbOk: bool, env: nat -> Surroundings)
        returns (response: Response)
      modifies willSvc.repo, willSvc.audit.repo
      ensures var reply := Remind(old(willSvc.repo.wills), id, checkedAt, recordedAt);
              if dbOk || reply.events == []
              then && willSvc.repo.wills == reply.table && response == reply.response
                   && willSvc.audit.repo.rows
                   == RecordAll(willSvc.audit.hash, old(willSvc.audit.repo.rows), reply.events, env)
              else && response == ServerError && willSvc.repo.wills == old(willSvc.repo.wills)
                   && willSvc.audit.repo.rows == old(willSvc.audit.repo.rows)
    {
      var will := willSvc.repo.GetByID(id);
      if will.None? {
        return Missing;
      }
      if will.value.status != Draft && will.value.status != Locked {
        return NotLive;
      }
      if will.value.livenessNotifiedAt.Some? && checkedAt - will.value.livenessNotifiedAt.value < DAY {
        return ReminderSkipped;
      }
      var outcome := willSvc.RecordLivenessReminder(id, recordedAt, dbOk, env);
      return if outcome == Done then ReminderSent else ServerError;
    }
  }
}
