/** What holds over whole runs of the will lifecycle when requests do not overlap. */
module Lifecycle {
  import opened Wrappers
  import opened Clock
  import opened Wills
  import opened Invariants
  import opened Runs

  // ---- Supersession and codicils ----

  /** The will at the end of the supersession links from id. */
  ghost function LastWill(t: Table, id: WillId): (last: WillId)
    requires Durable(t) && id in t.rows
    ensures last in t.rows && t.rows[last].supersededBy.None? && t.rows[last].status != Superseded
    ensures SameTestator(t.rows[id], t.rows[last])
    ensures last != id ==> t.rows[id].origin.serial < t.rows[last].origin.serial && !t.rows[last].origin.isCodicil
    decreases |t.order| - t.rows[id].origin.serial
  {
    assert RowDurable(t, id);
    if t.rows[id].supersededBy.None? then id else LastWill(t, t.rows[id].supersededBy.value)
  }

  /** The wills a codicil amends, nearest first, up to one that is not itself a codicil. */
  ghost function Lineage(t: Table, id: WillId): (path: seq<WillId>)
    requires Durable(t) && id in t.rows
    ensures path != [] <==> t.rows[id].origin.isCodicil
    ensures forall k :: 0 <= k < |path| ==>
              && path[k] in t.rows && SameTestator(t.rows[id], t.rows[path[k]])
              && t.rows[path[k]].status != Draft
              && t.rows[path[k]].origin.serial < t.rows[id].origin.serial
              && (t.rows[path[k]].origin.isCodicil <==> k < |path| - 1)
    decreases t.rows[id].origin.serial
  {
    assert RowDurable(t, id);
    if t.rows[id].origin.parent.None? then []
    else
      var p := t.rows[id].origin.parent.value;
      [p] + Lineage(t, p)
  }

  /** In every run: a testator has at most one draft or locked will that is not a codicil; a will is
      superseded exactly when it names an heir; following heirs ends at a later, unsuperseded will of
      the same testator; and no codicil is ever superseded. */
  lemma SupersessionSound(run: seq<Request>, id: WillId, id': WillId)
    requires id in After(run).rows && id' in After(run).rows
    ensures Durable(After(run))
    ensures var t := After(run); var w, w' := t.rows[id], t.rows[id'];
            && (IsActive(w, w.origin.testator.flt) && IsActive(w', w.origin.testator.flt) ==> id == id')
            && (w.supersededBy.Some? <==> w.status == Superseded)
            && (LastWill(t, id) != id <==> w.status == Superseded)
            && (w.origin.isCodicil ==> w.status != Superseded)
  {
    RunKeepsInvariants(run);
    assert RowDurable(After(run), id);
  }

  // ---- How one request can move a will ----

  /** The fields of the lifecycle proper. */
  predicate SameStage(w: Will, w': Will) {
    w'.status == w.status && w'.deathNotifiedAt == w.deathNotifiedAt && w'.unlockAfter == w.unlockAfter
        && w'.unlockedAt == w.unlockedAt
  }

  predicate Seals(q: Request, done: bool, id: WillId, w: Will, w': Will) {
    q.Direct? && q.call.Lock? && q.call.id == id && done && w.status == Draft && w'.status == Locked
  }

  predicate Reports(q: Request, done: bool, id: WillId, w: Will, w': Will) {
    && q.Direct? && q.call.NotifyDeath? && q.call.id == id && done && w.status == Locked
    && CarriesLock(w', q.call) && w'.status == if q.call.delayDays == 0 then UnlockedAtDeath else DeathNotified
  }

  predicate Unlocks(q: Request, id: WillId, w: Will, w': Will) {
    var c := CallOf(q);
    && c.CompleteUnlock? && c.id == id && w.status == DeathNotified
        && (w.unlockAfter.Some? ==> w.unlockAfter.value <= c.now)
    && w'.status == UnlockedAtDeath && w'.unlockedAt == Some(Stored(c.now))
    && w'.unlockAfter == w.unlockAfter && w'.deathNotifiedAt == w.deathNotifiedAt
  }

  predicate Replaces(q: Request, w: Will, w': Will) {
    q.Direct? && q.call.CreateDraft? && IsActive(w, q.call.testator.flt) && w'.status == Superseded
  }

  /** The moves of the lifecycle, each with the only request that makes it. */
  predicate Moves(q: Request, done: bool, id: WillId, w: Will, w': Will) {
    Seals(q, done, id, w, w') || Reports(q, done, id, w, w') || Unlocks(q, id, w, w') || Replaces(q, w, w')
  }

  lemma UpdateMoves(c: Call, w: Will)
    requires !c.CreateDraft? && !c.CreateCodicil? && (!c.RecordReminder? ==> CheckRow(c, w, |w.witnesses|) == Done)
    requires w.status == Locked ==> w.unlockAfter.None?
    ensures SameStage(w, Updated(c, w))
         || Seals(Direct(c), true, c.id, w, Updated(c, w))
         || Reports(Direct(c), true, c.id, w, Updated(c, w))
         || Unlocks(Direct(c), c.id, w, Updated(c, w))
  {
    if c.NotifyDeath? {
      StoredKeepsDays(c.now, c.delayDays);
    }
  }

  lemma RequestMoves(t: Table, q: Request, id: WillId)
    requires id in t.rows && (t.rows[id].status == Locked ==> t.rows[id].unlockAfter.None?)
    ensures id in Handle(t, q).table.rows
    ensures SameStage(t.rows[id], Handle(t, q).table.rows[id])
         || Moves(q, Handle(t, q).response == Replied(Done), id, t.rows[id], Handle(t, q).table.rows[id])
  {
    var c := CallOf(q);
    HandleIsCall(t, q);
    if Check(c, ReadOf(t, c)) == Done && !c.CreateDraft? && !c.CreateCodicil? && c.id == id {
      UpdateMoves(c, t.rows[id]);
    }
  }

  /** A created will is a draft without lifecycle timestamps. */
  lemma RequestCreates(t: Table, q: Request, id: WillId)
    requires id !in t.rows && id in Handle(t, q).table.rows
    requires Durable(t)
    ensures Handle(t, q).table.rows[id].status == Draft && Handle(t, q).table.rows[id].livenessNotifiedAt.None?
    ensures q.Direct? && (q.call.CreateDraft? || q.call.CreateCodicil?)
  {
  }

  // ---- The time lock over a whole run ----

  /** Request i of the run sealed the will. */
  ghost predicate SealedAt(run: seq<Request>, i: nat, id: WillId) {
    i < |run| && run[i].Direct? && run[i].call.Lock? && run[i].call.id == id && Responses(run)[i] == Replied(Done)
  }

  /** Request j of the run reported the death. */
  ghost predicate ReportedAt(run: seq<Request>, j: nat, id: WillId) {
    j < |run| && run[j].Direct? && run[j].call.NotifyDeath? && run[j].call.id == id
        && Responses(run)[j] == Replied(Done)
  }

  /** w carries the time lock a death report sets. */
  predicate CarriesLock(w: Will, report: Call)
    requires report.NotifyDeath?
  {
    var at, days := Stored(report.now), report.delayDays;
    if days == 0 then w.unlockAfter.None? && w.unlockedAt == Some(at)
    else w.deathNotifiedAt == Some(at) && w.unlockAfter == Some(at + days * DAY)
  }

  ghost predicate NotifiedAt(run: seq<Request>, j: nat, id: WillId, w: Will) {
    ReportedAt(run, j, id) && CarriesLock(w, run[j].call)
  }

  ghost predicate Justified(run: seq<Request>, n: nat, id: WillId, w: Will) {
    && (w.status == Locked ==> exists i :: 0 <= i < n && SealedAt(run, i, id))
    && (w.status == DeathNotified || w.status == UnlockedAtDeath ==>
          exists i, j :: 0 <= i < j < n && SealedAt(run, i, id) && NotifiedAt(run, j, id, w))
  }

  lemma {:induction false} StagesJustified(run: seq<Request>, n: nat, id: WillId)
    requires n <= |run| && id in After(run[..n]).rows
    ensures Justified(run, n, id, After(run[..n]).rows[id])
    decreases n
  {
    if n > 0 {
      if id in After(run[..n - 1]).rows {
        StagesJustified(run, n - 1, id);
        NextStageJustified(run, n, id);
      } else {
        FirstStageJustified(run, n, id);
      }
    }
  }

  lemma LastRequest(run: seq<Request>, n: nat)
    requires 0 < n <= |run|
    ensures After(run[..n]) == Handle(After(run[..n - 1]), run[n - 1]).table
  {
    assert run[..n][..n - 1] == run[..n - 1] && run[..n][n - 1] == run[n - 1];
  }

  lemma FirstStageJustified(run: seq<Request>, n: nat, id: WillId)
    requires 0 < n <= |run| && id in After(run[..n]).rows && id !in After(run[..n - 1]).rows
    ensures Justified(run, n, id, After(run[..n]).rows[id])
  {
    LastRequest(run, n);
    RunKeepsInvariants(run[..n - 1]);
    RequestCreates(After(run[..n - 1]), run[n - 1], id);
  }

  lemma NextStageJustified(run: seq<Request>, n: nat, id: WillId)
    requires 0 < n <= |run| && id in After(run[..n]).rows && id in After(run[..n - 1]).rows
    requires Justified(run, n - 1, id, After(run[..n - 1]).rows[id])
    ensures Justified(run, n, id, After(run[..n]).rows[id])
  {
    var t := After(run[..n - 1]);
    LastRequest(run, n);
    RunKeepsInvariants(run[..n - 1]);
    assert RowDurable(t, id) && RowOrderly(t.rows[id]);
    ResponseAt(run, n - 1);
    RequestMoves(t, run[n - 1], id);
    StageJustified(run, n, id, t.rows[id], After(run[..n]).rows[id]);
  }

  lemma StageJustified(run: seq<Request>, n: nat, id: WillId, w: Will, w': Will)
    requires 0 < n <= |run| && Justified(run, n - 1, id, w)
    requires (w.status == Locked ==> w.unlockAfter.None?) && (w.status == DeathNotified ==> w.unlockAfter.Some?)
    requires SameStage(w, w') || Moves(run[n - 1], Responses(run)[n - 1] == Replied(Done), id, w, w')
    ensures Justified(run, n, id, w')
  {
    var q, done := run[n - 1], Responses(run)[n - 1] == Replied(Done);
    if SameStage(w, w') || Unlocks(q, id, w, w') {
      JustificationKept(run, n, id, w, w');
    } else if Seals(q, done, id, w, w') {
      SealJustified(run, n, id, w');
    } else if Reports(q, done, id, w, w') {
      ReportJustified(run, n, id, w, w');
    }
  }

  lemma SealJustified(run: seq<Request>, n: nat, id: WillId, w': Will)
    requires 0 < n <= |run| && SealedAt(run, n - 1, id) && w'.status == Locked
    ensures Justified(run, n, id, w')
  {
  }

  lemma ReportJustified(run: seq<Request>, n: nat, id: WillId, w: Will, w': Will)
    requires 0 < n <= |run| && Justified(run, n - 1, id, w) && w.status == Locked
    requires ReportedAt(run, n - 1, id) && CarriesLock(w', run[n - 1].call) && w'.status != Locked
    ensures Justified(run, n, id, w')
  {
    var i :| 0 <= i < n - 1 && SealedAt(run, i, id);
    assert NotifiedAt(run, n - 1, id, w');
  }

  lemma JustificationKept(run: seq<Request>, n: nat, id: WillId, w: Will, w': Will)
    requires 0 < n <= |run| && Justified(run, n - 1, id, w) && (w.status == DeathNotified ==> w.unlockAfter.Some?)
    requires || SameStage(w, w')
             || (w.status == DeathNotified && w'.status == UnlockedAtDeath
                 && w'.unlockAfter == w.unlockAfter && w'.deathNotifiedAt == w.deathNotifiedAt)
    ensures Justified(run, n, id, w')
  {
    if w.status == DeathNotified || w.status == UnlockedAtDeath {
      var i, j :| 0 <= i < j < n - 1 && SealedAt(run, i, id) && NotifiedAt(run, j, id, w);
      assert CarriesLock(w', run[j].call);
      assert NotifiedAt(run, j, id, w');
    } else if w.status == Locked {
      var i :| 0 <= i < n - 1 && SealedAt(run, i, id);
    }
  }

  lemma GetWillServes(t: Table, q: Request)
    requires Handle(t, q).response.Served?
    ensures q.ExecutorGet? && q.id in Handle(t, q).table.rows
        && Handle(t, q).table.rows[q.id] == Handle(t, q).response.will
    ensures Handle(t, q).response.will.status == UnlockedAtDeath
    ensures IsNominated(Handle(t, q).response.will.origin.executors, q.caller)
  {
  }

  /** The time lock: whenever the executor handler serves a will, that will was sealed, then its
      death was reported, and the stored unlock time is no earlier than the report plus the delay it
      asked for; and the caller passed the gate on the executors the will was created with. */
  lemma ServedOnlyAfterTimeLock(run: seq<Request>, k: nat)
    requires k < |run| && Responses(run)[k].Served?
    ensures run[k].ExecutorGet?
    ensures var w := Responses(run)[k].will;
            && w.status == UnlockedAtDeath && w.unlockedAt.Some?
            && IsNominated(w.origin.executors, run[k].caller)
            && exists i, j :: 0 <= i < j < k && SealedAt(run, i, run[k].id) && NotifiedAt(run, j, run[k].id, w)
                 && Stored(run[j].call.now) + run[j].call.delayDays * DAY <= w.unlockedAt.value
  {
    ResponseAt(run, k);
    GetWillServes(After(run[..k]), run[k]);
    ReplyIsNext(run, k);
    ServedIsJustified(run, k, run[k].id, ReplyTo(run, k).response.will);
  }

  // Unlocked, and not before the unlock time if there is one.
  predicate Waited(w: Will) {
    w.status == UnlockedAtDeath && w.unlockedAt.Some?
        && (w.unlockAfter.Some? ==> w.unlockAfter.value <= w.unlockedAt.value)
  }

  lemma UnlockRespectsLock(w: Will, report: Call)
    requires report.NotifyDeath? && CarriesLock(w, report) && Waited(w)
    ensures Stored(report.now) + report.delayDays * DAY <= w.unlockedAt.value
  {
  }

  lemma ServedIsJustified(run: seq<Request>, k: nat, id: WillId, w: Will)
    requires k < |run| && run[k].ExecutorGet?
    requires id in After(run[..k + 1]).rows && After(run[..k + 1]).rows[id] == w && w.status == UnlockedAtDeath
    ensures w.unlockedAt.Some?
    ensures exists i, j :: 0 <= i < j < k && SealedAt(run, i, id) && NotifiedAt(run, j, id, w)
              && Stored(run[j].call.now) + run[j].call.delayDays * DAY <= w.unlockedAt.value
  {
    RunTimed(run[..k + 1], id);
    StagesJustified(run, k + 1, id);
    JustifiedBefore(run, k, id, w);
  }

  lemma RunTimed(run: seq<Request>, id: WillId)
    requires id in After(run).rows
    ensures Timed(After(run).rows[id])
  {
    RunKeepsInvariants(run);
    assert RowOrderly(After(run).rows[id]);
  }

  lemma ReplyIsNext(run: seq<Request>, k: nat)
    requires k < |run|
    ensures After(run[..k + 1]) == ReplyTo(run, k).table
  {
    assert run[..k + 1][..k] == run[..k] && run[..k + 1][k] == run[k];
  }

  lemma JustifiedBefore(run: seq<Request>, k: nat, id: WillId, w: Will)
    requires k < |run| && run[k].ExecutorGet? && Justified(run, k + 1, id, w) && Waited(w)
    ensures exists i, j :: 0 <= i < j < k && SealedAt(run, i, id) && NotifiedAt(run, j, id, w)
              && Stored(run[j].call.now) + run[j].call.delayDays * DAY <= w.unlockedAt.value
  {
    var i, j :| 0 <= i < j < k + 1 && SealedAt(run, i, id) && NotifiedAt(run, j, id, w);
    UnlockRespectsLock(w, run[j].call);
  }

  /** The handler's own test of the time lock implies the service's: once it calls CompleteUnlock the
      call succeeds, the reload shows the will unlocked, and only the FLT gate decides. */
  lemma LazyUnlockSucceeds(t: Table, id: WillId, caller: Flt, now: Time)
    requires id in t.rows && t.rows[id].status == DeathNotified
    requires t.rows[id].unlockAfter.Some? && t.rows[id].unlockAfter.value <= now
    ensures Apply(t, CompleteUnlock(id, now)).outcome == Done
    ensures var reply := GetWill(t, id, caller, now);
            && reply.table.rows[id].status == UnlockedAtDeath
            && reply.response == (if IsNominated(t.rows[id].origin.executors, caller) then Served(reply.table.rows[id])
                                  else NotNominated)
  {
  }

  // ---- Progress ----

  function Rank(s: Status): nat {
    match s case Draft => 0 case Locked => 1 case DeathNotified => 2 case UnlockedAtDeath => 3 case Superseded => 3
  }

  /** How often a run changed the status of a will after creating it. */
  function StatusChanges(run: seq<Request>, id: WillId): nat {
    if run == [] then 0
    else
      var t, t' := After(run[..|run| - 1]), After(run);
      StatusChanges(run[..|run| - 1], id)
      + (if id in t.rows && id in t'.rows && t.rows[id].status != t'.rows[id].status then 1 else 0)
  }

  lemma MovesClimb(q: Request, done: bool, id: WillId, w: Will, w': Will)
    requires SameStage(w, w') || Moves(q, done, id, w, w')
    ensures w'.status == w.status || Rank(w.status) < Rank(w'.status)
  {
  }

  /** Every change of status climbs towards unlocked or superseded, so a will changes at most three times. */
  lemma {:induction false} AtMostThreeChanges(run: seq<Request>, id: WillId)
    ensures StatusChanges(run, id) <= if id in After(run).rows then Rank(After(run).rows[id].status) else 0
    ensures StatusChanges(run, id) <= 3
  {
    if run != [] {
      var before, q := run[..|run| - 1], run[|run| - 1];
      AtMostThreeChanges(before, id);
      if id in After(before).rows {
        RunTimed(before, id);
        RequestMoves(After(before), q, id);
        MovesClimb(q, Handle(After(before), q).response == Replied(Done), id, After(before).rows[id],
            After(run).rows[id]);
      }
    }
  }

  /** The status changes of a run to the wills listed. */
  function TotalChanges(run: seq<Request>, ids: seq<WillId>): nat {
    if ids == [] then 0 else TotalChanges(run, ids[..|ids| - 1]) + StatusChanges(run, ids[|ids| - 1])
  }

  lemma {:induction false} ChangesOfList(run: seq<Request>, ids: seq<WillId>)
    ensures TotalChanges(run, ids) <= 3 * |ids|
  {
    if ids != [] {
      ChangesOfList(run, ids[..|ids| - 1]);
      AtMostThreeChanges(run, ids[|ids| - 1]);
    }
  }

  /** A run that creates n wills changes their statuses at most 3n times between them; each will is
      listed once. */
  lemma ChangesPerWill(run: seq<Request>)
    ensures TotalChanges(run, After(run).order) <= 3 * |After(run).order|
    ensures forall i, j :: 0 <= i < j < |After(run).order| ==> After(run).order[i] != After(run).order[j]
    ensures forall id :: id in After(run).rows <==> id in After(run).order
  {
    ChangesOfList(run, After(run).order);
    RunKeepsInvariants(run);
    OrderListsRows(After(run));
  }

  lemma OrderListsRows(t: Table)
    requires Numbered(t)
    ensures forall i, j :: 0 <= i < j < |t.order| ==> t.order[i] != t.order[j]
    ensures forall id :: id in t.rows <==> id in t.order
  {
    forall id | id in t.rows ensures id in t.order {
      assert t.order[t.rows[id].origin.serial] == id;
    }
  }

  /** What a seal protects. */
  predicate SameContents(w: Will, w': Will) {
    && w'.origin == w.origin
    && w'.signedAt == w.signedAt && w'.signedHash == w.signedHash && w'.witnesses == w.witnesses
    && w'.assets == w.assets && w'.properties == w.properties
  }

  lemma CallKeepsContents(t: Table, c: Call, id: WillId)
    requires id in t.rows && t.rows[id].status != Draft
    ensures id in Apply(t, c).table.rows && SameContents(t.rows[id], Apply(t, c).table.rows[id])
  {
    var r := ReadOf(t, c);
    if Check(c, r) == Done && !KeyClash(t, c) && !c.CreateDraft? && !c.CreateCodicil? && c.id == id {
      UpdateKeepsContents(c, t.rows[id]);
    }
  }

  lemma UpdateKeepsContents(c: Call, w: Will)
    requires !c.CreateDraft? && !c.CreateCodicil? && w.status != Draft
    requires !c.RecordReminder? ==> CheckRow(c, w, |w.witnesses|) == Done
    ensures SameContents(w, Updated(c, w))
  {
  }

  lemma RequestKeepsContents(t: Table, q: Request, id: WillId)
    requires id in t.rows && t.rows[id].status != Draft
    ensures id in Handle(t, q).table.rows && SameContents(t.rows[id], Handle(t, q).table.rows[id])
  {
    HandleIsCall(t, q);
    CallKeepsContents(t, CallOf(q), id);
  }

  lemma FrozenStep(run: seq<Request>, id: WillId)
    requires run != [] && id in After(run[..|run| - 1]).rows && After(run[..|run| - 1]).rows[id].status != Draft
    ensures id in After(run).rows && After(run).rows[id].status != Draft
    ensures SameContents(After(run[..|run| - 1]).rows[id], After(run).rows[id])
  {
    RequestKeepsContents(After(run[..|run| - 1]), run[|run| - 1], id);
    StepGrows(run);
    assert RowGrows(After(run[..|run| - 1]).rows[id], After(run).rows[id]);
  }

  /** From the moment a will leaves draft, no request of the run changes what it says or who signed it,
      nor makes it a draft again. */
  lemma FrozenOnceSealed(run: seq<Request>, i: nat, j: nat, id: WillId)
    requires i <= j <= |run| && id in After(run[..i]).rows && After(run[..i]).rows[id].status != Draft
    ensures id in After(run[..j]).rows && After(run[..j]).rows[id].status != Draft
    ensures SameContents(After(run[..i]).rows[id], After(run[..j]).rows[id])
  {
    StaysSealed(run, i, j, id, After(run[..i]).rows[id]);
  }

  // Past draft, with the contents of w.
  predicate SealedAs(w: Will, t: Table, id: WillId) {
    id in t.rows && t.rows[id].status != Draft && SameContents(w, t.rows[id])
  }

  lemma StaysSealed(run: seq<Request>, i: nat, j: nat, id: WillId, w: Will)
    requires i <= j <= |run| && SealedAs(w, After(run[..i]), id)
    ensures SealedAs(w, After(run[..j]), id)
  {
    var tables := seq(|run| + 1, k requires 0 <= k <= |run| => After(run[..k]));
    forall k | i <= k < j && SealedAs(w, tables[k], id) ensures SealedAs(w, tables[k + 1], id) {
      SealedStep(run, k, id, w);
    }
    SealedAlong(tables, i, j, id, w);
  }

  lemma {:induction false} SealedAlong(tables: seq<Table>, i: nat, j: nat, id: WillId, w: Will)
    requires i <= j < |tables| && SealedAs(w, tables[i], id)
    requires forall k :: i <= k < j && SealedAs(w, tables[k], id) ==> SealedAs(w, tables[k + 1], id)
    ensures SealedAs(w, tables[j], id)
    decreases j
  {
    if i < j {
      SealedAlong(tables, i, j - 1, id, w);
      assert SealedAs(w, tables[j - 1 + 1], id);
    }
  }

  lemma SealedStep(run: seq<Request>, k: nat, id: WillId, w: Will)
    requires k < |run| && SealedAs(w, After(run[..k]), id)
    ensures SealedAs(w, After(run[..k + 1]), id)
  {
    FrozenStepAt(run, k, id);
  }

  lemma FrozenStepAt(run: seq<Request>, k: nat, id: WillId)
    requires k < |run| && id in After(run[..k]).rows && After(run[..k]).rows[id].status != Draft
    ensures id in After(run[..k + 1]).rows && After(run[..k + 1]).rows[id].status != Draft
    ensures SameContents(After(run[..k]).rows[id], After(run[..k + 1]).rows[id])
  {
    assert run[..k + 1][..k] == run[..k];
    FrozenStep(run[..k + 1], id);
  }

  /** Who may pass the executor gate is decided when the will is created. */
  lemma GateFixedFromCreation(run: seq<Request>, i: nat, j: nat, id: WillId, flt: Flt)
    requires i <= j <= |run| && id in After(run[..i]).rows
    ensures id in After(run[..j]).rows
    ensures IsNominated(After(run[..j]).rows[id].origin.executors, flt)
        == IsNominated(After(run[..i]).rows[id].origin.executors, flt)
  {
    RunGrows(run, i, j);
    assert RowGrows(After(run[..i]).rows[id], After(run[..j]).rows[id]);
  }

  // ---- Who may do what ----

  /** The verified identity behind a request, where it has one. */
  function ActorOf(c: Call): Option<Flt> {
    match c
    case CreateDraft(_, testator, _) => Some(testator.flt)
    case CreateCodicil(_, _, testator, _) => Some(testator.flt)
    case SignTestator(_, signer, _, _) => Some(signer.flt)
    case SignWitness(_, signer, _, _) => Some(signer.flt)
    case ConfirmLiveness(_, testator, _) => Some(testator.flt)
    case AddDigitalAsset(_, testator, _) => Some(testator.flt)
    case AddProperty(_, testator, _) => Some(testator.flt)
    case _ => None
  }

  /** The fields only the testator can bring to change. */
  predicate SameForTestator(w: Will, w': Will) {
    && w'.signedAt == w.signedAt && w'.signedHash == w.signedHash
    && w'.assets == w.assets && w'.properties == w.properties
    && w'.supersededBy == w.supersededBy && w'.lastConfirmedAt == w.lastConfirmedAt
  }

  /** What a call by this actor may do to this row. */
  ghost predicate Permitted(c: Call, w: Will, w': Will) {
    var owner := w.origin.testator.flt;
    && (!SameForTestator(w, w') ==> ActorOf(c) == Some(owner) && w.status != Superseded && w.status != UnlockedAtDeath)
    && (w'.witnesses != w.witnesses ==>
          && w.status == Draft && w.signedAt.Some? && |w'.witnesses| == |w.witnesses| + 1 && w.witnesses <= w'.witnesses
          && ActorOf(c) == Some(w'.witnesses[|w.witnesses|].signer.flt) && ActorOf(c) != Some(owner))
  }

  lemma UpdatePermitted(c: Call, w: Will)
    requires !c.CreateDraft? && !c.CreateCodicil?
    requires !c.RecordReminder? ==> CheckRow(c, w, |w.witnesses|) == Done
    ensures Permitted(c, w, Updated(c, w))
  {
  }

  /** Whatever the state: a call changes signature, bequests, heir or confirmation of a will only for
      its testator, and never on a superseded or unlocked will; it adds at most one witness row, in the
      name of its caller, who is not the testator, to a draft the testator has signed; and it touches no
      will but the one it names, unless it supersedes. */
  lemma OnlyTheRightActor(t: Table, c: Call, id: WillId)
    requires id in t.rows
    ensures id in Apply(t, c).table.rows && Permitted(c, t.rows[id], Apply(t, c).table.rows[id])
    ensures Apply(t, c).table.rows[id] != t.rows[id] ==> c.CreateDraft? || (!c.CreateCodicil? && c.id == id)
  {
    var r := ReadOf(t, c);
    if Check(c, r) != Done || KeyClash(t, c) {
      assert Apply(t, c).table == t;
    } else if c.CreateDraft? {
      assert c.newId != id;
      SupersedePermitted(t, c, id);
    } else if c.CreateCodicil? {
      assert c.newId != id;
    } else if c.id == id {
      UpdatePermitted(c, t.rows[id]);
    }
  }

  lemma SupersedePermitted(t: Table, c: Call, id: WillId)
    requires c.CreateDraft? && id in t.rows && c.newId != id
    ensures var t' := Write(t, c, ReadOf(t, c)); id in t'.rows && Permitted(c, t.rows[id], t'.rows[id])
  {
  }
}
