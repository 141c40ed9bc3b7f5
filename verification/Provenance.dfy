/** Where the wills of a run come from: the requests that created them. */
module Provenance {
  import opened Clock
  import opened Wills
  import opened Invariants
  import opened Runs
  import opened Lifecycle
  import opened Outcomes

  /** Request k of the run created the will. */
  ghost predicate CreatedAt(run: seq<Request>, k: nat, id: WillId) {
    && k < |run| && run[k].Direct? && (run[k].call.CreateDraft? || run[k].call.CreateCodicil?)
    && run[k].call.newId == id && Responses(run)[k] == Replied(Done)
  }

  /** The row holds what request k asked for. */
  ghost predicate HoldsRequest(run: seq<Request>, k: nat, id: WillId, o: Origin) {
    CreatedAt(run, k, id) && Holds(o, run[k].call.testator, run[k].call.req, ParentGiven(run[k].call))
  }

  lemma JustCreated(run: seq<Request>, n: nat, id: WillId)
    requires n < |run| && id in After(run[..n + 1]).rows && id !in After(run[..n]).rows
    ensures HoldsRequest(run, n, id, After(run[..n + 1]).rows[id].origin)
  {
    LastRequest(run, n + 1);
    RunKeepsInvariants(run[..n]);
    RequestCreates(After(run[..n]), run[n], id);
    ResponseAt(run, n);
    CreationOf(After(run[..n]), run[n].call, id);
  }

  lemma CreationOf(t: Table, c: Call, id: WillId)
    requires Durable(t) && (c.CreateDraft? || c.CreateCodicil?) && id !in t.rows && id in Apply(t, c).table.rows
    ensures Apply(t, c).outcome == Done && c.newId == id
    ensures Holds(Apply(t, c).table.rows[id].origin, c.testator, c.req, ParentGiven(c))
  {
    RefusesExactly(t, c);
    CreatedExactly(t, c);
  }

  lemma OriginStays(run: seq<Request>, i: nat, j: nat, id: WillId)
    requires i <= j <= |run| && id in After(run[..i]).rows
    ensures id in After(run[..j]).rows && After(run[..j]).rows[id].origin == After(run[..i]).rows[id].origin
  {
    RunGrows(run, i, j);
    assert RowGrows(After(run[..i]).rows[id], After(run[..j]).rows[id]);
  }

  /** At every moment of a run, every will was created by an earlier successful request, and its row still
      holds that request's testator, clauses, beneficiaries, executors, vault, delay and parent. */
  lemma {:induction false} EveryWillWasRequested(run: seq<Request>, n: nat, id: WillId)
    requires n <= |run| && id in After(run[..n]).rows
    ensures exists k :: 0 <= k < n && HoldsRequest(run, k, id, After(run[..n]).rows[id].origin)
    decreases n
  {
    if n > 0 && id in After(run[..n - 1]).rows {
      EveryWillWasRequested(run, n - 1, id);
      OriginStays(run, n - 1, n, id);
    } else if n > 0 {
      JustCreated(run, n - 1, id);
    }
  }

  /** Whoever passes the gate of a will is nominated by the request that created it. */
  lemma GateIsTheRequests(run: seq<Request>, n: nat, id: WillId, flt: Flt)
    requires n <= |run| && id in After(run[..n]).rows
    ensures exists k :: 0 <= k < n && CreatedAt(run, k, id)
              && (IsNominated(After(run[..n]).rows[id].origin.executors, flt)
                  <==> IsNominated(run[k].call.req.executors, flt))
  {
    EveryWillWasRequested(run, n, id);
    var k :| 0 <= k < n && HoldsRequest(run, k, id, After(run[..n]).rows[id].origin);
    assert CreatedAt(run, k, id);
  }

  lemma SealedExists(run: seq<Request>, i: nat, id: WillId)
    requires SealedAt(run, i, id)
    ensures id in After(run[..i]).rows
  {
    ResponseAt(run, i);
    SucceedsExactly(After(run[..i]), run[i].call);
  }

  /** Requests c, i and j of the run created the will with what is served, nominating the caller of request
      k; sealed it; and reported its death, with a delay that had run out when it was unlocked. */
  ghost predicate LedTo(run: seq<Request>, c: nat, i: nat, j: nat, k: nat, w: Will)
    requires k < |run| && run[k].ExecutorGet?
  {
    && c < i < j < k && HoldsRequest(run, c, run[k].id, w.origin)
    && IsNominated(run[c].call.req.executors, run[k].caller)
    && SealedAt(run, i, run[k].id) && NotifiedAt(run, j, run[k].id, w)
    && w.unlockedAt.Some? && Stored(run[j].call.now) + run[j].call.delayDays * DAY <= w.unlockedAt.value
  }

  ghost predicate OriginAt(run: seq<Request>, n: nat, id: WillId, o: Origin) {
    n <= |run| && id in After(run[..n]).rows && After(run[..n]).rows[id].origin == o
  }

  lemma CreatedBefore(run: seq<Request>, i: nat, k: nat, id: WillId, o: Origin) returns (c: nat)
    requires i < k <= |run| && SealedAt(run, i, id) && OriginAt(run, k, id, o)
    ensures c < i && HoldsRequest(run, c, id, o)
  {
    SealedExists(run, i, id);
    EveryWillWasRequested(run, i, id);
    c :| 0 <= c < i && HoldsRequest(run, c, id, After(run[..i]).rows[id].origin);
    OriginStays(run, i, k, id);
  }

  /** The whole story behind a served will: it was created by a request that nominates the caller, with what is
      served; then it was sealed; then its death was reported; and it was unlocked no earlier than that report
      plus its delay. */
  lemma ServedAsRequested(run: seq<Request>, k: nat)
    requires k < |run| && Responses(run)[k].Served?
    ensures run[k].ExecutorGet?
    ensures exists c, i, j :: LedTo(run, c, i, j, k, Responses(run)[k].will)
  {
    ServedByExecutorGet(run, k);
    ServedRow(run, k);
    var w := Responses(run)[k].will;
    var i, j := UnlockingOf(run, k, w);
    var c := CreationBehind(run, i, j, k, w);
  }

  lemma ServedByExecutorGet(run: seq<Request>, k: nat)
    requires k < |run| && Responses(run)[k].Served?
    ensures run[k].ExecutorGet?
    ensures IsNominated(Responses(run)[k].will.origin.executors, run[k].caller)
  {
    ServedOnlyAfterTimeLock(run, k);
  }

  ghost predicate Unlocking(run: seq<Request>, i: nat, j: nat, k: nat, w: Will)
    requires k < |run| && run[k].ExecutorGet?
  {
    && i < j < k && SealedAt(run, i, run[k].id) && NotifiedAt(run, j, run[k].id, w)
    && w.unlockedAt.Some? && Stored(run[j].call.now) + run[j].call.delayDays * DAY <= w.unlockedAt.value
  }

  lemma UnlockingOf(run: seq<Request>, k: nat, w: Will) returns (i: nat, j: nat)
    requires k < |run| && run[k].ExecutorGet? && Responses(run)[k] == Served(w)
    ensures Unlocking(run, i, j, k, w)
  {
    ServedOnlyAfterTimeLock(run, k);
    i, j :| 0 <= i < j < k && SealedAt(run, i, run[k].id) && NotifiedAt(run, j, run[k].id, w)
            && Stored(run[j].call.now) + run[j].call.delayDays * DAY <= w.unlockedAt.value;
  }

  lemma CreationBehind(run: seq<Request>, i: nat, j: nat, k: nat, w: Will) returns (c: nat)
    requires k < |run| && run[k].ExecutorGet? && Unlocking(run, i, j, k, w)
    requires OriginAt(run, k + 1, run[k].id, w.origin)
    requires IsNominated(w.origin.executors, run[k].caller)
    ensures LedTo(run, c, i, j, k, w)
  {
    c := CreatedBefore(run, i, k + 1, run[k].id, w.origin);
  }

  lemma ServedRow(run: seq<Request>, k: nat)
    requires k < |run| && Responses(run)[k].Served? && run[k].ExecutorGet?
    ensures run[k].id in After(run[..k + 1]).rows && After(run[..k + 1]).rows[run[k].id] == Responses(run)[k].will
  {
    ResponseAt(run, k);
    GetWillServes(After(run[..k]), run[k]);
    ReplyIsNext(run, k);
  }
}
