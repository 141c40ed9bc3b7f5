/** The service gets somewhere: a will can be made, signed, sealed, reported and read. */
module Progress {
  import opened Wrappers
  import opened Clock
  import opened Wills
  import opened Invariants
  import opened Runs
  import opened Outcomes
  import opened Answers

  /** What one will goes through: who makes it and with what, who witnesses it and when, what death report
      comes with what delay, and who asks for it in the end. */
  datatype Story = Story(
    id: WillId, testator: Identity, req: CreateRequest, hash: string, signedAt: Time,
    first: Identity, firstAt: Time, second: Identity, secondAt: Time, lockedAt: Time,
    delayDays: int, reportedAt: Time, caller: Flt, fetchedAt: Time)

  /** The steps up to the death report. */
  function Steps(s: Story): seq<Call> {
    [CreateDraft(s.id, s.testator, s.req),
     SignTestator(s.id, s.testator, s.hash, s.signedAt),
     SignWitness(s.id, s.first, s.hash, s.firstAt),
     SignWitness(s.id, s.second, s.hash, s.secondAt),
     Lock(s.id, s.lockedAt),
     NotifyDeath(s.id, s.delayDays, s.reportedAt)]
  }

  /** A complete vault, two witnesses who are not the testator, and their signatures at different times. */
  predicate Proper(s: Story) {
    && s.req.vault.ciphertext != "" && s.req.vault.nonce != "" && s.req.vault.alg == "AES-GCM-256"
    && s.first.flt != s.testator.flt && s.second.flt != s.testator.flt && s.firstAt != s.secondAt
  }

  /** The delay of the report has run out. */
  predicate Due(s: Story) {
    s.delayDays == 0 || Stored(s.reportedAt + s.delayDays * DAY) <= s.fetchedAt
  }

  /** How the row stands after n steps, where the next step looks. */
  predicate Stands(w: Will, s: Story, n: nat) {
    && Holds(w.origin, s.testator, s.req, None)
    && (n == 1 ==> w.status == Draft && w.witnesses == [])
    && (n == 2 ==> w.status == Draft && w.signedAt.Some? && w.witnesses == [])
    && (n == 3 ==> w.status == Draft && w.signedAt.Some? && |w.witnesses| == 1 && w.witnesses[0].rowKey == s.firstAt)
    && (n == 4 ==> w.status == Draft && w.signedAt.Some? && |w.witnesses| == 2)
    && (n == 5 ==> w.status == Locked)
    && (n == 6 ==> (w.status == UnlockedAtDeath || w.status == DeathNotified) && (Open(w, s.fetchedAt) <==> Due(s)))
  }

  /** The table is what the story has made of it after n steps. */
  predicate Reached(t: Table, s: Story, n: nat) {
    if n == 0 then s.id !in t.rows else s.id in t.rows && Stands(t.rows[s.id], s, n)
  }

  lemma FirstStep(t: Table, s: Story)
    requires Durable(t) && Proper(s) && s.id !in t.rows
    ensures Apply(t, Steps(s)[0]).outcome == Done && Reached(Apply(t, Steps(s)[0]).table, s, 1)
  {
    SucceedsExactly(t, Steps(s)[0]);
    CreatedExactly(t, Steps(s)[0]);
  }

  lemma NextStep(t: Table, s: Story, n: nat)
    requires 1 <= n < 6 && Proper(s) && Reached(t, s, n)
    ensures Apply(t, Steps(s)[n]).outcome == Done && Reached(Apply(t, Steps(s)[n]).table, s, n + 1)
  {
    var c := Steps(s)[n];
    SucceedsExactly(t, c);
    ColumnsAfter(t, c);
    NextStands(s, n, t.rows[s.id], Apply(t, c).table.rows[s.id]);
  }

  lemma NextStands(s: Story, n: nat, w: Will, w': Will)
    requires 1 <= n < 6 && Stands(w, s, n) && ColumnsOf(Steps(s)[n], w, w')
    ensures Stands(w', s, n + 1)
  {
  }

  /** The first n steps of the story as requests. */
  function Told(s: Story, n: nat): seq<Request>
    requires n <= 6
  {
    seq(n, k requires 0 <= k < n => Direct(Steps(s)[k]))
  }

  lemma OneMoreRequest(run: seq<Request>, q: Request)
    ensures After(run + [q]) == Handle(After(run), q).table
    ensures Responses(run + [q]) == Responses(run) + [Handle(After(run), q).response]
  {
    assert (run + [q])[..|run|] == run;
  }

  lemma OneMoreCall(run: seq<Request>, c: Call)
    ensures After(run + [Direct(c)]) == Apply(After(run), c).table
    ensures Responses(run + [Direct(c)]) == Responses(run) + [Replied(Apply(After(run), c).outcome)]
  {
    OneMoreRequest(run, Direct(c));
  }

  /** The run has told the first n steps after what came before, and all succeeded. */
  predicate HasTold(run: seq<Request>, before: seq<Request>, s: Story, n: nat) {
    Reached(After(run), s, n) && Responses(run) == Responses(before) + Dones(n)
  }

  lemma StepSucceeds(run: seq<Request>, before: seq<Request>, s: Story, n: nat)
    requires n < 6 && Proper(s) && HasTold(run, before, s, n)
    ensures HasTold(run + [Direct(Steps(s)[n])], before, s, n + 1)
  {
    OneMoreCall(run, Steps(s)[n]);
    RunKeepsInvariants(run);
    Advances(After(run), s, n);
    OneMoreDone(Responses(before), n);
  }

  lemma Advances(t: Table, s: Story, n: nat)
    requires Durable(t) && n < 6 && Proper(s) && Reached(t, s, n)
    ensures Apply(t, Steps(s)[n]).outcome == Done && Reached(Apply(t, Steps(s)[n]).table, s, n + 1)
  {
    if n == 0 {
      FirstStep(t, s);
    } else {
      NextStep(t, s, n);
    }
  }

  lemma OneMoreDone(rs: seq<Response>, n: nat)
    ensures rs + Dones(n + 1) == (rs + Dones(n)) + [Replied(Done)]
  {
  }

  // What every step carries on holds after n steps.
  lemma {:induction false} ToldAlong(before: seq<Request>, s: Story, n: nat, holds: (seq<Request>, nat) -> bool)
    requires n <= 6 && holds(before, 0)
    requires forall run, k: nat :: k < 6 && holds(run, k) ==> holds(run + [Direct(Steps(s)[k])], k + 1)
    ensures holds(before + Told(s, n), n)
  {
    if n > 0 {
      ToldAlong(before, s, n - 1, holds);
      assert before + Told(s, n) == (before + Told(s, n - 1)) + [Direct(Steps(s)[n - 1])];
    } else {
      assert before + Told(s, 0) == before;
    }
  }

  lemma StepsSucceed(before: seq<Request>, s: Story)
    requires Proper(s) && s.id !in After(before).rows
    ensures HasTold(before + Told(s, 6), before, s, 6)
  {
    var holds := (run: seq<Request>, n: nat) => HasTold(run, before, s, n);
    forall run, n: nat | n < 6 && holds(run, n) ensures holds(run + [Direct(Steps(s)[n])], n + 1) {
      StepSucceeds(run, before, s, n);
    }
    ToldAlong(before, s, 6, holds);
  }

  function Dones(n: nat): seq<Response> {
    seq(n, _ => Replied(Done))
  }

  /** Whatever has happened before, a proper story about a new will succeeds at every step; and its last
      request, for the will, is answered with the will if and only if the delay has run out and the request
      that made the will nominates the caller. */
  lemma StoryIsServed(before: seq<Request>, s: Story)
    requires Proper(s) && s.id !in After(before).rows
    ensures var run := before + Told(s, 6) + [ExecutorGet(s.id, s.caller, s.fetchedAt)];
            var told := Responses(before) + Dones(6);
            && |Responses(run)| == |told| + 1 && Responses(run)[..|told|] == told
            && (Responses(run)[|told|].Served? <==> Due(s) && IsNominated(s.req.executors, s.caller))
            && (Responses(run)[|told|].CoolingOff? <==> !Due(s))
  {
    var run, q := before + Told(s, 6), ExecutorGet(s.id, s.caller, s.fetchedAt);
    StepsSucceed(before, s);
    OneMoreRequest(run, q);
    GetWillExact(After(run), s.id, s.caller, s.fetchedAt);
  }
}
