/** What breaks when a call writes on a read that other calls have overtaken, and exactly when. */
module LateWrites {
  import opened Wrappers
  import opened Clock
  import opened Wills
  import opened Invariants
  import opened Runs
  import opened Interleaving
  import opened Lifecycle

  // ---- Status ----

  /** The status-writing calls that update one row. */
  predicate SetsStatus(c: Call) {
    c.Lock? || c.NotifyDeath? || c.CompleteUnlock?
  }

  /** The row as it is now can take the late write of c. */
  predicate Harmless(c: Call, w: Will)
    requires SetsStatus(c)
  {
    match c
    case Lock(_, _) => w.status == Draft || w.status == Locked || (w.status == UnlockedAtDeath && w.unlockAfter.None?)
    case NotifyDeath(_, delayDays, now) =>
      if delayDays != 0 then w.status == Locked || w.status == DeathNotified
      else w.status != Superseded && (w.unlockAfter.Some? ==> w.unlockAfter.value <= now)
    case CompleteUnlock(_, now) => w.status != Superseded && (w.unlockAfter.Some? ==> w.unlockAfter.value <= now)
    case _ => true
  }

  /** The write takes the will back to an earlier stage. */
  predicate Sinks(c: Call, w: Will) {
    match c
    case Lock(_, _) => w.status != Draft && w.status != Locked
    case NotifyDeath(_, delayDays, _) => delayDays != 0 && (w.status == UnlockedAtDeath || w.status == Superseded)
    case _ => false
  }

  /** A write that comes late, on a row other calls have moved on in the meantime, leaves the row orderly
      (one consistent set of lifecycle timestamps, the time lock respected, heir exactly if superseded)
      if and only if the current row passes Harmless; and its stage does not fall if and only if the
      write does not sink it.  Calls other than Lock read a row past draft, and no row returns there. */
  lemma LateStatusWriteExact(c: Call, w: Will)
    requires SetsStatus(c) && RowOrderly(w) && (w.status == Draft ==> c.Lock?)
    ensures RowOrderly(Updated(c, w)) <==> Harmless(c, w)
    ensures Rank(w.status) <= Rank(Updated(c, w).status) <==> !Sinks(c, w)
  {
    match c {
      case Lock(_, _) => LateLockExact(c, w);
      case NotifyDeath(_, _, _) => LateNoticeExact(c, w);
      case CompleteUnlock(_, _) => LateUnlockExact(c, w);
    }
    LateStageExact(c, w);
  }

  lemma LateLockExact(c: Call, w: Will)
    requires c.Lock? && RowOrderly(w)
    ensures RowOrderly(Updated(c, w)) <==> Harmless(c, w)
  {
  }

  lemma LateNoticeExact(c: Call, w: Will)
    requires c.NotifyDeath? && RowOrderly(w) && w.status != Draft
    ensures RowOrderly(Updated(c, w)) <==> Harmless(c, w)
  {
    StoredKeepsDays(c.now + c.delayDays * DAY, 0);
    StoredKeepsDays(c.now, 0);
    if w.unlockAfter.Some? && w.unlockAfter.value <= c.now {
      StoredMonotone(w.unlockAfter.value, c.now);
    }
  }

  lemma LateUnlockExact(c: Call, w: Will)
    requires c.CompleteUnlock? && RowOrderly(w) && w.status != Draft
    ensures RowOrderly(Updated(c, w)) <==> Harmless(c, w)
  {
    if w.unlockAfter.Some? && w.unlockAfter.value <= c.now {
      StoredMonotone(w.unlockAfter.value, c.now);
    }
  }

  lemma LateStageExact(c: Call, w: Will)
    requires !c.CreateDraft? && !c.CreateCodicil?
    ensures Rank(w.status) <= Rank(Updated(c, w).status) <==> !Sinks(c, w)
  {
  }

  /** This move writes to the row of id. */
  predicate UpdatesRow(s: System, m: Move, id: WillId) {
    && m.Commit? && m.pid in s.pending && Writes(s, m.pid)
    && var c := s.pending[m.pid].call;
       !c.CreateDraft? && !c.CreateCodicil? && c.id == id && id in s.table.rows
  }

  /** Whatever else is under way, a move changes the row of a will by the update of a call for that will,
      by superseding it, or not at all. */
  lemma MoveEffect(s: System, m: Move, id: WillId)
    requires id in s.table.rows
    ensures id in Next(s, m).table.rows
    ensures var w, w' := s.table.rows[id], Next(s, m).table.rows[id];
            if UpdatesRow(s, m, id) then w' == Updated(s.pending[m.pid].call, w)
            else w' == w || exists heir :: w' == SupersededWill(w, heir)
  {
    if m.Commit? && m.pid in s.pending && Writes(s, m.pid) {
      var c, r := s.pending[m.pid].call, s.pending[m.pid].read;
      if c.CreateDraft? {
        assert c.newId != id;
        var w := s.table.rows[id];
        assert Write(s.table, c, r).rows[id] == if id in r.active then SupersededWill(w, c.newId) else w;
      }
    }
  }

  predicate SunkBy(s: System, m: Move, id: WillId) {
    UpdatesRow(s, m, id) && Sinks(s.pending[m.pid].call, s.table.rows[id])
  }

  /** A move lets the stage of a will fall if and only if it is a late write that sinks it. */
  lemma StageFallsExact(s: System, m: Move, id: WillId)
    requires id in s.table.rows && id in Next(s, m).table.rows
    ensures Rank(Next(s, m).table.rows[id].status) < Rank(s.table.rows[id].status) <==> SunkBy(s, m, id)
  {
    MoveEffect(s, m, id);
  }

  // A call that has read its row and all its witness rows.
  lemma ReadAll(s: System, p: nat, c: Call, n: nat)
    requires p !in s.pending && c.Lock? && c.id in s.table.rows && |s.table.rows[c.id].witnesses| >= 2 && n >= 2
    ensures var s' := Next(Next(s, Begin(p, c)), FetchWitnesses(p, n));
            && s'.table == s.table && s'.pending == s.pending[p := s'.pending[p]]
            && s'.pending[p].call == c && s'.pending[p].read.row == Some(s.table.rows[c.id])
            && s'.pending[p].read.witnessRows >= 2
  {
  }

  /** A second lock, read while the will was a draft, takes back even a will unlocked in the meantime. */
  lemma SecondLockReopens(s: System, p: nat, q: nat, r: nat, n: nat, id: WillId, at: Time, deathAt: Time)
    requires Coherent(s) && p !in s.pending && q !in s.pending && r !in s.pending && p != q && p != r && q != r
    requires var lock := Lock(id, at); Check(lock, ReadOf(s.table, lock)) == Done && n >= 2
    ensures var lock, notice := Lock(id, at), NotifyDeath(id, 0, deathAt);
            var first := Next(Next(s, Begin(p, lock)), FetchWitnesses(p, n));
            var both := Next(Next(first, Begin(q, lock)), FetchWitnesses(q, n));
            var unlocked := Next(Next(Next(both, Commit(p)), Begin(r, notice)), Commit(r));
            && id in unlocked.table.rows && unlocked.table.rows[id].status == UnlockedAtDeath
            && SunkBy(unlocked, Commit(q), id)
            && id in Next(unlocked, Commit(q)).table.rows && Next(unlocked, Commit(q)).table.rows[id].status == Locked
  {
    var lock := Lock(id, at);
    var s1 := Next(Next(s, Begin(p, lock)), FetchWitnesses(p, n));
    ReadAll(s, p, lock, n);
    var both := Next(Next(s1, Begin(q, lock)), FetchWitnesses(q, n));
    ReadAll(s1, q, lock, n);
    assert Writes(both, p) && Writes(both, q);
    var locked := Next(both, Commit(p));
    assert locked.table.rows[id].status == Locked;
    var noticed := Next(locked, Begin(r, NotifyDeath(id, 0, deathAt)));
    assert Writes(noticed, r);
  }

  // ---- Contents ----

  /** The call writes what a seal protects, and writes something new. */
  predicate Disturbs(c: Call, w: Will) {
    match c
    case SignTestator(_, _, hash, now) => w.signedAt != Some(Stored(now)) || w.signedHash != Some(hash)
    case SignWitness(_, _, _, _) => true
    case AddDigitalAsset(_, _, _) => true
    case AddProperty(_, _, _) => true
    case _ => false
  }

  lemma DisturbsExact(c: Call, w: Will)
    requires !c.CreateDraft? && !c.CreateCodicil?
    ensures SameContents(w, Updated(c, w)) <==> !Disturbs(c, w)
  {
    var w' := Updated(c, w);
    if c.SignWitness? {
      assert |w'.witnesses| > |w.witnesses|;
    } else if c.AddDigitalAsset? {
      assert |w'.assets| > |w.assets|;
    } else if c.AddProperty? {
      assert |w'.properties| > |w.properties|;
    }
  }

  predicate DisturbedBy(s: System, m: Move, id: WillId) {
    UpdatesRow(s, m, id) && Disturbs(s.pending[m.pid].call, s.table.rows[id])
  }

  /** A move changes the contents or signatures of a will, sealed or not, if and only if it is the write of
      a signing or adding call for that will that writes something new. */
  lemma ContentsChangeExact(s: System, m: Move, id: WillId)
    requires id in s.table.rows && id in Next(s, m).table.rows
    ensures SameContents(s.table.rows[id], Next(s, m).table.rows[id]) <==> !DisturbedBy(s, m, id)
  {
    MoveEffect(s, m, id);
    if UpdatesRow(s, m, id) {
      DisturbsExact(s.pending[m.pid].call, s.table.rows[id]);
    }
  }

  function RowAt(moves: seq<Move>, k: nat, id: WillId): Option<Will>
    requires k <= |moves|
  {
    RowOf(Exec(moves[..k]).table, id)
  }

  predicate SameAt(moves: seq<Move>, i: nat, k: nat, id: WillId)
    requires i <= |moves| && k <= |moves|
  {
    RowAt(moves, i, id).Some? && RowAt(moves, k, id).Some?
        && SameContents(RowAt(moves, i, id).value, RowAt(moves, k, id).value)
  }

  /** At every moment from i to j the contents and signatures are those of moment i. */
  predicate Unchanged(moves: seq<Move>, i: nat, j: nat, id: WillId)
    requires i <= j <= |moves|
  {
    forall k :: i <= k <= j ==> SameAt(moves, i, k, id)
  }

  /** No move from i to j writes something new to them. */
  predicate Undisturbed(moves: seq<Move>, i: nat, j: nat, id: WillId)
    requires i <= j <= |moves|
  {
    forall k :: i <= k < j ==> !DisturbedAt(moves, k, id)
  }

  predicate DisturbedAt(moves: seq<Move>, k: nat, id: WillId)
    requires k < |moves|
  {
    DisturbedBy(Exec(moves[..k]), moves[k], id)
  }

  lemma ExecStep(moves: seq<Move>, k: nat)
    requires k < |moves|
    ensures Exec(moves[..k + 1]) == Next(Exec(moves[..k]), moves[k])
  {
    assert moves[..k + 1][..k] == moves[..k];
  }

  /** Freezing under overlap, exactly: over a stretch of moves, whatever other calls are under way, the
      contents and signatures of a will stay what they were all along if and only if no signing or adding
      call writes something new to it on the way; once past draft it stays past draft; and then none does
      unless one that read the draft was under way at the start. */
  lemma FrozenUnderOverlapExact(moves: seq<Move>, i: nat, j: nat, id: WillId)
    requires i <= j <= |moves| && RowAt(moves, i, id).Some?
    ensures RowAt(moves, j, id).Some?
    ensures Unchanged(moves, i, j, id) <==> Undisturbed(moves, i, j, id)
    ensures RowAt(moves, i, id).value.status != Draft ==> RowAt(moves, j, id).value.status != Draft
    ensures RowAt(moves, i, id).value.status != Draft && !DraftReadUnderWay(Exec(moves[..i]), id) ==>
              Unchanged(moves, i, j, id)
  {
    UnchangedExact(moves, i, j, id);
    RowStays(moves, i, j, id);
    NoDraftReadIsCalm(Exec(moves[..i]), id);
    if Frozen(Exec(moves[..i]), id) {
      FrozenIsUnchanged(moves, i, j, id);
    }
  }

  lemma FrozenIsUnchanged(moves: seq<Move>, i: nat, j: nat, id: WillId)
    requires i <= j <= |moves| && Frozen(Exec(moves[..i]), id)
    ensures Unchanged(moves, i, j, id)
  {
    forall k | i <= k <= j ensures SameAt(moves, i, k, id) {
      FrozenFromNow(moves[..i], moves[i..k], id);
      assert moves[..i] + moves[i..k] == moves[..k];
    }
  }

  lemma {:induction false} UnchangedExact(moves: seq<Move>, i: nat, j: nat, id: WillId)
    requires i <= j <= |moves| && RowAt(moves, i, id).Some?
    ensures RowAt(moves, j, id).Some?
    ensures Unchanged(moves, i, j, id) <==> Undisturbed(moves, i, j, id)
    decreases j
  {
    RowStays(moves, i, j, id);
    if i < j {
      var n := j - 1;
      UnchangedExact(moves, i, n, id);
      SameOneFurther(moves, i, n, id);
      OneMore(moves, i, n, id);
    }
  }

  lemma OneMore(moves: seq<Move>, i: nat, n: nat, id: WillId)
    requires i <= n < |moves|
    ensures Unchanged(moves, i, n + 1, id) <==> Unchanged(moves, i, n, id) && SameAt(moves, i, n + 1, id)
    ensures Unchanged(moves, i, n, id) ==> SameAt(moves, i, n, id)
    ensures Undisturbed(moves, i, n + 1, id) <==> Undisturbed(moves, i, n, id) && !DisturbedAt(moves, n, id)
  {
  }

  lemma RowStays(moves: seq<Move>, i: nat, j: nat, id: WillId)
    requires i <= j <= |moves| && RowAt(moves, i, id).Some?
    ensures RowAt(moves, j, id).Some?
    ensures RowAt(moves, i, id).value.status != Draft ==> RowAt(moves, j, id).value.status != Draft
  {
    GrowsUnderOverlap(moves, i, j);
    assert RowGrows(RowAt(moves, i, id).value, Exec(moves[..j]).table.rows[id]);
  }

  lemma SameOneFurther(moves: seq<Move>, i: nat, n: nat, id: WillId)
    requires i <= n < |moves| && RowAt(moves, n, id).Some? && RowAt(moves, n + 1, id).Some?
    ensures SameAt(moves, i, n, id) ==> (SameAt(moves, i, n + 1, id) <==> !DisturbedAt(moves, n, id))
  {
    ExecStep(moves, n);
    ContentsChangeExact(Exec(moves[..n]), moves[n], id);
  }

  /** The stretch that breaks the promise: a signature, witness row or clause that read the will as a
      draft is written after the lock, and stays. */
  lemma LateContentsAfterLock(s: System, p: nat, q: nat, n: nat, c: Call, at: Time)
    requires p !in s.pending && q !in s.pending && p != q
    requires c.SignTestator? || c.SignWitness? || c.AddDigitalAsset? || c.AddProperty?
    requires Check(c, ReadOf(s.table, c)) == Done && !KeyClash(s.table, c) && Disturbs(c, s.table.rows[c.id])
    requires var lock := Lock(c.id, at); Check(lock, ReadOf(s.table, lock)) == Done && n >= 2
    ensures var lock := Lock(c.id, at);
            var sealed := Next(Next(Next(Next(s, Begin(p, c)), Begin(q, lock)), FetchWitnesses(q, n)), Commit(q));
            var after := Next(sealed, Commit(p));
            && c.id in sealed.table.rows && sealed.table.rows[c.id].status == Locked
            && c.id in after.table.rows && after.table.rows[c.id].status == Locked
            && !SameContents(sealed.table.rows[c.id], after.table.rows[c.id])
  {
    var lock := Lock(c.id, at);
    var begun := Next(Next(Next(s, Begin(p, c)), Begin(q, lock)), FetchWitnesses(q, n));
    assert Writes(begun, q);
    var sealed := Next(begun, Commit(q));
    assert sealed.table.rows[c.id] == Updated(lock, s.table.rows[c.id]);
    assert sealed.pending[p] == begun.pending[p] && Writes(sealed, p);
    ContentsChangeExact(sealed, Commit(p), c.id);
  }

  // ---- For good ----

  /** No call under way would, if its statement came now, write something new to the contents. */
  predicate Calm(s: System, id: WillId) {
    forall pid :: pid in s.pending ==> !DisturbedBy(s, Commit(pid), id)
  }

  /** A signing or adding call is under way that has read the will as a draft. */
  predicate DraftReadUnderWay(s: System, id: WillId) {
    exists pid :: pid in s.pending && ReadAsDraft(s.pending[pid], id)
  }

  predicate ReadAsDraft(p: Pending, id: WillId) {
    && (p.call.SignTestator? || p.call.SignWitness? || p.call.AddDigitalAsset? || p.call.AddProperty?)
    && p.call.id == id && p.read.row.Some? && p.read.row.value.status == Draft
  }

  /** Without such a call the contents are calm. */
  lemma NoDraftReadIsCalm(s: System, id: WillId)
    ensures !DraftReadUnderWay(s, id) ==> Calm(s, id)
  {
    forall pid | pid in s.pending && DisturbedBy(s, Commit(pid), id) ensures ReadAsDraft(s.pending[pid], id) {
    }
  }

  // What a call would write new depends on the contents alone.
  lemma DisturbanceFixed(p: Pending, p': Pending, s: System, s': System, id: WillId, pid: nat)
    requires pid in s.pending && s.pending[pid] == p && pid in s'.pending && s'.pending[pid] == p'
    requires p'.call == p.call && p'.read.row == p.read.row
    requires id in s.table.rows && id in s'.table.rows && SameContents(s.table.rows[id], s'.table.rows[id])
    ensures DisturbedBy(s', Commit(pid), id) ==> DisturbedBy(s, Commit(pid), id)
  {
  }

  // Past draft, and nothing under way that would change that.
  predicate Frozen(s: System, id: WillId) {
    id in s.table.rows && s.table.rows[id].status != Draft && Calm(s, id)
  }

  lemma FrozenRow(s: System, m: Move, id: WillId)
    requires Frozen(s, id)
    ensures id in Next(s, m).table.rows && Next(s, m).table.rows[id].status != Draft
    ensures SameContents(s.table.rows[id], Next(s, m).table.rows[id])
  {
    MoveEffect(s, m, id);
    if UpdatesRow(s, m, id) {
      DisturbsExact(s.pending[m.pid].call, s.table.rows[id]);
    }
  }

  lemma FrozenCalm(s: System, m: Move, id: WillId)
    requires Frozen(s, id)
    ensures Calm(Next(s, m), id)
  {
    var s' := Next(s, m);
    FrozenRow(s, m, id);
    forall pid | pid in s'.pending ensures !DisturbedBy(s', Commit(pid), id) {
      if pid in s.pending {
        StillPending(s, m, pid);
        DisturbanceFixed(s.pending[pid], s'.pending[pid], s, s', id, pid);
      } else {
        NewReadIsLate(s, m, id);
      }
    }
  }

  lemma StillPending(s: System, m: Move, pid: nat)
    requires pid in s.pending && pid in Next(s, m).pending
    ensures var p, p' := s.pending[pid], Next(s, m).pending[pid]; p'.call == p.call && p'.read.row == p.read.row
  {
  }

  // A call that begins once the will is past draft fails its check.
  lemma NewReadIsLate(s: System, m: Move, id: WillId)
    requires m.Begin? && m.pid !in s.pending && id in s.table.rows && s.table.rows[id].status != Draft
    ensures !DisturbedBy(Next(s, m), Commit(m.pid), id)
  {
  }

  lemma {:induction false} FrozenFromNow(moves: seq<Move>, later: seq<Move>, id: WillId)
    requires Frozen(Exec(moves), id)
    ensures Frozen(Exec(moves + later), id)
    ensures SameContents(Exec(moves).table.rows[id], Exec(moves + later).table.rows[id])
  {
    if later == [] {
      assert moves + later == moves;
    } else {
      var before, m := moves + later[..|later| - 1], later[|later| - 1];
      FrozenFromNow(moves, later[..|later| - 1], id);
      ExecLast(before, m);
      assert moves + later == before + [m];
      FrozenRow(Exec(before), m, id);
      FrozenCalm(Exec(before), m, id);
    }
  }

  lemma ExecLast(moves: seq<Move>, m: Move)
    ensures Exec(moves + [m]) == Next(Exec(moves), m)
  {
    assert (moves + [m])[..|moves|] == moves;
  }

  predicate KeepsContents(moves: seq<Move>, later: seq<Move>, id: WillId)
    requires id in Exec(moves).table.rows
  {
    id in Exec(moves + later).table.rows
    && SameContents(Exec(moves).table.rows[id], Exec(moves + later).table.rows[id])
  }

  /** Frozen for good, exactly: from the moment a will is past draft, no continuation whatever, with any
      number of new calls, changes its contents or signatures, if and only if no call already under way
      passes its check and has something new to write to it; which takes a signing or adding call that
      has read the draft. */
  lemma FrozenForGoodExact(moves: seq<Move>, id: WillId)
    requires id in Exec(moves).table.rows && Exec(moves).table.rows[id].status != Draft
    ensures Calm(Exec(moves), id) <==> forall later: seq<Move> :: KeepsContents(moves, later, id)
    ensures !DraftReadUnderWay(Exec(moves), id) ==> Calm(Exec(moves), id)
  {
    NoDraftReadIsCalm(Exec(moves), id);
    if Calm(Exec(moves), id) {
      forall later: seq<Move> ensures KeepsContents(moves, later, id) {
        FrozenFromNow(moves, later, id);
      }
    } else {
      var pid :| pid in Exec(moves).pending && DisturbedBy(Exec(moves), Commit(pid), id);
      ExecLast(moves, Commit(pid));
      MoveEffect(Exec(moves), Commit(pid), id);
      ContentsChangeExact(Exec(moves), Commit(pid), id);
      assert !KeepsContents(moves, [Commit(pid)], id);
    }
  }

  // ---- Supersession ----

  /** Every will active now was on the list. */
  predicate Complete(t: Table, c: Call, r: Read)
    requires c.CreateDraft?
  {
    forall id :: id in FindActive(t, c.testator.flt) ==> id in r.active
  }

  /** No will on the list has been reported dead or unlocked since. */
  predicate StillLiving(t: Table, r: Read) {
    forall id :: id in r.active ==>
        id in t.rows && t.rows[id].status != DeathNotified && t.rows[id].status != UnlockedAtDeath
  }

  /** A draft created on a stale list leaves the testator with one active will if and only if the list is
      complete; it leaves the whole table orderly if and only if, besides, no will on the list has died in
      the meantime; and every will keeps the heir it had if and only if none on the list was superseded. */
  lemma LateDraftExact(t: Table, c: Call, r: Read)
    requires c.CreateDraft? && Durable(t) && Orderly(t) && Remembers(t, c, r) && c.newId !in t.rows
    ensures OneActive(Write(t, c, r)) <==> Complete(t, c, r)
    ensures Orderly(Write(t, c, r)) <==> Complete(t, c, r) && StillLiving(t, r)
    ensures (forall id :: id in t.rows && t.rows[id].supersededBy.Some? ==> HeirKept(t, Write(t, c, r), id))
       <==> (forall id :: id in r.active ==> id in t.rows && t.rows[id].status != Superseded)
  {
    ListedAreRows(t, c, r);
    LateDraftActive(t, c, r);
    LateDraftRows(t, c, r);
    LateDraftHeirs(t, c, r);
  }

  predicate HeirKept(t: Table, t': Table, id: WillId)
    requires id in t.rows
  {
    id in t'.rows && t'.rows[id].supersededBy == t.rows[id].supersededBy
  }

  lemma ListedAreRows(t: Table, c: Call, r: Read)
    requires Remembers(t, c, r)
    ensures forall id :: id in r.active ==> id in t.rows
  {
    forall k | 0 <= k < |r.active| ensures r.active[k] in t.rows {
      assert Supersedable(t, c, r.active[k]);
    }
  }

  lemma LateDraftActive(t: Table, c: Call, r: Read)
    requires c.CreateDraft? && Durable(t) && Orderly(t) && c.newId !in t.rows
    requires forall id :: id in r.active ==> id in t.rows
    ensures OneActive(Write(t, c, r)) <==> Complete(t, c, r)
  {
    var t', flt0 := Write(t, c, r), c.testator.flt;
    assert IsActive(t'.rows[c.newId], flt0);
    if id :| id in FindActive(t, flt0) && id !in r.active {
      assert IsActive(t'.rows[id], flt0);
    } else {
      CompleteListLeavesOne(t, c, r);
    }
  }

  lemma LateDraftRows(t: Table, c: Call, r: Read)
    requires c.CreateDraft? && Orderly(t) && c.newId !in t.rows
    requires forall id :: id in r.active ==> id in t.rows
    ensures (forall id :: id in Write(t, c, r).rows ==> RowOrderly(Write(t, c, r).rows[id])) <==> StillLiving(t, r)
  {
    var t' := Write(t, c, r);
    forall id | id in t.rows
      ensures id in t'.rows
      ensures RowOrderly(t'.rows[id])
         <==> (id in r.active ==> t.rows[id].status != DeathNotified && t.rows[id].status != UnlockedAtDeath)
    {
      assert RowOrderly(t.rows[id]);
    }
    assert RowOrderly(t'.rows[c.newId]);
  }

  lemma LateDraftHeirs(t: Table, c: Call, r: Read)
    requires c.CreateDraft? && Durable(t) && Orderly(t) && c.newId !in t.rows
    requires forall id :: id in r.active ==> id in t.rows
    ensures (forall id :: id in t.rows && t.rows[id].supersededBy.Some? ==> HeirKept(t, Write(t, c, r), id))
       <==> (forall id :: id in r.active ==> id in t.rows && t.rows[id].status != Superseded)
  {
    forall id | id in t.rows && t.rows[id].supersededBy.Some?
      ensures HeirKept(t, Write(t, c, r), id) <==> id !in r.active
      ensures t.rows[id].status == Superseded
    {
      assert RowDurable(t, id) && RowOrderly(t.rows[id]);
      assert t.rows[id].supersededBy.value in t.rows;
    }
    forall id | id in t.rows && t.rows[id].status == Superseded ensures t.rows[id].supersededBy.Some? {
      assert RowOrderly(t.rows[id]);
    }
  }

  lemma CompleteListLeavesOne(t: Table, c: Call, r: Read)
    requires c.CreateDraft? && Durable(t) && OneActive(t) && c.newId !in t.rows
    requires forall id :: id in FindActive(t, c.testator.flt) ==> id in r.active
    ensures OneActive(Write(t, c, r))
  {
  }

  lemma ActiveFound(t: Table, id: WillId)
    requires Durable(t)
    ensures id in t.rows && IsActive(t.rows[id], t.rows[id].origin.testator.flt) ==>
        id in FindActive(t, t.rows[id].origin.testator.flt)
  {
  }

  /** The bad interleavings exist: two drafts of one testator begun before either is written both end
      up active, whatever else is in the database. */
  lemma OverlappingDraftsBothActive(s: System, p: nat, q: nat, c: Call, d: Call)
    requires Coherent(s) && p !in s.pending && q !in s.pending && p != q
    requires c.CreateDraft? && d.CreateDraft? && c.testator.flt == d.testator.flt
    requires ValidVault(c.req.vault) && ValidVault(d.req.vault)
    requires c.newId !in s.table.rows && d.newId !in s.table.rows && c.newId != d.newId
    ensures var t := Next(Next(Next(Next(s, Begin(p, c)), Begin(q, d)), Commit(p)), Commit(q)).table;
            c.newId in t.rows && d.newId in t.rows && !OneActive(t)
  {
    var s2 := Next(Next(s, Begin(p, c)), Begin(q, d));
    var s3 := Next(s2, Commit(p));
    var t := Next(s3, Commit(q)).table;
    assert s2.pending[p].read.active == FindActive(s.table, c.testator.flt) == s2.pending[q].read.active;
    assert c.newId !in FindActive(s.table, c.testator.flt) && d.newId !in FindActive(s.table, c.testator.flt);
    assert IsActive(s3.table.rows[c.newId], c.testator.flt);
    assert IsActive(t.rows[c.newId], c.testator.flt) && IsActive(t.rows[d.newId], c.testator.flt);
  }

  /** ... and a lock that read its draft before a new will superseded it brings the superseded will back
      as locked, heir and all. */
  lemma LateLockRevivesSuperseded(t: Table, lock: Call, r: Read, draft: Call)
    requires Durable(t) && lock.Lock? && draft.CreateDraft? && draft.newId !in t.rows
    requires lock.id in t.rows && r == ReadOf(t, lock) && Check(lock, r) == Done
    requires IsActive(t.rows[lock.id], draft.testator.flt) && Check(draft, ReadOf(t, draft)) == Done
    ensures var t' := Write(Apply(t, draft).table, lock, r);
            && lock.id in t'.rows && t'.rows[lock.id].status == Locked
            && t'.rows[lock.id].supersededBy == Some(draft.newId)
  {
    ActiveFound(t, lock.id);
    var u := Apply(t, draft).table;
    assert u == Write(t, draft, ReadOf(t, draft));
    assert u.rows[lock.id] == SupersededWill(t.rows[lock.id], draft.newId);
  }
}
