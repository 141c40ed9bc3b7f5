/** The time lock when calls overlap.  What a late write read was once true, so even then a will is only
    unlocked when some written report's delay has run out.  But with two reports of one death in flight
    that need not be the report whose unlock time the row carries: this module says exactly which writes
    unlock a will before its own unlock time. */
module OverlappingUnlocks {
  import opened Wrappers
  import opened Clock
  import opened Wills
  import opened Invariants
  import opened Runs
  import opened Interleaving
  import opened LateWrites

  predicate IsLock(q: Request, id: WillId) {
    q.Direct? && q.call.Lock? && q.call.id == id
  }

  /** A death report whose delay ran out by the given time. */
  predicate IsReport(q: Request, id: WillId, bound: Time) {
    && q.Direct? && q.call.NotifyDeath? && q.call.id == id
    && Stored(q.call.now) + q.call.delayDays * DAY <= bound
  }

  ghost predicate LockedBefore(done: seq<Request>, id: WillId) {
    exists i :: 0 <= i < |done| && IsLock(done[i], id)
  }

  /** A lock was written, and later a death report whose delay ran out by the given time. */
  ghost predicate ReportedBefore(done: seq<Request>, id: WillId, bound: Time) {
    exists i, j :: 0 <= i < j < |done| && IsLock(done[i], id) && IsReport(done[j], id, bound)
  }

  /** The calls written so far bear out what the row says of its stage. */
  ghost predicate Backed(done: seq<Request>, id: WillId, w: Will) {
    && (Sealed(w.status) ==> LockedBefore(done, id))
    && (w.unlockAfter.Some? ==> ReportedBefore(done, id, w.unlockAfter.value))
    && (w.unlockedAt.Some? ==> ReportedBefore(done, id, w.unlockedAt.value))
    && (w.status == DeathNotified ==> w.unlockAfter.Some?)
    && (w.status == UnlockedAtDeath ==> w.unlockedAt.Some?)
  }

  lemma LockedLater(done: seq<Request>, q: Request, id: WillId)
    ensures LockedBefore(done, id) || IsLock(q, id) ==> LockedBefore(done + [q], id)
  {
    var all := done + [q];
    if LockedBefore(done, id) {
      var i :| 0 <= i < |done| && IsLock(done[i], id);
      assert IsLock(all[i], id);
    } else if IsLock(q, id) {
      assert IsLock(all[|done|], id);
    }
  }

  lemma ReportedLater(done: seq<Request>, q: Request, id: WillId, bound: Time)
    ensures ReportedBefore(done, id, bound) ==> ReportedBefore(done + [q], id, bound)
    ensures LockedBefore(done, id) && IsReport(q, id, bound) ==> ReportedBefore(done + [q], id, bound)
  {
    var all := done + [q];
    if ReportedBefore(done, id, bound) {
      var i, j :| 0 <= i < j < |done| && IsLock(done[i], id) && IsReport(done[j], id, bound);
      assert IsLock(all[i], id) && IsReport(all[j], id, bound);
    } else if LockedBefore(done, id) && IsReport(q, id, bound) {
      var i :| 0 <= i < |done| && IsLock(done[i], id);
      assert IsLock(all[i], id) && IsReport(all[|done|], id, bound);
    }
  }

  lemma BackedLater(done: seq<Request>, q: Request, id: WillId, w: Will)
    requires Backed(done, id, w)
    ensures Backed(done + [q], id, w)
  {
    LockedLater(done, q, id);
    if w.unlockAfter.Some? {
      ReportedLater(done, q, id, w.unlockAfter.value);
    }
    if w.unlockedAt.Some? {
      ReportedLater(done, q, id, w.unlockedAt.value);
    }
  }

  // A bound in stored time that a reading has reached, its stored form has reached.
  lemma ReportedByStored(done: seq<Request>, id: WillId, bound: Time, now: Time)
    requires ReportedBefore(done, id, bound) && bound <= now
    ensures ReportedBefore(done, id, Stored(now))
  {
    var i, j :| 0 <= i < j < |done| && IsLock(done[i], id) && IsReport(done[j], id, bound);
    StoredKeepsDays(done[j].call.now, done[j].call.delayDays);
    StoredMonotone(Stored(done[j].call.now) + done[j].call.delayDays * DAY, now);
    assert IsReport(done[j], id, Stored(now));
  }

  /** A write on a row v once read, coming when the row is w, leaves a row the calls bear out. */
  lemma WriteBacked(done: seq<Request>, c: Call, v: Will, rows: nat, w: Will)
    requires !c.CreateDraft? && !c.CreateCodicil?
    requires !c.RecordReminder? ==> CheckRow(c, v, rows) == Done && Backed(done, c.id, v)
    requires Backed(done, c.id, w)
    ensures Backed(done + [Direct(c)], c.id, Updated(c, w))
  {
    BackedLater(done, Direct(c), c.id, w);
    if c.Lock? {
      LockedLater(done, Direct(c), c.id);
    } else if c.NotifyDeath? {
      ReportBacked(done, c, w);
    } else if c.CompleteUnlock? {
      ReportedByStored(done, c.id, v.unlockAfter.value, c.now);
      UnlockBacked(done, c, w);
    }
  }

  lemma ReportBacked(done: seq<Request>, c: Call, w: Will)
    requires c.NotifyDeath? && LockedBefore(done, c.id) && Backed(done + [Direct(c)], c.id, w)
    ensures Backed(done + [Direct(c)], c.id, Updated(c, w))
  {
    StoredKeepsDays(c.now, c.delayDays);
    LockedLater(done, Direct(c), c.id);
    ReportedLater(done, Direct(c), c.id, Stored(c.now) + c.delayDays * DAY);
  }

  lemma UnlockBacked(done: seq<Request>, c: Call, w: Will)
    requires c.CompleteUnlock? && LockedBefore(done, c.id) && ReportedBefore(done, c.id, Stored(c.now))
    requires Backed(done + [Direct(c)], c.id, w)
    ensures Backed(done + [Direct(c)], c.id, Updated(c, w))
  {
    LockedLater(done, Direct(c), c.id);
    ReportedLater(done, Direct(c), c.id, Stored(c.now));
  }

  ghost predicate AllBacked(s: System, done: seq<Request>) {
    && (forall id :: id in s.table.rows ==> Backed(done, id, s.table.rows[id]))
    && (forall pid :: pid in s.pending ==> ReadBacked(done, s.pending[pid]))
  }

  ghost predicate ReadBacked(done: seq<Request>, p: Pending) {
    p.read.row.Some? && !p.call.CreateDraft? ==> Backed(done, p.call.id, p.read.row.value)
  }

  lemma RowBacked(s: System, done: seq<Request>, pid: nat, id: WillId)
    requires AllBacked(s, done) && pid in s.pending && Writes(s, pid)
    requires id in Next(s, Commit(pid)).table.rows
    ensures Backed(done + [Direct(s.pending[pid].call)], id, Next(s, Commit(pid)).table.rows[id])
  {
    var c, r := s.pending[pid].call, s.pending[pid].read;
    if id in s.table.rows {
      assert Backed(done, id, s.table.rows[id]);
      BackedLater(done, Direct(c), id, s.table.rows[id]);
      if !c.CreateDraft? && !c.CreateCodicil? && c.id == id {
        assert ReadBacked(done, s.pending[pid]);
        WriteBacked(done, c, if c.RecordReminder? then s.table.rows[id] else r.row.value, r.witnessRows,
            s.table.rows[id]);
      }
    }
  }

  lemma CommitBacked(s: System, done: seq<Request>, pid: nat)
    requires AllBacked(s, done) && pid in s.pending && Writes(s, pid)
    ensures AllBacked(Next(s, Commit(pid)), done + [Direct(s.pending[pid].call)])
  {
    var s', done' := Next(s, Commit(pid)), done + [Direct(s.pending[pid].call)];
    forall id | id in s'.table.rows ensures Backed(done', id, s'.table.rows[id]) {
      RowBacked(s, done, pid, id);
    }
    forall p | p in s'.pending ensures ReadBacked(done', s'.pending[p]) {
      assert ReadBacked(done, s.pending[p]);
      if s.pending[p].read.row.Some? && !s.pending[p].call.CreateDraft? {
        BackedLater(done, Direct(s.pending[pid].call), s.pending[p].call.id, s.pending[p].read.row.value);
      }
    }
  }

  // A move that writes nothing.
  lemma QuietMoveBacked(s: System, done: seq<Request>, m: Move)
    requires AllBacked(s, done) && !(m.Commit? && m.pid in s.pending && Writes(s, m.pid))
    ensures AllBacked(Next(s, m), done)
  {
    var s' := Next(s, m);
    assert s'.table == s.table;
    forall p | p in s'.pending ensures ReadBacked(done, s'.pending[p]) {
      if p in s.pending {
        assert ReadBacked(done, s.pending[p]);
      }
    }
  }

  lemma {:induction false} ExecBacked(moves: seq<Move>)
    ensures AllBacked(Exec(moves), Committed(moves))
  {
    if moves != [] {
      var before, m := moves[..|moves| - 1], moves[|moves| - 1];
      ExecBacked(before);
      if m.Commit? && m.pid in Exec(before).pending && Writes(Exec(before), m.pid) {
        CommitBacked(Exec(before), Committed(before), m.pid);
      } else {
        QuietMoveBacked(Exec(before), Committed(before), m);
        assert Committed(moves) == Committed(before);
      }
    }
  }

  /** What survives every interleaving: a will that is unlocked was locked by one call, later reported dead
      by another, and it was unlocked no earlier than that report plus the delay it asked for. */
  lemma UnlockedOnlyAfterTimeLock(moves: seq<Move>, id: WillId)
    requires id in Exec(moves).table.rows && Exec(moves).table.rows[id].status == UnlockedAtDeath
    ensures var w, done := Exec(moves).table.rows[id], Committed(moves);
            && w.unlockedAt.Some?
            && ReportedBefore(done, id, w.unlockedAt.value)
  {
    ExecBacked(moves);
    assert Backed(Committed(moves), id, Exec(moves).table.rows[id]);
  }

  // ---- The unlock time of the row itself ----

  /** An unlocked will with an unlock time was unlocked no earlier. */
  predicate Waited(w: Will) {
    w.status == UnlockedAtDeath && w.unlockAfter.Some? ==>
      w.unlockedAt.Some? && w.unlockAfter.value <= w.unlockedAt.value
  }

  /** The write unlocks a will whose unlock time has not come. */
  predicate TooSoon(c: Call, w: Will) {
    && (c.CompleteUnlock? || (c.NotifyDeath? && c.delayDays == 0))
    && w.unlockAfter.Some? && Stored(c.now) < w.unlockAfter.value
  }

  predicate UnlocksTooSoon(s: System, m: Move, id: WillId) {
    UpdatesRow(s, m, id) && TooSoon(s.pending[m.pid].call, s.table.rows[id])
  }

  lemma WaitedExact(c: Call, w: Will)
    requires !c.CreateDraft? && !c.CreateCodicil? && Waited(w)
    ensures Waited(Updated(c, w)) <==> !TooSoon(c, w)
  {
  }

  /** A move breaks the time lock of a will if and only if it is the write of an unlock, or of a report
      without delay, that comes before the unlock time the row now carries. */
  lemma TimeLockBreaksExact(s: System, m: Move, id: WillId)
    requires id in s.table.rows && Waited(s.table.rows[id]) && id in Next(s, m).table.rows
    ensures Waited(Next(s, m).table.rows[id]) <==> !UnlocksTooSoon(s, m, id)
  {
    MoveEffect(s, m, id);
    if UpdatesRow(s, m, id) {
      WaitedExact(s.pending[m.pid].call, s.table.rows[id]);
    }
  }

  /** Such a write has been overtaken: since it read the will in an orderly state, another report has
      given the row a new unlock time. */
  lemma TooSoonIsOvertaken(s: System, m: Move, id: WillId)
    requires UnlocksTooSoon(s, m, id)
    ensures var v := s.pending[m.pid].read.row;
            v.Some? && (Timed(v.value) ==> s.table.rows[id].unlockAfter != v.value.unlockAfter)
  {
    var c, v := s.pending[m.pid].call, s.pending[m.pid].read.row.value;
    if Timed(v) && v.unlockAfter.Some? && v.unlockAfter.value <= c.now {
      StoredMonotone(v.unlockAfter.value, c.now);
    }
  }

  lemma CreatedWaited(s: System, m: Move, id: WillId)
    requires id !in s.table.rows && id in Next(s, m).table.rows
    ensures Waited(Next(s, m).table.rows[id])
  {
  }

  predicate WaitedAt(moves: seq<Move>, k: nat, id: WillId)
    requires k <= |moves|
  {
    RowAt(moves, k, id).Some? ==> Waited(RowAt(moves, k, id).value)
  }

  predicate TooSoonAt(moves: seq<Move>, k: nat, id: WillId)
    requires k < |moves|
  {
    UnlocksTooSoon(Exec(moves[..k]), moves[k], id)
  }

  predicate AlwaysWaited(moves: seq<Move>, n: nat, id: WillId)
    requires n <= |moves|
  {
    forall k :: 0 <= k <= n ==> WaitedAt(moves, k, id)
  }

  predicate NeverTooSoon(moves: seq<Move>, n: nat, id: WillId)
    requires n <= |moves|
  {
    forall k :: 0 <= k < n ==> !TooSoonAt(moves, k, id)
  }

  lemma WaitedOneFurther(moves: seq<Move>, n: nat, id: WillId)
    requires n < |moves| && WaitedAt(moves, n, id)
    ensures WaitedAt(moves, n + 1, id) <==> !TooSoonAt(moves, n, id)
  {
    ExecStep(moves, n);
    var s := Exec(moves[..n]);
    if id in s.table.rows {
      MoveEffect(s, moves[n], id);
      TimeLockBreaksExact(s, moves[n], id);
    } else if id in Next(s, moves[n]).table.rows {
      CreatedWaited(s, moves[n], id);
    }
  }

  lemma OneMoveMore(moves: seq<Move>, n: nat, id: WillId)
    requires n < |moves|
    ensures AlwaysWaited(moves, n + 1, id) <==> AlwaysWaited(moves, n, id) && WaitedAt(moves, n + 1, id)
    ensures AlwaysWaited(moves, n, id) ==> WaitedAt(moves, n, id)
    ensures NeverTooSoon(moves, n + 1, id) <==> NeverTooSoon(moves, n, id) && !TooSoonAt(moves, n, id)
  {
  }

  /** The time lock under overlap, exactly: all through an interleaving a will is never found unlocked
      before the unlock time its row carries, if and only if no write of an unlock or of a report without
      delay comes before the unlock time the row then carries. */
  lemma {:induction false} TimeLockExact(moves: seq<Move>, n: nat, id: WillId)
    requires n <= |moves|
    ensures AlwaysWaited(moves, n, id) <==> NeverTooSoon(moves, n, id)
  {
    if n > 0 {
      TimeLockExact(moves, n - 1, id);
      OneMoveMore(moves, n - 1, id);
      if AlwaysWaited(moves, n - 1, id) {
        WaitedOneFurther(moves, n - 1, id);
      }
    } else {
      assert moves[..0] == [];
    }
  }

  /** Two reports of one death in flight, one of them without delay: the will is put under its time lock,
      then unlocked on the same day. */
  lemma SecondReportSkipsDelay(s: System, p: nat, q: nat, id: WillId, days: nat, now: Time)
    requires p !in s.pending && q !in s.pending && p != q && days > 0
    requires id in s.table.rows && s.table.rows[id].status == Locked
    ensures var begun := Next(Next(s, Begin(p, NotifyDeath(id, days, now))), Begin(q, NotifyDeath(id, 0, now)));
            var cooling := Next(begun, Commit(p));
            var after := Next(cooling, Commit(q));
            && id in cooling.table.rows && cooling.table.rows[id].status == DeathNotified
            && UnlocksTooSoon(cooling, Commit(q), id)
            && id in after.table.rows && after.table.rows[id].status == UnlockedAtDeath
            && after.table.rows[id].unlockedAt == Some(Stored(now))
            && after.table.rows[id].unlockAfter == Some(Stored(now) + days * DAY)
  {
    var begun := Next(Next(s, Begin(p, NotifyDeath(id, days, now))), Begin(q, NotifyDeath(id, 0, now)));
    assert Writes(begun, p);
    var cooling := Next(begun, Commit(p));
    assert cooling.pending[q] == begun.pending[q] && Writes(cooling, q);
    StoredKeepsDays(now, days);
  }
}
