/** Overlapping calls.  A call reads its row, may read the witness rows in a second query, and later
    writes with UPDATE ... WHERE id = $1, which never looks at the status again.  Any number of calls
    may be between read and write.

    The facts gathered in Durable survive every interleaving.  The rest is kept if every write still finds
    what its call read; module LateWrites says exactly which late write breaks what. */
module Interleaving {
  import opened Wills
  import opened Invariants
  import opened Runs

  /** A call under way, and what it has read so far. */
  datatype Pending = Pending(call: Call, read: Read)

  datatype System = System(table: Table, pending: map<nat, Pending>)

  datatype Move =
    | Begin(pid: nat, call: Call)
    | FetchWitnesses(pid: nat, delivered: nat)
    | Commit(pid: nat)

  const INITIAL := System(EMPTY, map[])

  function Min(a: nat, b: nat): nat {
    if a < b then a else b
  }

  /** One database statement of one call.  The witness query may deliver fewer rows than there are,
      since its errors are dropped.  A move of a call that is not under way does nothing. */
  function Next(s: System, m: Move): System {
    match m
    case Begin(pid, c) =>
      if pid in s.pending then s
      else s.(pending := s.pending[pid := Pending(c, ReadOf(s.table, c).(witnessRows := 0))])
    case FetchWitnesses(pid, delivered) =>
      if pid !in s.pending || s.pending[pid].read.row.None? || s.pending[pid].call.CreateDraft? then s
      else
        var p := s.pending[pid];
        var rows := if p.call.id in s.table.rows then |s.table.rows[p.call.id].witnesses| else 0;
        s.(pending := s.pending[pid := p.(read := p.read.(witnessRows := Min(delivered, rows)))])
    case Commit(pid) =>
      if pid !in s.pending then s
      else System(if Writes(s, pid) then Write(s.table, s.pending[pid].call, s.pending[pid].read) else s.table,
          s.pending - {pid})
  }

  /** The call passes its check on what it read, and its statement breaks no key. */
  predicate Writes(s: System, pid: nat)
    requires pid in s.pending
  {
    Check(s.pending[pid].call, s.pending[pid].read) == Done && !KeyClash(s.table, s.pending[pid].call)
  }

  /** A call that nobody interrupts, and whose witness query delivers every row, is the atomic call. */
  lemma UninterruptedIsAtomic(s: System, pid: nat, c: Call, delivered: nat)
    requires pid !in s.pending
    requires !c.CreateDraft? && c.id in s.table.rows ==> |s.table.rows[c.id].witnesses| <= delivered
    ensures Next(Next(Next(s, Begin(pid, c)), FetchWitnesses(pid, delivered)), Commit(pid))
         == s.(table := Apply(s.table, c).table)
  {
    var fetched := Next(Next(s, Begin(pid, c)), FetchWitnesses(pid, delivered));
    assert fetched.pending[pid] == Pending(c, ReadOf(s.table, c));
    assert fetched.pending - {pid} == s.pending;
  }

  function Exec(moves: seq<Move>): System {
    if moves == [] then INITIAL else Next(Exec(moves[..|moves| - 1]), moves[|moves| - 1])
  }

  // ---- What survives every interleaving ----

  ghost predicate Coherent(s: System) {
    Durable(s.table) && forall pid :: pid in s.pending ==> Remembers(s.table, s.pending[pid].call, s.pending[pid].read)
  }

  lemma CommitCoherent(s: System, pid: nat)
    requires Coherent(s) && pid in s.pending
    ensures Coherent(Next(s, Commit(pid))) && Grows(s.table, Next(s, Commit(pid)).table)
  {
    var s' := Next(s, Commit(pid));
    GrowsReflexive(s.table);
    if Writes(s, pid) {
      WriteDurable(s.table, s.pending[pid].call, s.pending[pid].read);
    }
    forall p | p in s'.pending ensures Remembers(s'.table, s'.pending[p].call, s'.pending[p].read) {
      RemembersAsTableGrows(s.table, s'.table, s.pending[p].call, s.pending[p].read);
    }
  }

  lemma NextCoherent(s: System, m: Move)
    requires Coherent(s)
    ensures Coherent(Next(s, m)) && Grows(s.table, Next(s, m).table)
  {
    GrowsReflexive(s.table);
    match m
    case Begin(pid, c) => ReadRemembers(s.table, c);
    case FetchWitnesses(pid, _) =>
    case Commit(pid) =>
      if pid in s.pending {
        CommitCoherent(s, pid);
      }
  }

  lemma {:induction false} ExecCoherent(moves: seq<Move>)
    ensures Coherent(Exec(moves))
  {
    if moves != [] {
      ExecCoherent(moves[..|moves| - 1]);
      NextCoherent(Exec(moves[..|moves| - 1]), moves[|moves| - 1]);
    }
  }

  /** In every interleaving of any number of calls: a sealed will carries the testator's signature and
      at least two witness rows, none by the testator; a superseded will names an heir; every heir is a
      later will of the same testator, no codicil is superseded or an heir; and a codicil's parent is an
      earlier will of the same testator that has left draft. */
  lemma SafeUnderOverlap(moves: seq<Move>, id: WillId)
    requires id in Exec(moves).table.rows
    ensures var t := Exec(moves).table; var w := t.rows[id];
            && (Sealed(w.status) ==> w.signedAt.Some? && |w.witnesses| >= 2)
            && (forall k :: 0 <= k < |w.witnesses| ==> w.witnesses[k].signer.flt != w.origin.testator.flt)
            && (w.status == Superseded ==> w.supersededBy.Some? && !w.origin.isCodicil)
            && LinkHolds(t, w) && ParentHolds(t, w)
  {
    ExecCoherent(moves);
    assert RowDurable(Exec(moves).table, id);
  }

  /** In every interleaving rows are never lost, what an insertion wrote never changes, signatures and
      links only accumulate, and no will returns to draft. */
  lemma {:induction false} GrowsUnderOverlap(moves: seq<Move>, i: nat, j: nat)
    requires i <= j <= |moves|
    ensures Grows(Exec(moves[..i]).table, Exec(moves[..j]).table)
    decreases j
  {
    if i == j {
      GrowsReflexive(Exec(moves[..i]).table);
    } else {
      GrowsUnderOverlap(moves, i, j - 1);
      assert moves[..j][..j - 1] == moves[..j - 1];
      ExecCoherent(moves[..j - 1]);
      NextCoherent(Exec(moves[..j - 1]), moves[j - 1]);
      GrowsTransitive(Exec(moves[..i]).table, Exec(moves[..j - 1]).table, Exec(moves[..j]).table);
    }
  }

  // ---- When overlapping calls are as good as atomic ones ----

  /** The calls that wrote, in the order of their writes. */
  function Committed(moves: seq<Move>): seq<Request> {
    if moves == [] then []
    else
      var s, m := Exec(moves[..|moves| - 1]), moves[|moves| - 1];
      Committed(moves[..|moves| - 1])
      + (if m.Commit? && m.pid in s.pending && Writes(s, m.pid) then [Direct(s.pending[m.pid].call)] else [])
  }

  /** Read again at the moment of its write, the call would still pass its check and list the same wills. */
  predicate StillFresh(t: Table, p: Pending) {
    Check(p.call, ReadOf(t, p.call)) == Done && ReadOf(t, p.call).active == p.read.active
  }

  /** Move k, if it writes, writes on a fresh read. */
  predicate FreshAt(moves: seq<Move>, k: nat)
    requires k < |moves|
  {
    var s, m := Exec(moves[..k]), moves[k];
    m.Commit? && m.pid in s.pending && Writes(s, m.pid) ==> StillFresh(s.table, s.pending[m.pid])
  }

  predicate AllFresh(moves: seq<Move>) {
    forall k :: 0 <= k < |moves| ==> FreshAt(moves, k)
  }

  lemma CommitSerial(s: System, pid: nat, done: seq<Request>)
    requires s.table == After(done) && pid in s.pending && Writes(s, pid) && StillFresh(s.table, s.pending[pid])
    ensures Next(s, Commit(pid)).table == After(done + [Direct(s.pending[pid].call)])
  {
  }

  lemma FreshPrefix(moves: seq<Move>)
    requires moves != [] && AllFresh(moves)
    ensures AllFresh(moves[..|moves| - 1])
  {
    var before := moves[..|moves| - 1];
    forall k | 0 <= k < |before| ensures FreshAt(before, k) {
      assert FreshAt(moves, k);
      assert before[..k] == moves[..k] && before[k] == moves[k];
    }
  }

  lemma {:induction false} FreshMovesAreSerial(moves: seq<Move>)
    requires AllFresh(moves)
    ensures Exec(moves).table == After(Committed(moves))
  {
    if moves != [] {
      var before, m := moves[..|moves| - 1], moves[|moves| - 1];
      FreshPrefix(moves);
      FreshMovesAreSerial(before);
      assert FreshAt(moves, |moves| - 1);
      var s := Exec(before);
      if m.Commit? && m.pid in s.pending && Writes(s, m.pid) {
        CommitSerial(s, m.pid, Committed(before));
      } else {
        assert Committed(moves) == Committed(before);
      }
    }
  }

  /** Serializability: if every write still finds what its call read, the interleaving leaves the very
      table that the same calls leave when run one after the other in the order of their writes; in
      particular that table is orderly. */
  lemma FreshInterleavingIsSerial(moves: seq<Move>)
    requires AllFresh(moves)
    ensures Exec(moves).table == After(Committed(moves))
    ensures Orderly(Exec(moves).table)
  {
    FreshMovesAreSerial(moves);
    RunKeepsInvariants(Committed(moves));
  }
}
