/** Overlapping records.  A call of Record looks up the newest entry of its will and inserts its own entry
    later, without a lock; any number of calls may be between the two. */
module AuditOverlap {
  import opened Clock
  import opened Rfc3339
  import opened Wills
  import opened AuditChain
  import opened AuditVerification
  import opened AuditCommitment
  import opened Stretches
  import WillIds

  /** A record under way: its event, its clock reading, and the predecessor it has looked up. */
  datatype Looked = Looked(event: Event, at: Instant, prev: string)

  /** The log, the readings its identifiers were made from, and the records under way. */
  datatype System = System(log: seq<Entry>, stamps: seq<Instant>, looked: map<nat, Looked>)

  datatype Move =
    | Look(pid: nat, event: Event, at: Instant, tie: nat -> bool)
    | Put(pid: nat, ok: bool)

  const INITIAL := System([], [], map[])

  function RowOf(h: Hash, l: Looked): Entry {
    EntryOf(h, l.prev, l.event, l.at)
  }

  /** The INSERT of this record would go through. */
  predicate Goes(h: Hash, s: System, m: Move) {
    m.Put? && m.ok && m.pid in s.looked && !HasId(s.log, RowOf(h, s.looked[m.pid]).id)
  }

  function Next(h: Hash, s: System, m: Move): System {
    match m
    case Look(pid, e, at, tie) =>
      if pid in s.looked then s else s.(looked := s.looked[pid := Looked(e, at, LatestId(s.log, e.will, tie))])
    case Put(pid, ok) =>
      if Goes(h, s, m) then
        System(s.log + [RowOf(h, s.looked[pid])], s.stamps + [s.looked[pid].at], s.looked - {pid})
      else s.(looked := s.looked - {pid})
  }

  function Exec(h: Hash, moves: seq<Move>): System {
    if moves == [] then INITIAL else Next(h, Exec(h, moves[..|moves| - 1]), moves[|moves| - 1])
  }

  /** A look-up followed at once by its insert is one call of Record. */
  lemma LookThenPut(h: Hash, s: System, pid: nat, e: Event, at: Instant, tie: nat -> bool, ok: bool)
    requires pid !in s.looked
    ensures Next(h, Next(h, s, Look(pid, e, at, tie)), Put(pid, ok)).log
         == Recorded(h, s.log, e, Surroundings(at, ok, tie))
  {
  }

  /** Every event recorded names its will by a UUID. */
  predicate NamesUuids(moves: seq<Move>) {
    forall k :: 0 <= k < |moves| && moves[k].Look? ==> WillIds.IsUuid(moves[k].event.will)
  }

  // ---- What holds of the log however records overlap ----

  /** The predecessor is none, or the identifier of an entry of the same will. */
  predicate PrevInside(log: seq<Entry>, prev: string, will: WillId) {
    prev == "" || exists k :: 0 <= k < |log| && log[k].id == prev && log[k].will == will
  }

  /** Every link leads to an earlier entry of the same will. */
  ghost predicate LinksBack(log: seq<Entry>) {
    forall i :: 0 <= i < |log| ==> PrevInside(log[..i], log[i].prev, log[i].will)
  }

  ghost predicate Sound(h: Hash, s: System) {
    && Honest(h, s.log, s.stamps) && DistinctIds(s.log) && LinksBack(s.log)
    && forall pid :: pid in s.looked ==> LookedSound(s.log, s.looked[pid])
  }

  predicate LookedSound(log: seq<Entry>, l: Looked) {
    '|' !in l.event.will && PrevInside(log, l.prev, l.event.will)
  }

  lemma PrevStaysInside(log: seq<Entry>, e: Entry, prev: string, will: WillId)
    requires PrevInside(log, prev, will)
    ensures PrevInside(log + [e], prev, will)
  {
    if prev != "" {
      var k :| 0 <= k < |log| && log[k].id == prev && log[k].will == will;
      assert (log + [e])[k] == log[k];
    }
  }

  lemma PrevPlain(h: Hash, log: seq<Entry>, stamps: seq<Instant>, prev: string, will: WillId)
    requires HexLike(h) && Hashed(h, log, stamps) && PrevInside(log, prev, will)
    ensures '|' !in prev
  {
    if prev != "" {
      var k :| 0 <= k < |log| && log[k].id == prev && log[k].will == will;
      assert HashedEntry(h, log[k], stamps[k]);
    }
  }

  lemma RowHonest(h: Hash, log: seq<Entry>, stamps: seq<Instant>, l: Looked)
    requires HexLike(h) && Honest(h, log, stamps) && LookedSound(log, l)
    ensures Honest(h, log + [RowOf(h, l)], stamps + [l.at])
  {
    PrevPlain(h, log, stamps, l.prev, l.event.will);
    AppendHonest(h, log, stamps, l.prev, l.event, l.at);
  }

  lemma RowLinksBack(log: seq<Entry>, e: Entry)
    requires LinksBack(log) && PrevInside(log, e.prev, e.will)
    ensures LinksBack(log + [e])
  {
    var all := log + [e];
    forall i | 0 <= i < |all| ensures PrevInside(all[..i], all[i].prev, all[i].will) {
      assert all[..i] == log[..i];
      assert log[..|log|] == log;
    }
  }

  lemma PutSound(h: Hash, s: System, m: Move)
    requires HexLike(h) && Sound(h, s) && Goes(h, s, m)
    ensures Sound(h, Next(h, s, m))
  {
    var l := s.looked[m.pid];
    var s', e := Next(h, s, m), RowOf(h, l);
    RowHonest(h, s.log, s.stamps, l);
    RowLinksBack(s.log, e);
    forall pid | pid in s'.looked ensures LookedSound(s'.log, s'.looked[pid]) {
      PrevStaysInside(s.log, e, s.looked[pid].prev, s.looked[pid].event.will);
    }
  }

  lemma LatestInside(log: seq<Entry>, will: WillId, tie: nat -> bool)
    ensures PrevInside(log, LatestId(log, will, tie), will)
  {
    var r := LatestIndex(log, will, tie);
    if r.Some? {
      assert log[r.value].id == LatestId(log, will, tie);
    }
  }

  lemma {:induction false} ExecSound(h: Hash, moves: seq<Move>)
    requires HexLike(h) && NamesUuids(moves)
    ensures Sound(h, Exec(h, moves))
  {
    if moves != [] {
      var before, m := moves[..|moves| - 1], moves[|moves| - 1];
      assert NamesUuids(before);
      ExecSound(h, before);
      var s := Exec(h, before);
      if m.Look? {
        WillIds.UuidIsPlain(m.event.will);
        LatestInside(s.log, m.event.will, m.tie);
      } else if Goes(h, s, m) {
        PutSound(h, s, m);
      }
    }
  }

  lemma LinksBackIsBackward(log: seq<Entry>)
    requires LinksBack(log)
    ensures Backward(log)
  {
    forall i | 0 <= i < |log| ensures log[i].prev == "" || HasEarlier(log, i, log[i].prev) {
      assert PrevInside(log[..i], log[i].prev, log[i].will);
    }
  }

  /** However records overlap, a will's entries form trees: an entry without predecessor starts one, and
      otherwise exactly one entry carries the identifier it names, an earlier one of the same will. */
  lemma ForestUnderOverlap(h: Hash, moves: seq<Move>, i: nat)
    requires HexLike(h) && NamesUuids(moves) && i < |Exec(h, moves).log|
    ensures var log := Exec(h, moves).log;
            log[i].prev != "" ==>
              exists k :: 0 <= k < i && log[k].id == log[i].prev && log[k].will == log[i].will
                && forall j :: 0 <= j < |log| && log[j].id == log[i].prev ==> j == k
  {
    var log := Exec(h, moves).log;
    ExecSound(h, moves);
    assert PrevInside(log[..i], log[i].prev, log[i].will);
    if log[i].prev != "" {
      var k :| 0 <= k < i && log[..i][k].id == log[i].prev && log[..i][k].will == log[i].will;
      assert log[k].id == log[i].prev;
    }
  }

  // ---- Commitment and verification ----

  /** What a log is worth as evidence, however its records overlapped: each of its identifiers commits to
      the history recorded behind it, against every log the verifier accepts, if no actor in that history
      holds a separator; and when the verifier accepts the log itself, if and only if. */
  lemma HeadCommitsUnderOverlap(h: Hash, moves: seq<Move>, i: nat)
    requires HexLike(h) && NamesUuids(moves) && i < |Exec(h, moves).log|
    ensures var log, stamps := Exec(h, moves).log, Exec(h, moves).stamps;
            && |stamps| == |log|
            && (PlainActors(log, i) ==> Commits(h, log, stamps, i))
            && (Accepted(h, log) && CutsSafely(h, log, stamps) ==>
                  (Commits(h, log, stamps, i) <==> PlainActors(log, i)))
  {
    var log, stamps := Exec(h, moves).log, Exec(h, moves).stamps;
    ExecSound(h, moves);
    LinksBackIsBackward(log);
    if PlainActors(log, i) {
      PlainActorsCommit(h, log, stamps, i);
    } else if Accepted(h, log) && CutsSafely(h, log, stamps) {
      HonestAcceptedExact(h, log, stamps);
      assert stamps == StoredTimes(log);
      CommitmentExact(h, log, i);
    }
  }

  /** No event recorded names an actor with a separator. */
  predicate NamesPlainActors(moves: seq<Move>) {
    forall k :: 0 <= k < |moves| && moves[k].Look? ==> '|' !in moves[k].event.actor
  }

  ghost predicate PlainSystem(s: System) {
    PlainLog(s.log) && forall pid :: pid in s.looked ==> '|' !in s.looked[pid].event.actor
  }

  lemma {:induction false} ExecPlain(h: Hash, moves: seq<Move>)
    requires NamesPlainActors(moves)
    ensures PlainSystem(Exec(h, moves))
  {
    if moves != [] {
      assert NamesPlainActors(moves[..|moves| - 1]);
      ExecPlain(h, moves[..|moves| - 1]);
    }
  }

  /** If no recorded event names an actor with a separator, every identifier of the log commits to the
      history behind it. */
  lemma PlainEventsCommit(h: Hash, moves: seq<Move>, i: nat)
    requires HexLike(h) && NamesUuids(moves) && NamesPlainActors(moves) && i < |Exec(h, moves).log|
    ensures var s := Exec(h, moves); |s.stamps| == |s.log| && Commits(h, s.log, s.stamps, i)
  {
    ExecPlain(h, moves);
    AllPlainActors(Exec(h, moves).log, i);
    HeadCommitsUnderOverlap(h, moves, i);
  }

  /** However its records overlapped, a log verifies for a will exactly when the clock showed whole
      microseconds at every record of it that went through. */
  lemma VerifiesUnderOverlapExact(h: Hash, moves: seq<Move>, will: WillId)
    requires HexLike(h) && NamesUuids(moves)
    ensures var log, stamps := Exec(h, moves).log, Exec(h, moves).stamps;
            && |stamps| == |log|
            && (CutsSafely(h, log, stamps) ==>
                  (ChainVerifies(h, log, will)
                   <==> forall i :: 0 <= i < |log| && log[i].will == will ==> stamps[i] % 1_000 == 0))
  {
    ExecSound(h, moves);
    if CutsSafely(h, Exec(h, moves).log, Exec(h, moves).stamps) {
      VerifiesIffWholeMicroseconds(h, Exec(h, moves).log, Exec(h, moves).stamps, will);
    }
  }

  // ---- The shape, exactly ----

  /** If move k inserts, it finds the predecessor it remembers still a newest entry of the will, or still
      no entry. */
  ghost predicate StillNewestAt(h: Hash, moves: seq<Move>, k: nat)
    requires k < |moves|
  {
    var s := Exec(h, moves[..k]);
    Goes(h, s, moves[k]) ==> Continues(s.log, RowOf(h, s.looked[moves[k].pid]))
  }

  lemma ExecStep(h: Hash, moves: seq<Move>, n: nat)
    requires n < |moves|
    ensures Exec(h, moves[..n + 1]) == Next(h, Exec(h, moves[..n]), moves[n])
  {
    assert moves[..n + 1][..n] == moves[..n];
  }

  lemma NextChained(h: Hash, s: System, m: Move)
    requires HexLike(h)
    ensures Chained(Next(h, s, m).log)
       <==> Chained(s.log) && (Goes(h, s, m) ==> Continues(s.log, RowOf(h, s.looked[m.pid])))
  {
    if Goes(h, s, m) {
      var e := RowOf(h, s.looked[m.pid]);
      if Chained(s.log) {
        AppendChainedExact(s.log, e);
      } else if Chained(s.log + [e]) {
        assert (s.log + [e])[..|s.log|] == s.log;
        ChainedPrefix(s.log + [e]);
      }
    }
  }

  lemma ChainedStep(h: Hash, moves: seq<Move>, n: nat)
    requires HexLike(h) && n < |moves|
    ensures Chained(Exec(h, moves[..n + 1]).log)
       <==> Chained(Exec(h, moves[..n]).log) && StillNewestAt(h, moves, n)
  {
    ExecStep(h, moves, n);
    NextChained(h, Exec(h, moves[..n]), moves[n]);
  }

  /** At every moment n, the log is chained if and only if every insert that went through so far found its
      remembered predecessor still newest. */
  lemma ChainedExact(h: Hash, moves: seq<Move>, n: nat)
    requires HexLike(h) && n <= |moves|
    ensures Chained(Exec(h, moves[..n]).log) <==> forall k: nat :: k < n ==> StillNewestAt(h, moves, k)
  {
    var holds := (k: nat) => k <= |moves| && Chained(Exec(h, moves[..k]).log);
    var good := (k: nat) => k < |moves| && StillNewestAt(h, moves, k);
    forall k: nat | k < n ensures holds(k + 1) <==> holds(k) && good(k) {
      ChainedStep(h, moves, k);
    }
    assert Exec(h, moves[..0]).log == [];
    KeptAlong(holds, good, n);
    assert forall k: nat :: k < n ==> (good(k) <==> StillNewestAt(h, moves, k));
  }

  /** At most one entry of the will has no predecessor. */
  predicate OneRoot(log: seq<Entry>, will: WillId) {
    forall i, j :: 0 <= i < j < |log| && log[i].will == will && log[j].will == will ==>
      log[i].prev != "" || log[j].prev != ""
  }

  predicate HasEntry(log: seq<Entry>, will: WillId) {
    exists k :: 0 <= k < |log| && log[k].will == will
  }

  /** The move inserts an entry for the will whose look-up found none, when there is one by now. */
  predicate SecondRoot(h: Hash, s: System, m: Move, will: WillId) {
    && Goes(h, s, m)
    && s.looked[m.pid].event.will == will && s.looked[m.pid].prev == "" && HasEntry(s.log, will)
  }

  predicate SecondRootAt(h: Hash, moves: seq<Move>, k: nat, will: WillId)
    requires k < |moves|
  {
    SecondRoot(h, Exec(h, moves[..k]), moves[k], will)
  }

  predicate HasRoot(log: seq<Entry>, will: WillId) {
    exists i :: 0 <= i < |log| && log[i].will == will && log[i].prev == ""
  }

  // The first entry of a will has no predecessor, since links lead back inside the will.
  lemma FirstIsRoot(log: seq<Entry>, will: WillId, k: nat)
    requires LinksBack(log) && k < |log| && log[k].will == will
    ensures HasRoot(log, will)
  {
    if log[k].prev != "" {
      assert PrevInside(log[..k], log[k].prev, log[k].will);
      var j :| 0 <= j < k && log[..k][j].id == log[k].prev && log[..k][j].will == log[k].will;
      FirstIsRoot(log, will, j);
    }
  }

  lemma AppendOneRoot(log: seq<Entry>, e: Entry, will: WillId)
    requires LinksBack(log)
    ensures OneRoot(log + [e], will) <==> OneRoot(log, will) && !(e.will == will && e.prev == "" && HasEntry(log, will))
  {
    var all := log + [e];
    assert forall i :: 0 <= i < |log| ==> all[i] == log[i];
    if e.will == will && e.prev == "" && HasEntry(log, will) {
      var k :| 0 <= k < |log| && log[k].will == will;
      FirstIsRoot(log, will, k);
      var i :| 0 <= i < |log| && log[i].will == will && log[i].prev == "";
      assert all[i].prev == "" && all[|log|].prev == "";
    }
    if OneRoot(all, will) {
      forall i, j | 0 <= i < j < |log| && log[i].will == will && log[j].will == will
        ensures log[i].prev != "" || log[j].prev != ""
      {
        assert all[i].prev != "" || all[j].prev != "";
      }
    }
  }

  lemma NextOneRoot(h: Hash, s: System, m: Move, will: WillId)
    requires LinksBack(s.log)
    ensures OneRoot(Next(h, s, m).log, will) <==> OneRoot(s.log, will) && !SecondRoot(h, s, m, will)
  {
    if Goes(h, s, m) {
      AppendOneRoot(s.log, RowOf(h, s.looked[m.pid]), will);
    }
  }

  lemma OneRootStep(h: Hash, moves: seq<Move>, n: nat, will: WillId)
    requires HexLike(h) && NamesUuids(moves) && n < |moves|
    ensures OneRoot(Exec(h, moves[..n + 1]).log, will)
       <==> OneRoot(Exec(h, moves[..n]).log, will) && !SecondRootAt(h, moves, n, will)
  {
    ExecStep(h, moves, n);
    ExecSound(h, moves[..n]);
    NextOneRoot(h, Exec(h, moves[..n]), moves[n], will);
  }

  /** At every moment n, a will has at most one root if and only if no record whose look-up found nothing
      was inserted after another entry of that will. */
  lemma OneRootExact(h: Hash, moves: seq<Move>, n: nat, will: WillId)
    requires HexLike(h) && NamesUuids(moves) && n <= |moves|
    ensures OneRoot(Exec(h, moves[..n]).log, will) <==> forall k: nat :: k < n ==> !SecondRootAt(h, moves, k, will)
  {
    var holds := (k: nat) => k <= |moves| && OneRoot(Exec(h, moves[..k]).log, will);
    var good := (k: nat) => k < |moves| && !SecondRootAt(h, moves, k, will);
    forall k: nat | k < n ensures holds(k + 1) <==> holds(k) && good(k) {
      OneRootStep(h, moves, k, will);
    }
    assert Exec(h, moves[..0]).log == [];
    KeptAlong(holds, good, n);
    assert forall k: nat :: k < n ==> (good(k) <==> !SecondRootAt(h, moves, k, will));
  }

  /** ... and it has one as soon as it has an entry. */
  lemma SomeRoot(h: Hash, moves: seq<Move>, will: WillId)
    requires HexLike(h) && NamesUuids(moves) && HasEntry(Exec(h, moves).log, will)
    ensures HasRoot(Exec(h, moves).log, will)
  {
    ExecSound(h, moves);
    EntryMeansRoot(Exec(h, moves).log, will);
  }

  lemma EntryMeansRoot(log: seq<Entry>, will: WillId)
    requires LinksBack(log) && HasEntry(log, will)
    ensures HasRoot(log, will)
  {
    var k :| 0 <= k < |log| && log[k].will == will;
    FirstIsRoot(log, will, k);
  }

  /** Two records of a will that both look up before either inserts: if the first to insert is stored later
      than all entries there were, the second breaks the chain. */
  lemma OverlappingRecordsFork(h: Hash, log: seq<Entry>, e: Event, s: Surroundings, e': Event, s': Surroundings)
    requires HexLike(h) && Chained(log) && e.will == e'.will
    requires forall k :: 0 <= k < |log| && log[k].will == e.will ==> log[k].createdAt < Stored(s.at)
    requires Inserted(h, log, e, s) && !HasId(Recorded(h, log, e, s), EntryFor(h, log, e', s').id)
    ensures Chained(Recorded(h, log, e, s)) && !Chained(Recorded(h, log, e, s) + [EntryFor(h, log, e', s')])
  {
    var all, x := Recorded(h, log, e, s), EntryFor(h, log, e', s');
    RecordedChained(h, log, e, s);
    AppendChainedExact(all, x);
    assert all[|log|] == EntryFor(h, log, e, s);
    LatestInside(log, e.will, s'.tie);
  }
}
