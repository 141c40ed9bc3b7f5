/** The hash-chained audit log as a value: how an entry's identifier is derived, and how an entry
    is linked, stored and read back.

    The hash is a parameter.  Nothing is assumed of it except that it returns nonempty text without
    the separator (as 64 hexadecimal digits are); where a statement needs two particular preimages
    not to collide, it says which. */
module AuditChain {
  import opened Text
  import opened Rfc3339
  import opened Wills
  import opened Wrappers
  import opened Clock

  type Hash = string -> string

  datatype Entry = Entry(id: string, will: WillId, prev: string, event: string, actor: Flt, payload: string,
      createdAt: Instant)

  function EventName(kind: AuditEvent): string {
    match kind
    case WillCreated => "will_created"
    case CodicilCreated => "codicil_created"
    case CodicilAppended => "codicil_appended"
    case TestatorSigned => "testator_signed"
    case WitnessSigned => "witness_signed"
    case WillLocked => "locked"
    case WillSuperseded => "superseded"
    case DeathWasNotified => "death_notified"
    case VaultUnlocked => "vault_unlocked"
    case LivenessConfirmed => "liveness_confirmed"
    case LivenessReminderSent => "liveness_reminder_sent"
  }

  ghost predicate HexLike(h: Hash) {
    forall s :: h(s) != "" && '|' !in h(s)
  }

  // ---- The preimage ----

  function Preimage(prev: string, at: Instant, event: string, will: WillId, actor: Flt): string {
    Join([prev, Format(at), event, will, actor], "|")
  }

  /** The preimage in full: predecessor, time, event, will and actor, in this order, with a separator between
      any two. */
  lemma PreimageInFull(prev: string, at: Instant, event: string, will: WillId, actor: Flt)
    ensures Preimage(prev, at, event, will, actor)
         == prev + "|" + Format(at) + "|" + event + "|" + will + "|" + actor
  {
    JoinFiveInFull(prev, Format(at), event, will, actor, "|");
  }

  /** deriveEntryID. */
  function DeriveId(h: Hash, prev: string, at: Instant, event: string, will: WillId, actor: Flt): string {
    h(Preimage(prev, at, event, will, actor))
  }

  /** The five fields can be read back from the preimage: only the actor, which comes last, may
      contain the separator. */
  lemma PreimageUnique(p: string, s: Instant, e: string, w: WillId, a: Flt, p': string, s': Instant, e': string,
      w': WillId, a': Flt)
    requires '|' !in p && '|' !in e && '|' !in w && '|' !in p' && '|' !in e' && '|' !in w'
    requires Preimage(p, s, e, w, a) == Preimage(p', s', e', w', a')
    ensures p == p' && s == s' && e == e' && w == w' && a == a'
  {
    JoinFive(p, Format(s), e, w, a, "|");
    JoinFive(p', Format(s'), e', w', a', "|");
    var x, x' := w + "|" + a, w' + "|" + a';
    var y, y' := e + "|" + x, e' + "|" + x';
    var z, z' := Format(s) + "|" + y, Format(s') + "|" + y';
    CutUnique('|', p, z, p', z');
    FormatHasNoPipe(s);
    FormatHasNoPipe(s');
    CutUnique('|', Format(s), y, Format(s'), y');
    CutUnique('|', e, x, e', x');
    CutUnique('|', w, a, w', a');
    FormatInjective(s, s');
  }

  function Separators(s: string): nat {
    multiset(s)['|']
  }

  lemma SeparatorsAdd(a: string, b: string)
    ensures Separators(a + b) == Separators(a) + Separators(b)
    ensures Separators(a) == 0 <==> '|' !in a
  {
    assert '|' in a <==> '|' in multiset(a);
  }

  /** A preimage has the four separators that join its fields, and those inside the fields. */
  lemma PreimageSeparators(p: string, s: Instant, e: string, w: WillId, a: Flt)
    ensures Separators(Preimage(p, s, e, w, a)) == 4 + Separators(p) + Separators(e) + Separators(w) + Separators(a)
  {
    JoinFive(p, Format(s), e, w, a, "|");
    FormatHasNoPipe(s);
    var x := w + "|" + a;
    var y := e + "|" + x;
    var z := Format(s) + "|" + y;
    Joined(w, a);
    Joined(e, x);
    Joined(Format(s), y);
    Joined(p, z);
    SeparatorsAdd(Format(s), "");
  }

  lemma Joined(a: string, b: string)
    ensures Separators(a + "|" + b) == Separators(a) + 1 + Separators(b)
  {
    SeparatorsAdd(a + "|", b);
    SeparatorsAdd(a, "|");
    assert Separators("|") == 1;
  }

  /** No separator in any field: then the five fields are the only ones with this preimage, whatever
      the other fields hold. */
  lemma PlainPreimageUnique(p: string, s: Instant, e: string, w: WillId, a: Flt,
                            p': string, s': Instant, e': string, w': WillId, a': Flt)
    requires '|' !in p && '|' !in e && '|' !in w && '|' !in a
    requires Preimage(p, s, e, w, a) == Preimage(p', s', e', w', a')
    ensures p == p' && s == s' && e == e' && w == w' && a == a'
  {
    PreimageSeparators(p, s, e, w, a);
    PreimageSeparators(p', s', e', w', a');
    forall x: string ensures Separators(x) == 0 <==> '|' !in x {
      SeparatorsAdd(x, "");
    }
    PreimageUnique(p, s, e, w, a, p', s', e', w', a');
  }

  /** The predecessor and the time, coming first, are determined whenever neither predecessor holds a
      separator. */
  lemma FirstFieldsUnique(p: string, s: Instant, e: string, w: WillId, a: Flt,
                          p': string, s': Instant, e': string, w': WillId, a': Flt)
    requires '|' !in p && '|' !in p'
    requires Preimage(p, s, e, w, a) == Preimage(p', s', e', w', a')
    ensures p == p' && s == s'
  {
    JoinFive(p, Format(s), e, w, a, "|");
    JoinFive(p', Format(s'), e', w', a', "|");
    var y, y' := e + "|" + (w + "|" + a), e' + "|" + (w' + "|" + a');
    CutUnique('|', p, Format(s) + "|" + y, p', Format(s') + "|" + y');
    FormatHasNoPipe(s);
    FormatHasNoPipe(s');
    CutUnique('|', Format(s), y, Format(s'), y');
    FormatInjective(s, s');
  }

  lemma EventNamesPlain(k: AuditEvent)
    ensures '|' !in EventName(k)
  {
  }

  // ---- Recording ----

  /** The surroundings of one Record call: the clock, whether the INSERT succeeds, and which of several
      equally recent rows ORDER BY created_at DESC LIMIT 1 returns. */
  datatype Surroundings = Surroundings(at: Instant, ok: bool, tie: nat -> bool)

  /** The row GetLatestEntryID finds. */
  function LatestIndex(log: seq<Entry>, will: WillId, tie: nat -> bool): (r: Option<nat>)
    ensures r.Some? ==> r.value < |log| && log[r.value].will == will
    ensures r.Some? ==> forall k :: 0 <= k < |log| && log[k].will == will ==> log[k].createdAt <= log[r.value].createdAt
    ensures r.None? <==> forall k :: 0 <= k < |log| ==> log[k].will != will
  {
    if log == [] then None
    else
      var n := |log| - 1;
      var r := LatestIndex(log[..n], will, tie);
      if log[n].will != will then r
      else if r.None? || log[n].createdAt > log[r.value].createdAt
              || (log[n].createdAt == log[r.value].createdAt && tie(n)) then Some(n)
      else r
  }

  function LatestId(log: seq<Entry>, will: WillId, tie: nat -> bool): string {
    var r := LatestIndex(log, will, tie);
    if r.None? then "" else log[r.value].id
  }

  /** The row for an event that continues from the given identifier. */
  function EntryOf(h: Hash, prev: string, e: Event, at: Instant): Entry {
    Entry(DeriveId(h, prev, at, EventName(e.kind), e.will, e.actor), e.will, prev, EventName(e.kind), e.actor,
        e.payload, Stored(at))
  }

  function EntryFor(h: Hash, log: seq<Entry>, e: Event, s: Surroundings): Entry {
    EntryOf(h, LatestId(log, e.will, s.tie), e, s.at)
  }

  predicate HasId(log: seq<Entry>, id: string) {
    exists k :: 0 <= k < |log| && log[k].id == id
  }

  /** The INSERT goes through: the database accepts it and the primary key is new. */
  predicate Inserted(h: Hash, log: seq<Entry>, e: Event, s: Surroundings) {
    s.ok && !HasId(log, EntryFor(h, log, e, s).id)
  }

  /** One call of Record; a failing INSERT is logged and forgotten. */
  function Recorded(h: Hash, log: seq<Entry>, e: Event, s: Surroundings): seq<Entry> {
    if Inserted(h, log, e, s) then log + [EntryFor(h, log, e, s)] else log
  }

  /** The events of one service call, recorded in order. */
  function RecordAll(h: Hash, log: seq<Entry>, events: seq<Event>, env: nat -> Surroundings): seq<Entry> {
    if events == [] then log
    else
      var n := |events| - 1;
      Recorded(h, RecordAll(h, log, events[..n], env), events[n], env(n))
  }

  // ---- The shape of the log ----

  predicate NewestBefore(log: seq<Entry>, i: nat, k: nat)
    requires i < |log|
  {
    k < i && log[k].will == log[i].will && log[k].id == log[i].prev
    && forall j :: 0 <= j < i && log[j].will == log[i].will ==> log[j].createdAt <= log[k].createdAt
  }

  predicate FirstOfWill(log: seq<Entry>, i: nat)
    requires i < |log|
  {
    forall j :: 0 <= j < i ==> log[j].will != log[i].will
  }

  /** Entry i starts a chain as the first of its will, or continues from an entry of its will that was
      a newest one when it was written. */
  ghost predicate Linked(log: seq<Entry>, i: nat)
    requires i < |log|
  {
    if FirstOfWill(log, i) then log[i].prev == "" else exists k :: NewestBefore(log, i, k)
  }

  /** Identifiers are distinct and every entry is linked. */
  ghost predicate Chained(log: seq<Entry>) {
    && (forall i :: 0 <= i < |log| ==> log[i].id != "")
    && (forall i, j :: 0 <= i < j < |log| ==> log[i].id != log[j].id)
    && (forall i :: 0 <= i < |log| ==> Linked(log, i))
  }

  // Whether an entry is linked depends on nothing after it.
  lemma LinkKept(log: seq<Entry>, e: Entry, i: nat)
    requires i < |log|
    ensures Linked(log + [e], i) <==> Linked(log, i)
  {
    var all := log + [e];
    assert forall j :: 0 <= j < |log| ==> all[j] == log[j];
    assert FirstOfWill(all, i) <==> FirstOfWill(log, i);
    assert forall k :: NewestBefore(all, i, k) <==> NewestBefore(log, i, k);
  }

  // e continues a newest entry of its will, or is the first.
  ghost predicate Continues(log: seq<Entry>, e: Entry) {
    if exists k :: 0 <= k < |log| && log[k].will == e.will
    then exists k :: 0 <= k < |log| && log[k].will == e.will && log[k].id == e.prev
           && forall j :: 0 <= j < |log| && log[j].will == e.will ==> log[j].createdAt <= log[k].createdAt
    else e.prev == ""
  }

  lemma AppendedLink(log: seq<Entry>, e: Entry)
    requires Continues(log, e)
    ensures Linked(log + [e], |log|)
  {
    var all := log + [e];
    if k :| 0 <= k < |log| && log[k].will == e.will {
      var m :| 0 <= m < |log| && log[m].will == e.will && log[m].id == e.prev
               && forall j :: 0 <= j < |log| && log[j].will == e.will ==> log[j].createdAt <= log[m].createdAt;
      assert all[m] == log[m] && all[k] == log[k];
      assert NewestBefore(all, |log|, m);
    }
  }

  // ... and conversely.
  lemma LinkedContinues(log: seq<Entry>, e: Entry)
    requires Linked(log + [e], |log|)
    ensures Continues(log, e)
  {
    var all := log + [e];
    assert forall j :: 0 <= j < |log| ==> all[j] == log[j];
    if k :| 0 <= k < |log| && log[k].will == e.will {
      assert all[k].will == all[|log|].will;
      assert !FirstOfWill(all, |log|);
      var m: nat :| NewestBefore(all, |log|, m);
      assert log[m].will == e.will && log[m].id == e.prev;
    } else {
      assert FirstOfWill(all, |log|);
    }
  }

  /** Appending a row with a new identifier keeps the log chained if and only if the row continues a
      newest entry of its will, or is the first. */
  lemma AppendChainedExact(log: seq<Entry>, e: Entry)
    requires Chained(log) && e.id != "" && !HasId(log, e.id)
    ensures Chained(log + [e]) <==> Continues(log, e)
  {
    if Continues(log, e) {
      AppendChained(log, e);
    } else if Chained(log + [e]) {
      assert Linked(log + [e], |log|);
      LinkedContinues(log, e);
    }
  }

  lemma AppendChained(log: seq<Entry>, e: Entry)
    requires Chained(log) && Continues(log, e) && e.id != "" && !HasId(log, e.id)
    ensures Chained(log + [e])
  {
    var all := log + [e];
    AppendedLink(log, e);
    forall i | 0 <= i < |all| ensures Linked(all, i) {
      if i < |log| {
        LinkKept(log, e, i);
      }
    }
  }

  lemma EntryContinues(h: Hash, log: seq<Entry>, e: Event, s: Surroundings)
    ensures Continues(log, EntryFor(h, log, e, s))
  {
  }

  lemma RecordedChained(h: Hash, log: seq<Entry>, e: Event, s: Surroundings)
    requires HexLike(h) && Chained(log)
    ensures Chained(Recorded(h, log, e, s))
  {
    if Inserted(h, log, e, s) {
      EntryContinues(h, log, e, s);
      AppendChained(log, EntryFor(h, log, e, s));
    }
  }

  lemma {:induction false} RecordAllChained(h: Hash, log: seq<Entry>, events: seq<Event>, env: nat -> Surroundings)
    requires HexLike(h) && Chained(log)
    ensures Chained(RecordAll(h, log, events, env)) && log <= RecordAll(h, log, events, env)
  {
    if events != [] {
      var n := |events| - 1;
      RecordAllChained(h, log, events[..n], env);
      RecordedChained(h, RecordAll(h, log, events[..n], env), events[n], env(n));
    }
  }

  /** Records that do not overlap give every will a tree with exactly one root, whatever the clock
      does: an entry has no predecessor exactly when it is its will's first, and otherwise exactly one
      earlier entry carries the identifier it points to, and that entry is its own will's. */
  lemma OneRootPerWill(log: seq<Entry>, i: nat)
    requires Chained(log) && i < |log|
    ensures log[i].prev == "" <==> FirstOfWill(log, i)
    ensures log[i].prev != "" ==> exists k :: 0 <= k < i && log[k].id == log[i].prev && log[k].will == log[i].will
                                        && forall j :: 0 <= j < |log| && log[j].id == log[i].prev ==> j == k
  {
    assert Linked(log, i);
    if !FirstOfWill(log, i) {
      var k :| NewestBefore(log, i, k);
    }
  }

  // ---- Reading order ----

  /** Puts an entry behind all that are not later. */
  function InsertByTime(es: seq<Entry>, e: Entry): (r: seq<Entry>)
    ensures multiset(r) == multiset(es) + multiset{e}
  {
    if es == [] || es[|es| - 1].createdAt <= e.createdAt then
      es + [e]
    else
      var n := |es| - 1;
      assert es == es[..n] + [es[n]];
      InsertByTime(es[..n], e) + [es[n]]
  }

  lemma {:induction false} InsertByTimeOrdered(es: seq<Entry>, e: Entry)
    requires TimeOrdered(es)
    ensures TimeOrdered(InsertByTime(es, e))
  {
    if es != [] && es[|es| - 1].createdAt > e.createdAt {
      var n := |es| - 1;
      var r := InsertByTime(es[..n], e);
      InsertByTimeOrdered(es[..n], e);
      forall i | 0 <= i < |r| ensures r[i].createdAt <= es[n].createdAt {
        MultisetMember(r, es[..n], e, i);
      }
      AppendOrdered(r, es[n]);
    }
  }

  lemma AppendOrdered(es: seq<Entry>, e: Entry)
    requires TimeOrdered(es) && forall i :: 0 <= i < |es| ==> es[i].createdAt <= e.createdAt
    ensures TimeOrdered(es + [e])
  {
  }

  lemma MultisetMember(r: seq<Entry>, es: seq<Entry>, e: Entry, i: nat)
    requires i < |r| && multiset(r) == multiset(es) + multiset{e}
    ensures r[i] == e || exists j :: 0 <= j < |es| && es[j] == r[i]
  {
    assert r[i] in multiset(r);
    assert r[i] == e || r[i] in multiset(es);
  }

  predicate TimeOrdered(es: seq<Entry>) {
    forall i, j :: 0 <= i < j < |es| ==> es[i].createdAt <= es[j].createdAt
  }

  /** The entries of a will in insertion order. */
  function OfWill(log: seq<Entry>, will: WillId): seq<Entry> {
    if log == [] then []
    else
      var n := |log| - 1;
      OfWill(log[..n], will) + (if log[n].will == will then [log[n]] else [])
  }

  /** GetByWillID: the entries of a will ORDER BY created_at ASC. */
  function ReadOrder(log: seq<Entry>, will: WillId): (r: seq<Entry>)
    ensures multiset(r) == multiset(OfWill(log, will)) && TimeOrdered(r)
  {
    if log == [] then []
    else
      var n := |log| - 1;
      var before := ReadOrder(log[..n], will);
      InsertByTimeOrdered(before, log[n]);
      if log[n].will == will then InsertByTime(before, log[n]) else before
  }

  lemma {:induction false} OfWillMembers(log: seq<Entry>, will: WillId, e: Entry)
    ensures e in OfWill(log, will) <==> e in log && e.will == will
  {
    if log != [] {
      var n := |log| - 1;
      OfWillMembers(log[..n], will, e);
      assert log == log[..n] + [log[n]];
    }
  }

  lemma {:induction false} OfWillCount(log: seq<Entry>, will: WillId, e: Entry)
    ensures multiset(OfWill(log, will))[e] == if e.will == will then multiset(log)[e] else 0
  {
    if log != [] {
      var n := |log| - 1;
      var before := OfWill(log[..n], will);
      OfWillCount(log[..n], will, e);
      assert multiset(log)[e] == multiset(log[..n])[e] + if log[n] == e then 1 else 0 by {
        assert log == log[..n] + [log[n]];
      }
      assert multiset(before + [log[n]])[e] == multiset(before)[e] + if log[n] == e then 1 else 0;
    }
  }

  lemma OfWillPermuted(log: seq<Entry>, log': seq<Entry>, will: WillId)
    requires multiset(log) == multiset(log')
    ensures multiset(OfWill(log, will)) == multiset(OfWill(log', will))
  {
    forall e ensures multiset(OfWill(log, will))[e] == multiset(OfWill(log', will))[e] {
      OfWillCount(log, will, e);
      OfWillCount(log', will, e);
    }
  }

  lemma ReadOrderMembers(log: seq<Entry>, will: WillId, e: Entry)
    ensures e in ReadOrder(log, will) <==> e in log && e.will == will
  {
    OfWillMembers(log, will, e);
    assert e in ReadOrder(log, will) <==> e in multiset(ReadOrder(log, will));
    assert e in OfWill(log, will) <==> e in multiset(OfWill(log, will));
  }

  /** Every entry of the will was stored later than the will's earlier entries. */
  predicate StrictTimes(log: seq<Entry>, will: WillId) {
    forall i, j :: 0 <= i < j < |log| && log[i].will == will && log[j].will == will ==>
        log[i].createdAt < log[j].createdAt
  }

  lemma NewestIsLast(log: seq<Entry>, will: WillId)
    requires log != [] && StrictTimes(log, will) && log[|log| - 1].will == will
    ensures var before := OfWill(log[..|log| - 1], will);
            before != [] ==> before[|before| - 1].createdAt < log[|log| - 1].createdAt
  {
    var n := |log| - 1;
    var before := OfWill(log[..n], will);
    if before != [] {
      OfWillMembers(log[..n], will, before[|before| - 1]);
    }
  }

  lemma {:induction false} ReadInWritingOrder(log: seq<Entry>, will: WillId)
    requires StrictTimes(log, will)
    ensures ReadOrder(log, will) == OfWill(log, will)
  {
    if log != [] {
      ReadInWritingOrder(log[..|log| - 1], will);
      if log[|log| - 1].will == will {
        NewestIsLast(log, will);
      }
    }
  }

  ghost predicate Linear(es: seq<Entry>) {
    && (es != [] ==> es[0].prev == "")
    && forall k :: 0 < k < |es| ==> es[k].prev == es[k - 1].id
  }

  lemma AppendLinear(es: seq<Entry>, e: Entry)
    requires Linear(es) && e.prev == if es == [] then "" else es[|es| - 1].id
    ensures Linear(es + [e])
  {
  }

  lemma {:induction false} LinearInWritingOrder(log: seq<Entry>, will: WillId)
    requires Chained(log) && StrictTimes(log, will)
    ensures Linear(OfWill(log, will))
  {
    if log != [] {
      var n := |log| - 1;
      var es := OfWill(log[..n], will);
      ChainedPrefix(log);
      LinearInWritingOrder(log[..n], will);
      if log[n].will == will {
        assert log == log[..n] + [log[n]];
        LastLinks(log[..n], log[n]);
        AppendLinear(es, log[n]);
      }
    }
  }

  /** With strictly increasing stored times a will's entries, read back in order, are one chain: each
      names the one before it, and the first names none. */
  lemma OneChainPerWill(log: seq<Entry>, will: WillId)
    requires Chained(log) && StrictTimes(log, will)
    ensures Linear(ReadOrder(log, will))
  {
    ReadInWritingOrder(log, will);
    LinearInWritingOrder(log, will);
  }

  lemma ChainedPrefix(log: seq<Entry>)
    requires log != [] && Chained(log)
    ensures Chained(log[..|log| - 1])
  {
    var n := |log| - 1;
    assert log == log[..n] + [log[n]];
    forall i | 0 <= i < n ensures Linked(log[..n], i) {
      assert Linked(log, i);
      LinkKept(log[..n], log[n], i);
    }
  }

  // m is the place of the last entry of a will.
  predicate LastPlace(log: seq<Entry>, will: WillId, m: nat) {
    m < |log| && log[m].will == will && forall k :: m < k < |log| ==> log[k].will != will
  }

  lemma {:induction false} LastOfWill(log: seq<Entry>, will: WillId)
    ensures var es := OfWill(log, will);
            if es == [] then forall k :: 0 <= k < |log| ==> log[k].will != will
            else exists m: nat :: LastPlace(log, will, m) && log[m] == es[|es| - 1]
  {
    if log != [] {
      var n := |log| - 1;
      var before := OfWill(log[..n], will);
      LastOfWill(log[..n], will);
      if log[n].will == will {
        assert LastPlace(log, will, n);
      } else if before != [] {
        var m: nat :| LastPlace(log[..n], will, m) && log[..n][m] == before[|before| - 1];
        assert LastPlace(log, will, m);
      }
    }
  }

  // With strictly increasing times the newest entry of a will is its last.
  lemma NewestIsAtLastPlace(log: seq<Entry>, e: Entry, m: nat, k: nat)
    requires StrictTimes(log + [e], e.will) && LastPlace(log, e.will, m)
    requires NewestBefore(log + [e], |log|, k)
    ensures k == m
  {
    var all := log + [e];
    assert all[k] == log[k] && all[m] == log[m];
    assert all[m].createdAt <= all[k].createdAt;
  }

  // The entry appended last continues from the one before it in its will.
  lemma LastLinks(log: seq<Entry>, e: Entry)
    requires Chained(log + [e]) && StrictTimes(log + [e], e.will)
    ensures e.prev == var es := OfWill(log, e.will); if es == [] then "" else es[|es| - 1].id
  {
    var es := OfWill(log, e.will);
    LastOfWill(log, e.will);
    assert Linked(log + [e], |log|);
    LinkedContinues(log, e);
    if es != [] {
      var m: nat :| LastPlace(log, e.will, m) && log[m] == es[|es| - 1];
      LinkedToLast(log, e, m);
    }
  }

  lemma LinkedToLast(log: seq<Entry>, e: Entry, m: nat)
    requires Linked(log + [e], |log|) && StrictTimes(log + [e], e.will) && LastPlace(log, e.will, m)
    ensures e.prev == log[m].id
  {
    var all := log + [e];
    assert all[m].will == all[|log|].will;
    assert !FirstOfWill(all, |log|);
    var k: nat :| NewestBefore(all, |log|, k);
    NewestIsAtLastPlace(log, e, m, k);
  }
}
