/** What the verifier accepts of the logs that Record writes. */
module AuditVerification {
  import opened Rfc3339
  import opened Wills
  import opened Clock
  import opened AuditChain

  /** The test VerifyChain puts to each entry: its identifier re-derived from its own stored fields,
      the stored predecessor included. */
  predicate EntryVerifies(h: Hash, e: Entry) {
    DeriveId(h, e.prev, e.createdAt, e.event, e.will, e.actor) == e.id
  }

  ghost predicate ChainVerifies(h: Hash, log: seq<Entry>, will: WillId) {
    forall i :: 0 <= i < |log| && log[i].will == will ==> EntryVerifies(h, log[i])
  }

  /** The verifier accepts the chain of every will. */
  ghost predicate Accepted(h: Hash, log: seq<Entry>) {
    forall i :: 0 <= i < |log| ==> EntryVerifies(h, log[i])
  }

  lemma AcceptedWillByWill(h: Hash, log: seq<Entry>)
    ensures Accepted(h, log) <==> forall will :: ChainVerifies(h, log, will)
  {
    if forall will :: ChainVerifies(h, log, will) {
      forall i | 0 <= i < |log| ensures EntryVerifies(h, log[i]) {
        assert ChainVerifies(h, log, log[i].will);
      }
    }
  }

  /** The separator occurs in none of the fields but the actor. */
  predicate Plain(e: Entry) {
    '|' !in e.prev && '|' !in e.event && '|' !in e.will
  }

  function PreimageOf(e: Entry, stamp: Instant): string {
    Preimage(e.prev, stamp, e.event, e.will, e.actor)
  }

  /** The identifier is derived from the fields and the given time. */
  predicate Derived(h: Hash, e: Entry, stamp: Instant) {
    e.id == h(PreimageOf(e, stamp))
  }

  predicate HashedEntry(h: Hash, e: Entry, stamp: Instant) {
    Plain(e) && Derived(h, e, stamp)
  }

  /** A log of plain entries, each with its identifier derived from its fields and the given time. */
  ghost predicate Hashed(h: Hash, log: seq<Entry>, stamps: seq<Instant>) {
    |stamps| == |log| && forall i :: 0 <= i < |log| ==> HashedEntry(h, log[i], stamps[i])
  }

  /** A log as Record leaves it: identifiers from nanosecond clock readings, rows with microseconds. */
  ghost predicate Honest(h: Hash, log: seq<Entry>, stamps: seq<Instant>) {
    Hashed(h, log, stamps) && forall i :: 0 <= i < |log| ==> log[i].createdAt == Stored(stamps[i])
  }

  /** The clock readings behind the entries RecordAll adds. */
  function StampsAfter(h: Hash, log: seq<Entry>, stamps: seq<Instant>, events: seq<Event>,
      env: nat -> Surroundings): seq<Instant> {
    if events == [] then stamps
    else
      var n := |events| - 1;
      var before := StampsAfter(h, log, stamps, events[..n], env);
      if Inserted(h, RecordAll(h, log, events[..n], env), events[n], env(n)) then before + [env(n).at] else before
  }

  lemma LatestIdPlain(h: Hash, log: seq<Entry>, stamps: seq<Instant>, will: WillId, tie: nat -> bool)
    requires HexLike(h) && Hashed(h, log, stamps)
    ensures '|' !in LatestId(log, will, tie)
  {
  }

  lemma EntryHashed(h: Hash, prev: string, e: Event, at: Instant)
    requires '|' !in prev && '|' !in e.will
    ensures HashedEntry(h, EntryOf(h, prev, e, at), at)
  {
    EventNamesPlain(e.kind);
  }

  /** A row made for an event continues an honest log, whatever predecessor it names. */
  lemma AppendHonest(h: Hash, log: seq<Entry>, stamps: seq<Instant>, prev: string, e: Event, at: Instant)
    requires Honest(h, log, stamps) && '|' !in prev && '|' !in e.will
    ensures Honest(h, log + [EntryOf(h, prev, e, at)], stamps + [at])
  {
    EntryHashed(h, prev, e, at);
  }

  lemma RecordedHonest(h: Hash, log: seq<Entry>, stamps: seq<Instant>, e: Event, s: Surroundings)
    requires HexLike(h) && Honest(h, log, stamps) && '|' !in e.will
    ensures Honest(h, log + [EntryFor(h, log, e, s)], stamps + [s.at])
  {
    LatestIdPlain(h, log, stamps, e.will, s.tie);
    AppendHonest(h, log, stamps, LatestId(log, e.will, s.tie), e, s.at);
  }

  lemma {:induction false} RecordAllHonest(h: Hash, log: seq<Entry>, stamps: seq<Instant>, events: seq<Event>,
      env: nat -> Surroundings)
    requires HexLike(h) && Honest(h, log, stamps)
    requires forall k :: 0 <= k < |events| ==> '|' !in events[k].will
    ensures Honest(h, RecordAll(h, log, events, env), StampsAfter(h, log, stamps, events, env))
  {
    if events != [] {
      var n := |events| - 1;
      RecordAllHonest(h, log, stamps, events[..n], env);
      RecordedHonest(h, RecordAll(h, log, events[..n], env), StampsAfter(h, log, stamps, events[..n], env), events[n],
          env(n));
    }
  }

  /** The hashed facts of an entry. */
  datatype Fact = Fact(prev: string, stamp: Instant, event: string, will: WillId, actor: Flt)

  function FactOf(e: Entry, stamp: Instant): Fact {
    Fact(e.prev, stamp, e.event, e.will, e.actor)
  }

  /** Two different texts with one hash. */
  predicate Collide(h: Hash, x: string, y: string) {
    x != y && h(x) == h(y)
  }

  /** Cutting an entry's time to microseconds does not lead to a collision. */
  predicate CutSafely(h: Hash, e: Entry, stamp: Instant) {
    !Collide(h, PreimageOf(e, stamp), PreimageOf(e, e.createdAt))
  }

  /** No entry of the log collides with itself cut to microseconds. */
  predicate CutsSafely(h: Hash, log: seq<Entry>, stamps: seq<Instant>) {
    forall i :: 0 <= i < |log| && i < |stamps| ==> CutSafely(h, log[i], stamps[i])
  }

  lemma EntryVerifiesExact(h: Hash, e: Entry, stamp: Instant)
    requires HashedEntry(h, e, stamp) && e.createdAt == Stored(stamp) && CutSafely(h, e, stamp)
    ensures EntryVerifies(h, e) <==> stamp % 1_000 == 0
  {
    if EntryVerifies(h, e) {
      PreimageUnique(e.prev, stamp, e.event, e.will, e.actor, e.prev, e.createdAt, e.event, e.will, e.actor);
    }
  }

  /** The log Record writes, read back, passes verification exactly when every clock reading of the
      will was a whole number of microseconds. */
  lemma VerifiesIffWholeMicroseconds(h: Hash, log: seq<Entry>, stamps: seq<Instant>, will: WillId)
    requires Honest(h, log, stamps) && CutsSafely(h, log, stamps)
    ensures ChainVerifies(h, log, will) <==> forall i :: 0 <= i < |log| && log[i].will == will ==>
        stamps[i] % 1_000 == 0
  {
    forall i | 0 <= i < |log| ensures EntryVerifies(h, log[i]) <==> stamps[i] % 1_000 == 0 {
      EntryVerifiesExact(h, log[i], stamps[i]);
    }
  }

  /** Unless a cut makes two preimages collide, the verifier accepts such a log, will by will, exactly
      when its rows keep the very readings its identifiers were made from. */
  lemma HonestAcceptedExact(h: Hash, log: seq<Entry>, stamps: seq<Instant>)
    requires Honest(h, log, stamps) && CutsSafely(h, log, stamps)
    ensures Accepted(h, log) <==> forall i :: 0 <= i < |log| ==> log[i].createdAt == stamps[i]
  {
    AcceptedWillByWill(h, log);
    forall will ensures ChainVerifies(h, log, will)
                   <==> forall i :: 0 <= i < |log| && log[i].will == will ==> stamps[i] % 1_000 == 0
    {
      VerifiesIffWholeMicroseconds(h, log, stamps, will);
    }
    if Accepted(h, log) {
      forall i | 0 <= i < |log| ensures log[i].createdAt == stamps[i] {
        assert ChainVerifies(h, log, log[i].will);
      }
    }
  }
}
