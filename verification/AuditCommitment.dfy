/** What an entry identifier commits to: the history behind it, as seen in any log with that identifier. */
module AuditCommitment {
  import opened Rfc3339
  import opened AuditChain
  import opened AuditVerification
  import opened AuditTampering

  predicate HasEarlier(log: seq<Entry>, i: nat, id: string)
    requires i <= |log|
  {
    exists k :: 0 <= k < i && log[k].id == id
  }

  /** Entry i names an earlier entry as its predecessor. */
  predicate HasParent(log: seq<Entry>, i: nat)
    requires i < |log|
  {
    log[i].prev != "" && HasEarlier(log, i, log[i].prev)
  }

  /** Every predecessor is an earlier entry. */
  ghost predicate Backward(log: seq<Entry>) {
    forall i :: 0 <= i < |log| ==> log[i].prev == "" || HasEarlier(log, i, log[i].prev)
  }

  lemma ChainedIsBackward(log: seq<Entry>)
    requires Chained(log)
    ensures Backward(log)
  {
    forall i | 0 <= i < |log| ensures log[i].prev == "" || HasEarlier(log, i, log[i].prev) {
      OneRootPerWill(log, i);
    }
  }

  ghost function ParentOf(log: seq<Entry>, i: nat): (k: nat)
    requires i < |log| && HasParent(log, i)
    ensures k < i && log[k].id == log[i].prev
  {
    var k :| 0 <= k < i && log[k].id == log[i].prev;
    k
  }

  /** The facts from entry i back to the start of its chain. */
  ghost function BackChain(log: seq<Entry>, stamps: seq<Instant>, i: nat): (facts: seq<Fact>)
    requires |stamps| == |log| && i < |log|
    decreases i
  {
    [FactOf(log[i], stamps[i])] + (if HasParent(log, i) then BackChain(log, stamps, ParentOf(log, i)) else [])
  }

  /** No actor from entry i back to the start of its chain holds a separator. */
  ghost predicate PlainActors(log: seq<Entry>, i: nat)
    requires i < |log|
    decreases i
  {
    '|' !in log[i].actor && (HasParent(log, i) ==> PlainActors(log, ParentOf(log, i)))
  }

  predicate PlainLog(log: seq<Entry>) {
    forall e :: e in log ==> '|' !in e.actor
  }

  lemma {:induction false} AllPlainActors(log: seq<Entry>, i: nat)
    requires i < |log| && PlainLog(log)
    ensures PlainActors(log, i)
    decreases i
  {
    if HasParent(log, i) {
      AllPlainActors(log, ParentOf(log, i));
    }
  }

  /** A path through any log along predecessor identifiers, down to an entry without one. */
  ghost predicate IsWalk(log: seq<Entry>, path: seq<nat>) {
    && path != [] && path[0] < |log|
    && if log[path[0]].prev == "" then |path| == 1
       else IsWalk(log, path[1..]) && log[path[1]].id == log[path[0]].prev
  }

  ghost function FactsAlong(log: seq<Entry>, stamps: seq<Instant>, path: seq<nat>): seq<Fact>
    requires |stamps| == |log| && IsWalk(log, path)
  {
    [FactOf(log[path[0]], stamps[path[0]])] + (if |path| == 1 then [] else FactsAlong(log, stamps, path[1..]))
  }

  /** Every identifier is derived from the entry's fields and the given time; the fields may hold anything. */
  ghost predicate AllDerived(h: Hash, log: seq<Entry>, stamps: seq<Instant>) {
    |stamps| == |log| && forall i :: 0 <= i < |log| ==> Derived(h, log[i], stamps[i])
  }

  function StoredTimes(log: seq<Entry>): (stamps: seq<Instant>)
    ensures |stamps| == |log|
  {
    seq(|log|, i requires 0 <= i < |log| => log[i].createdAt)
  }

  /** The verifier accepts a log exactly when its identifiers are derived from the stored times. */
  lemma AcceptedIsDerived(h: Hash, log: seq<Entry>)
    ensures Accepted(h, log) <==> AllDerived(h, log, StoredTimes(log))
  {
    forall i | 0 <= i < |log| ensures EntryVerifies(h, log[i]) <==> Derived(h, log[i], StoredTimes(log)[i]) {
    }
  }

  /** Some preimage of one log and some different preimage of the other have one hash. */
  ghost predicate LogsCollide(h: Hash, a: seq<Entry>, s: seq<Instant>, b: seq<Entry>, t: seq<Instant>)
    requires |s| == |a| && |t| == |b|
  {
    exists i, j :: 0 <= i < |a| && 0 <= j < |b| && Collide(h, PreimageOf(a[i], s[i]), PreimageOf(b[j], t[j]))
  }

  lemma SameIdSameFact(h: Hash, e: Entry, s: Instant, f: Entry, t: Instant)
    requires HashedEntry(h, e, s) && '|' !in e.actor && Derived(h, f, t) && e.id == f.id
    ensures FactOf(e, s) == FactOf(f, t) || Collide(h, PreimageOf(e, s), PreimageOf(f, t))
  {
    if PreimageOf(e, s) == PreimageOf(f, t) {
      PlainPreimageUnique(e.prev, s, e.event, e.will, e.actor, f.prev, t, f.event, f.will, f.actor);
    }
  }

  /** A head identifier commits to the whole history behind it.  Take a log a whose links lead
      backwards, as Record makes them, and any other log b whose identifiers re-derive from whatever
      its fields hold.  If an entry of b carries the identifier of an entry of a, and no actor behind
      that entry in a holds a separator, then every walk from it along b's links meets exactly a's
      history (the same length, and at every step the same time, event, will, actor and predecessor),
      or the two logs between them show a collision of the hash. */
  lemma {:induction false} HeadCommitsToHistory(h: Hash, a: seq<Entry>, s: seq<Instant>, i: nat,
                                                b: seq<Entry>, t: seq<Instant>, path: seq<nat>)
    requires Hashed(h, a, s) && Backward(a) && AllDerived(h, b, t)
    requires i < |a| && PlainActors(a, i) && IsWalk(b, path) && b[path[0]].id == a[i].id
    ensures FactsAlong(b, t, path) == BackChain(a, s, i) || LogsCollide(h, a, s, b, t)
    decreases i
  {
    SameIdSameFact(h, a[i], s[i], b[path[0]], t[path[0]]);
    if FactOf(a[i], s[i]) == FactOf(b[path[0]], t[path[0]]) && a[i].prev != "" {
      HeadCommitsToHistory(h, a, s, ParentOf(a, i), b, t, path[1..]);
    }
  }

  // ---- There is such a walk ----

  ghost predicate WalksFrom(log: seq<Entry>, j: nat) {
    exists path :: IsWalk(log, path) && path[0] == j
  }

  lemma WalkExtends(log: seq<Entry>, j: nat, m: nat)
    requires j < |log| && m < |log| && log[j].prev != "" && log[m].id == log[j].prev && WalksFrom(log, m)
    ensures WalksFrom(log, j)
  {
    var rest :| IsWalk(log, rest) && rest[0] == m;
    var path := [j] + rest;
    assert path[1..] == rest;
    assert IsWalk(log, path);
  }

  lemma WalkOfOne(log: seq<Entry>, j: nat)
    requires j < |log| && log[j].prev == ""
    ensures WalksFrom(log, j)
  {
    assert IsWalk(log, [j]);
  }

  lemma LinkedPrevPlain(h: Hash, b: seq<Entry>, t: seq<Instant>, j: nat)
    requires HexLike(h) && AllDerived(h, b, t) && LinksInside(b) && j < |b|
    ensures '|' !in b[j].prev
  {
    if b[j].prev != "" {
      var k :| 0 <= k < |b| && b[k].id == b[j].prev;
      assert Derived(h, b[k], t[k]);
    }
  }

  /** Where b's links lead to entries of b, as the foreign key demands, a walk to a root exists from every
      identifier it shares with a, whatever the actors hold. */
  lemma {:induction false} HistoryIsFound(h: Hash, a: seq<Entry>, s: seq<Instant>, i: nat,
                                          b: seq<Entry>, t: seq<Instant>, j: nat)
    requires HexLike(h) && Hashed(h, a, s) && Backward(a) && AllDerived(h, b, t) && LinksInside(b)
    requires i < |a| && j < |b| && b[j].id == a[i].id
    ensures WalksFrom(b, j) || LogsCollide(h, a, s, b, t)
    decreases i
  {
    var x, y := PreimageOf(a[i], s[i]), PreimageOf(b[j], t[j]);
    assert HashedEntry(h, a[i], s[i]) && Derived(h, b[j], t[j]);
    if x == y {
      LinkedPrevPlain(h, b, t, j);
      FirstFieldsUnique(a[i].prev, s[i], a[i].event, a[i].will, a[i].actor, b[j].prev, t[j], b[j].event, b[j].will,
          b[j].actor);
      if a[i].prev == "" {
        WalkOfOne(b, j);
      } else {
        assert HasId(b, b[j].prev);
        var m: nat :| m < |b| && b[m].id == b[j].prev;
        HistoryIsFound(h, a, s, ParentOf(a, i), b, t, m);
        if WalksFrom(b, m) {
          WalkExtends(b, j, m);
        }
      }
    } else {
      assert Collide(h, x, y);
    }
  }

  // ---- The condition on the actors cannot be dropped ----

  ghost predicate DistinctIds(log: seq<Entry>) {
    forall i, j :: 0 <= i < j < |log| ==> log[i].id != log[j].id
  }

  /** The same log with entry j split again. */
  function Forged(a: seq<Entry>, j: nat): (b: seq<Entry>)
    requires j < |a| && '|' in a[j].actor
    ensures |b| == |a|
    ensures forall i :: 0 <= i < |a| ==>
              b[i].id == a[i].id && b[i].prev == a[i].prev && b[i].createdAt == a[i].createdAt
    ensures forall i :: 0 <= i < |a| && i != j ==> b[i] == a[i]
  {
    a[j := Resplit(a[j])]
  }

  lemma ForgedPreimages(a: seq<Entry>, s: seq<Instant>, j: nat, i: nat)
    requires |s| == |a| && j < |a| && '|' in a[j].actor && i < |a|
    ensures PreimageOf(Forged(a, j)[i], s[i]) == PreimageOf(a[i], s[i])
  {
    if i == j {
      ResplitPreimage(a[j], s[j]);
    }
  }

  /** The forged log passes the verifier if the true one does, and shows no collision. */
  lemma ForgedPasses(h: Hash, a: seq<Entry>, s: seq<Instant>, j: nat)
    requires AllDerived(h, a, s) && DistinctIds(a) && j < |a| && '|' in a[j].actor
    ensures AllDerived(h, Forged(a, j), s)
    ensures !LogsCollide(h, a, s, Forged(a, j), s)
  {
    var b := Forged(a, j);
    forall i | 0 <= i < |b| ensures Derived(h, b[i], s[i]) {
      assert Derived(h, a[i], s[i]);
      ForgedPreimages(a, s, j, i);
    }
    forall m, n | 0 <= m < |a| && 0 <= n < |b| ensures !Collide(h, PreimageOf(a[m], s[m]), PreimageOf(b[n], s[n])) {
      ForgedPreimages(a, s, j, n);
      assert Derived(h, a[m], s[m]) && Derived(h, a[n], s[n]);
      assert m != n ==> a[m].id != a[n].id;
    }
  }

  // Any log with a's identifiers and links is walked as a is.
  lemma {:induction false} WalkBack(a: seq<Entry>, b: seq<Entry>, i: nat) returns (path: seq<nat>)
    requires Backward(a) && |b| == |a| && i < |a|
    requires forall k :: 0 <= k < |a| ==> b[k].id == a[k].id && b[k].prev == a[k].prev
    ensures IsWalk(b, path) && path[0] == i
    decreases i
  {
    if a[i].prev == "" {
      path := [i];
    } else {
      var rest := WalkBack(a, b, ParentOf(a, i));
      path := [i] + rest;
      assert path[1..] == rest;
    }
  }

  lemma {:induction false} ForgedWalk(h: Hash, a: seq<Entry>, s: seq<Instant>, i: nat) returns (j: nat, path: seq<nat>)
    requires Backward(a) && |s| == |a| && i < |a| && !PlainActors(a, i)
    ensures j <= i && '|' in a[j].actor
    ensures IsWalk(Forged(a, j), path) && path[0] == i
    ensures FactsAlong(Forged(a, j), s, path) != BackChain(a, s, i)
    decreases i
  {
    if '|' in a[i].actor {
      j := i;
      path := WalkBack(a, Forged(a, i), i);
      ResplitUnnoticed(h, a[i], s[i]);
      assert FactsAlong(Forged(a, i), s, path)[0] == FactOf(Resplit(a[i]), s[i]);
    } else {
      var rest;
      j, rest := ForgedWalk(h, a, s, ParentOf(a, i));
      path := [i] + rest;
      assert path[1..] == rest;
      assert FactsAlong(Forged(a, j), s, path)[1..] == FactsAlong(Forged(a, j), s, rest);
      assert BackChain(a, s, i)[1..] == BackChain(a, s, ParentOf(a, i));
    }
  }

  /** Entry i of a commits to its history against every log that the verifier accepts. */
  ghost predicate Commits(h: Hash, a: seq<Entry>, s: seq<Instant>, i: nat)
    requires |s| == |a| && i < |a|
  {
    forall b: seq<Entry>, path: seq<nat> :: Accepted(h, b) && IsWalk(b, path) && b[path[0]].id == a[i].id ==>
                        || FactsAlong(b, StoredTimes(b), path) == BackChain(a, s, i)
                        || LogsCollide(h, a, s, b, StoredTimes(b))
  }

  lemma PlainActorsCommit(h: Hash, a: seq<Entry>, s: seq<Instant>, i: nat)
    requires Hashed(h, a, s) && Backward(a) && i < |a| && PlainActors(a, i)
    ensures Commits(h, a, s, i)
  {
    forall b: seq<Entry>, path: seq<nat> | Accepted(h, b) && IsWalk(b, path) && b[path[0]].id == a[i].id
      ensures FactsAlong(b, StoredTimes(b), path) == BackChain(a, s, i) || LogsCollide(h, a, s, b, StoredTimes(b))
    {
      AcceptedIsDerived(h, b);
      HeadCommitsToHistory(h, a, s, i, b, StoredTimes(b), path);
    }
  }

  lemma SplitActorsDoNot(h: Hash, a: seq<Entry>, i: nat)
    requires AllDerived(h, a, StoredTimes(a)) && Backward(a) && DistinctIds(a) && i < |a| && !PlainActors(a, i)
    ensures !Commits(h, a, StoredTimes(a), i)
  {
    var s := StoredTimes(a);
    var j, path := ForgedWalk(h, a, s, i);
    var b := Forged(a, j);
    ForgedPasses(h, a, s, j);
    assert StoredTimes(b) == s;
    AcceptedIsDerived(h, b);
  }

  /** The exact condition: an entry of a log that the verifier accepts commits to the history behind it,
      against every other accepted log, if and only if no actor in that history holds a separator. */
  lemma CommitmentExact(h: Hash, a: seq<Entry>, i: nat)
    requires Hashed(h, a, StoredTimes(a)) && Backward(a) && DistinctIds(a) && i < |a|
    ensures Commits(h, a, StoredTimes(a), i) <==> PlainActors(a, i)
  {
    if PlainActors(a, i) {
      PlainActorsCommit(h, a, StoredTimes(a), i);
    } else {
      SplitActorsDoNot(h, a, i);
    }
  }
}
