/** What the verifier notices of a log changed behind its back.  It looks at one entry at a time, so it
    notices a changed field and nothing else: entries may go missing, move or come twice. */
module AuditTampering {
  import opened Text
  import opened Rfc3339
  import opened Wills
  import opened Permutations
  import opened AuditChain
  import opened AuditVerification

  /** An accepted chain stays accepted when its entries are taken away, reordered or repeated, and
      whatever happens to the entries of other wills. */
  lemma OnlyEntriesCount(h: Hash, log: seq<Entry>, other: seq<Entry>, will: WillId)
    requires ChainVerifies(h, log, will)
    requires forall e :: e in other && e.will == will ==> e in log
    ensures ChainVerifies(h, other, will)
  {
  }

  /** Taking entry k away, or all entries from k on, is never noticed. */
  lemma DeletionUnnoticed(h: Hash, log: seq<Entry>, k: nat, will: WillId)
    requires ChainVerifies(h, log, will) && k < |log|
    ensures ChainVerifies(h, log[..k] + log[k + 1..], will)
    ensures ChainVerifies(h, log[..k], will)
  {
    OnlyEntriesCount(h, log, log[..k] + log[k + 1..], will);
    OnlyEntriesCount(h, log, log[..k], will);
  }

  /** The order of the rows makes no difference to the verdict, good or bad. */
  lemma ReorderingUnnoticed(h: Hash, log: seq<Entry>, other: seq<Entry>, will: WillId)
    requires multiset(other) == multiset(log)
    ensures ChainVerifies(h, other, will) <==> ChainVerifies(h, log, will)
  {
    SameMembers(other, log);
    if ChainVerifies(h, log, will) {
      OnlyEntriesCount(h, log, other, will);
    }
    if ChainVerifies(h, other, will) {
      OnlyEntriesCount(h, other, log, will);
    }
  }

  /** A second entry under the same identifier re-derives exactly when it states the same five facts,
      unless the two preimages collide.  The stored hash of the payload is free.  One of the two actors
      must be told apart from the will before it: either the true one holds no separator, or the other
      entry has none in its event and will. */
  lemma SameIdVerifiesExact(h: Hash, e: Entry, e': Entry)
    requires EntryVerifies(h, e) && Plain(e) && e'.id == e.id
    requires '|' !in e.actor || Plain(e')
    requires !Collide(h, PreimageOf(e, e.createdAt), PreimageOf(e', e'.createdAt))
    ensures EntryVerifies(h, e') <==> FactOf(e', e'.createdAt) == FactOf(e, e.createdAt)
  {
    if EntryVerifies(h, e') {
      assert PreimageOf(e, e.createdAt) == PreimageOf(e', e'.createdAt);
      if Plain(e') {
        PreimageUnique(e.prev, e.createdAt, e.event, e.will, e.actor, e'.prev, e'.createdAt, e'.event, e'.will,
            e'.actor);
      } else {
        PlainPreimageUnique(e.prev, e.createdAt, e.event, e.will, e.actor, e'.prev, e'.createdAt, e'.event, e'.will,
            e'.actor);
      }
    }
  }

  /** Replacing an entry of an accepted log under its identifier is noticed exactly when a hashed fact
      changes. */
  lemma ReplacementExact(h: Hash, log: seq<Entry>, k: nat, e': Entry)
    requires Accepted(h, log) && k < |log| && Plain(log[k]) && e'.id == log[k].id
    requires '|' !in log[k].actor || Plain(e')
    requires !Collide(h, PreimageOf(log[k], log[k].createdAt), PreimageOf(e', e'.createdAt))
    ensures Accepted(h, log[k := e']) <==> FactOf(e', e'.createdAt) == FactOf(log[k], log[k].createdAt)
  {
    SameIdVerifiesExact(h, log[k], e');
    assert log[k := e'][k] == e';
    assert forall i :: 0 <= i < |log| && i != k ==> log[k := e'][i] == log[i];
  }

  /** An actor with a separator in it can be split again: the part before the first one moves to the end
      of the will identifier. */
  function Resplit(e: Entry): Entry
    requires '|' in e.actor
  {
    var k := FirstSeparator(e.actor);
    e.(will := e.will + "|" + e.actor[..k], actor := e.actor[k + 1..])
  }

  function FirstSeparator(s: string): (k: nat)
    requires '|' in s
    ensures k < |s| && s[k] == '|' && '|' !in s[..k]
  {
    if s[0] == '|' then 0 else 1 + FirstSeparator(s[1..])
  }

  /** The failing input: the entry split again has the preimage of the original, so it keeps its
      identifier, re-derives from its fields, and states something else. */
  lemma ResplitUnnoticed(h: Hash, e: Entry, stamp: Instant)
    requires '|' in e.actor
    ensures PreimageOf(Resplit(e), stamp) == PreimageOf(e, stamp)
    ensures FactOf(Resplit(e), stamp) != FactOf(e, stamp)
    ensures EntryVerifies(h, e) ==> EntryVerifies(h, Resplit(e))
  {
    ResplitPreimage(e, stamp);
    ResplitPreimage(e, e.createdAt);
    assert |Resplit(e).will| > |e.will|;
  }

  lemma ResplitPreimage(e: Entry, stamp: Instant)
    requires '|' in e.actor
    ensures PreimageOf(Resplit(e), stamp) == PreimageOf(e, stamp)
  {
    var k := FirstSeparator(e.actor);
    assert e.actor == e.actor[..k] + "|" + e.actor[k + 1..];
    JoinRegrouped(e.prev, Format(stamp), e.event, e.will, e.actor[..k], e.actor[k + 1..]);
  }

  lemma JoinRegrouped(a: string, b: string, c: string, d: string, x: string, y: string)
    ensures Join([a, b, c, d + "|" + x, y], "|") == Join([a, b, c, d, x + "|" + y], "|")
  {
    JoinFive(a, b, c, d + "|" + x, y, "|");
    JoinFive(a, b, c, d, x + "|" + y, "|");
    assert d + "|" + x + "|" + y == d + "|" + (x + "|" + y);
  }

  /** An accepted entry is safe from every rewriting under its identifier, collisions aside, if and only
      if its actor holds no separator. */
  lemma TamperEvidentExact(h: Hash, e: Entry)
    requires EntryVerifies(h, e) && Plain(e)
    ensures '|' !in e.actor <==>
            forall e' :: EntryVerifies(h, e') && e'.id == e.id ==>
                           || FactOf(e', e'.createdAt) == FactOf(e, e.createdAt)
                           || Collide(h, PreimageOf(e, e.createdAt), PreimageOf(e', e'.createdAt))
  {
    if '|' in e.actor {
      ResplitUnnoticed(h, e, e.createdAt);
      assert EntryVerifies(h, Resplit(e)) && Resplit(e).id == e.id;
    } else {
      forall e' | EntryVerifies(h, e') && e'.id == e.id
        ensures || FactOf(e', e'.createdAt) == FactOf(e, e.createdAt)
                || Collide(h, PreimageOf(e, e.createdAt), PreimageOf(e', e'.createdAt))
      {
        if !Collide(h, PreimageOf(e, e.createdAt), PreimageOf(e', e'.createdAt)) {
          SameIdVerifiesExact(h, e, e');
        }
      }
    }
  }

  // ---- What the database notices instead ----

  predicate Names(log: seq<Entry>, id: string) {
    exists n :: 0 <= n < |log| && log[n].prev == id
  }

  /** Every predecessor is some entry of the log: the foreign key on previous_entry_id. */
  ghost predicate LinksInside(log: seq<Entry>) {
    forall n :: 0 <= n < |log| ==> log[n].prev == "" || HasId(log, log[n].prev)
  }

  /** Deleting an entry, which the verifier never notices, breaks the foreign key exactly when a
      remaining entry names it as predecessor: what can go is the newest entry of a chain, one after
      the other. */
  lemma DeletionBreaksKeyExact(log: seq<Entry>, k: nat)
    requires LinksInside(log) && k < |log| && log[k].id != ""
    requires forall i, j :: 0 <= i < j < |log| ==> log[i].id != log[j].id
    ensures LinksInside(log[..k] + log[k + 1..]) <==> !Names(log[..k] + log[k + 1..], log[k].id)
  {
    var rest := log[..k] + log[k + 1..];
    assert forall i :: 0 <= i < |rest| ==> rest[i] == log[if i < k then i else i + 1];
    assert !HasId(rest, log[k].id);
    if !Names(rest, log[k].id) {
      forall n | 0 <= n < |rest| ensures rest[n].prev == "" || HasId(rest, rest[n].prev) {
        if rest[n].prev != "" {
          var m :| 0 <= m < |log| && log[m].id == rest[n].prev;
          assert m != k;
          assert rest[if m < k then m else m - 1] == log[m];
        }
      }
    }
  }
}
