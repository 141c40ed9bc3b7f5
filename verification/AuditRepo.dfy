/** The audit repository and the audit service over it. */
module AuditRepos {
  import opened Wrappers
  import opened Clock
  import opened Wills
  import opened Permutations
  import opened AuditChain
  import opened AuditVerification

  class AuditRepo {
    var rows: seq<Entry>

    constructor ()
      ensures rows == []
    {
      rows := [];
    }

    method Insert(e: Entry, dbOk: bool) returns (ok: bool)
      modifies this
      ensures ok <==> dbOk && !HasId(old(rows), e.id)
      ensures rows == if ok then old(rows) + [e] else old(rows)
    {
      ok := dbOk && !HasId(rows, e.id);
      if ok {
        rows := rows + [e];
      }
    }

    /** ORDER BY created_at DESC LIMIT 1; tie says which of several equally recent rows comes back. */
    method GetLatestEntryID(will: WillId, tie: nat -> bool) returns (id: Option<string>)
      ensures var r := LatestIndex(rows, will, tie);
              id == if r.None? then None else Some(rows[r.value].id)
    {
      var best: Option<nat> := None;
      for k := 0 to |rows|
        invariant best == LatestIndex(rows[..k], will, tie)
      {
        assert rows[..k + 1][..k] == rows[..k];
        if rows[k].will == will
           && (best.None? || rows[k].createdAt > rows[best.value].createdAt
               || (rows[k].createdAt == rows[best.value].createdAt && tie(k))) {
          best := Some(k);
        }
      }
      assert rows[..|rows|] == rows;
      id := if best.None? then None else Some(rows[best.value].id);
    }

    /** ORDER BY created_at ASC; entries of equal times come in the order scan in which the database visits
        the rows. */
    method GetByWillID(will: WillId, scan: seq<Entry>) returns (entries: seq<Entry>)
      requires multiset(scan) == multiset(rows)
      ensures entries == ReadOrder(scan, will)
      ensures TimeOrdered(entries) && multiset(entries) == multiset(OfWill(rows, will))
    {
      entries := [];
      for k := 0 to |scan|
        invariant entries == ReadOrder(scan[..k], will)
      {
        assert scan[..k + 1][..k] == scan[..k];
        if scan[k].will == will {
          entries := InsertByTime(entries, scan[k]);
        }
      }
      assert scan[..|scan|] == scan;
      OfWillPermuted(scan, rows, will);
    }

    /** Re-derives every identifier of the will; the answer names the first entry read, in time order, that
        does not match. */
    method VerifyChain(will: WillId, scan: seq<Entry>, deriveID: (string, Entry) -> string)
        returns (broken: Option<string>)
      requires multiset(scan) == multiset(rows)
      ensures broken.None? <==> forall i :: 0 <= i < |rows| && rows[i].will == will ==>
          deriveID(rows[i].prev, rows[i]) == rows[i].id
      ensures broken.Some? ==>
                var entries := ReadOrder(scan, will);
                exists k :: 0 <= k < |entries| && broken.value == "audit chain broken at entry " + entries[k].id
                  && deriveID(entries[k].prev, entries[k]) != entries[k].id
                  && forall j :: 0 <= j < k ==> deriveID(entries[j].prev, entries[j]) == entries[j].id
    {
      var entries := GetByWillID(will, scan);
      SameMembers(scan, rows);
      for k := 0 to |entries|
        invariant forall j :: 0 <= j < k ==> deriveID(entries[j].prev, entries[j]) == entries[j].id
      {
        var e := entries[k];
        if deriveID(e.prev, e) != e.id {
          ReadOrderMembers(scan, will, e);
          return Some("audit chain broken at entry " + e.id);
        }
      }
      forall i | 0 <= i < |rows| && rows[i].will == will ensures deriveID(rows[i].prev, rows[i]) == rows[i].id {
        ReadOrderMembers(scan, will, rows[i]);
        assert rows[i] in entries;
      }
      return None;
    }
  }

  class AuditService {
    const repo: AuditRepo
    const hash: Hash

    constructor (repo: AuditRepo, hash: Hash)
      ensures this.repo == repo && this.hash == hash
    {
      this.repo := repo;
      this.hash := hash;
    }

    /** Appends one event, or, when the database refuses, logs the failure and carries on. */
    method Record(will: WillId, kind: AuditEvent, actor: Flt, payload: string, s: Surroundings)
      modifies repo
      ensures repo.rows == Recorded(hash, old(repo.rows), Event(will, kind, actor, payload), s)
    {
      var latest := repo.GetLatestEntryID(will, s.tie);
      var prev := if latest.Some? then latest.value else "";
      var id := DeriveId(hash, prev, s.at, EventName(kind), will, actor);
      var _ := repo.Insert(Entry(id, will, prev, EventName(kind), actor, payload, Stored(s.at)), s.ok);
    }

    method VerifyChain(will: WillId, scan: seq<Entry>) returns (broken: Option<string>)
      requires multiset(scan) == multiset(repo.rows)
      ensures broken.None? <==> ChainVerifies(hash, repo.rows, will)
    {
      var h := hash;
      broken := repo.VerifyChain(will, scan,
                                 (prev, e: Entry) => DeriveId(h, prev, e.createdAt, e.event, e.will, e.actor));
    }
  }
}
