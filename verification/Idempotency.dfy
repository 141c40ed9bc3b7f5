/** The idempotency middleware: look the key up, else run the handler behind a capturing writer, then
    store a 2xx result with INSERT ... ON CONFLICT DO NOTHING.  Both database calls drop their errors. */
module Idempotency {
  import opened Wrappers
  import opened Bytes

  type Body = seq<Byte>

  datatype Row = Row(status: int, body: Body)

  /** What the JSONB column makes of a body; nothing when it is not JSON and the INSERT fails. */
  type Jsonb = Body -> Option<Body>

  // ---- Capturing a response ----

  /** What a handler does to its response writer. */
  datatype Op = WriteHeader(status: int) | Write(bytes: Body)

  function Chunks(ops: seq<Op>): Body {
    if ops == [] then []
    else Chunks(ops[..|ops| - 1]) + (if ops[|ops| - 1].Write? then ops[|ops| - 1].bytes else [])
  }

  /** The status of the last WriteHeader, 200 without one. */
  function LastStatus(ops: seq<Op>): int {
    if ops == [] then 200
    else if ops[|ops| - 1].WriteHeader? then ops[|ops| - 1].status
    else LastStatus(ops[..|ops| - 1])
  }

  /** The body captured is the joined writes, in order; headers add nothing to it. */
  lemma {:induction false} ChunksJoin(a: seq<Op>, b: seq<Op>, bytes: Body, status: int)
    ensures Chunks(a + b) == Chunks(a) + Chunks(b)
    ensures Chunks([Write(bytes)]) == bytes && Chunks([WriteHeader(status)]) == []
  {
    assert Chunks([Write(bytes)]) == Chunks([]) + bytes;
    assert Chunks([WriteHeader(status)]) == Chunks([]) + [];
    if b == [] {
      assert a + b == a;
    } else {
      ChunksJoin(a, b[..|b| - 1], bytes, status);
      assert (a + b)[..|a + b| - 1] == a + b[..|b| - 1];
    }
  }

  /** The status captured is 200, unless one is set; then it is the one set last, whatever is written after. */
  lemma {:induction false} StatusSetLast(a: seq<Op>, status: int, b: seq<Op>)
    requires forall k :: 0 <= k < |b| ==> b[k].Write?
    ensures LastStatus(a + [WriteHeader(status)] + b) == status && LastStatus(b) == 200
  {
    var ops := a + [WriteHeader(status)] + b;
    if b == [] {
      assert ops == a + [WriteHeader(status)];
    } else {
      StatusSetLast(a, status, b[..|b| - 1]);
      assert ops[..|ops| - 1] == a + [WriteHeader(status)] + b[..|b| - 1];
    }
  }

  /** The status that goes out: only what happens first counts, and writing bytes first means 200. */
  function SentStatus(ops: seq<Op>): int {
    if ops != [] && ops[0].WriteHeader? then ops[0].status else 200
  }

  class CapturingWriter {
    var status: int
    var body: Body

    constructor ()
      ensures status == 200 && body == []
    {
      status := 200;
      body := [];
    }

    method WriteHeader(s: int)
      modifies this
      ensures status == s && body == old(body)
    {
      status := s;
    }

    method Write(b: Body)
      modifies this
      ensures body == old(body) + b && status == old(status)
    {
      body := body + b;
    }

    /** Behind the writer a handler leaves the last status it set and all its writes joined. */
    method Capture(handler: seq<Op>)
      requires status == 200 && body == []
      modifies this
      ensures status == LastStatus(handler) && body == Chunks(handler)
    {
      for k := 0 to |handler|
        invariant status == LastStatus(handler[..k]) && body == Chunks(handler[..k])
      {
        assert handler[..k + 1][..k] == handler[..k];
        match handler[k] {
          case WriteHeader(s) => WriteHeader(s);
          case Write(b) => Write(b);
        }
      }
      assert handler[..|handler|] == handler;
    }
  }

  predicate Success(status: int) {
    200 <= status < 300
  }

  /** The result of a handler that the middleware would store. */
  function ResultOf(handler: seq<Op>, jsonb: Jsonb): Option<Row> {
    var b := jsonb(Chunks(handler));
    if Success(LastStatus(handler)) && b.Some? then Some(Row(LastStatus(handler), b.value)) else None
  }

  // ---- One request at a time ----

  /** A POST, with what the database does to its two statements. */
  datatype Post = Post(key: string, handler: seq<Op>, lookupOk: bool, storeOk: bool)

  datatype Answer = Replayed(row: Row) | Ran(status: int)

  type Store = map<string, Row>

  function StoreKey(rows: Store, key: string, result: Option<Row>, ok: bool): Store {
    if ok && key != "" && key !in rows && result.Some? then rows[key := result.value] else rows
  }

  /** The middleware on a POST; a request without a key passes straight through. */
  function Serve(rows: Store, p: Post, jsonb: Jsonb): (Store, Answer) {
    if p.key != "" && p.lookupOk && p.key in rows then (rows, Replayed(rows[p.key]))
    else (StoreKey(rows, p.key, ResultOf(p.handler, jsonb), p.storeOk), Ran(LastStatus(p.handler)))
  }

  class Middleware {
    var rows: Store
    const jsonb: Jsonb

    constructor (jsonb: Jsonb)
      ensures rows == map[] && this.jsonb == jsonb
    {
      rows := map[];
      this.jsonb := jsonb;
    }

    method LookupKey(key: string, ok: bool) returns (row: Option<Row>)
      ensures row == if ok && key in rows then Some(rows[key]) else None
    {
      row := if ok && key in rows then Some(rows[key]) else None;
    }

    method Insert(key: string, status: int, body: Body, ok: bool)
      modifies this
      ensures rows == if ok && key !in old(rows) && jsonb(body).Some?
          then old(rows)[key := Row(status, jsonb(body).value)] else old(rows)
    {
      if ok && key !in rows && jsonb(body).Some? {
        rows := rows[key := Row(status, jsonb(body).value)];
      }
    }

    method ServePost(p: Post) returns (answer: Answer)
      modifies this
      ensures (rows, answer) == Serve(old(rows), p, jsonb)
    {
      var writer := new CapturingWriter();
      if p.key == "" {
        writer.Capture(p.handler);
        return Ran(writer.status);
      }
      var found := LookupKey(p.key, p.lookupOk);
      if found.Some? {
        return Replayed(found.value);
      }
      writer.Capture(p.handler);
      if 200 <= writer.status < 300 {
        Insert(p.key, writer.status, writer.body, p.storeOk);
      }
      return Ran(writer.status);
    }
  }

  function RowsAfter(posts: seq<Post>, jsonb: Jsonb): Store {
    if posts == [] then map[] else Serve(RowsAfter(posts[..|posts| - 1], jsonb), posts[|posts| - 1], jsonb).0
  }

  /** How often requests with the key ran their handler to a 2xx answer. */
  function Successes(posts: seq<Post>, key: string, jsonb: Jsonb): nat {
    if posts == [] then 0
    else
      var before, p := posts[..|posts| - 1], posts[|posts| - 1];
      var answer := Serve(RowsAfter(before, jsonb), p, jsonb).1;
      Successes(before, key, jsonb) + (if p.key == key && answer.Ran? && Success(answer.status) then 1 else 0)
  }

  /** The database answers, and a successful handler answers in JSON. */
  predicate Reliable(p: Post, jsonb: Jsonb) {
    p.lookupOk && p.storeOk && (Success(LastStatus(p.handler)) ==> jsonb(Chunks(p.handler)).Some?)
  }

  /** Requests that do not overlap succeed at most once per key, and exactly once when something is
      stored, provided the database answers and successful handlers answer in JSON. */
  lemma {:induction false} AtMostOneSuccess(posts: seq<Post>, key: string, jsonb: Jsonb)
    requires key != "" && forall k :: 0 <= k < |posts| && posts[k].key == key ==> Reliable(posts[k], jsonb)
    ensures Successes(posts, key, jsonb) == if key in RowsAfter(posts, jsonb) then 1 else 0
  {
    if posts != [] {
      AtMostOneSuccess(posts[..|posts| - 1], key, jsonb);
      var p := posts[|posts| - 1];
      assert p.key == key ==> Reliable(p, jsonb);
    }
  }

  /** The condition cannot be dropped: after a request with a new key succeeds, the next one with that
      key runs its handler again exactly when the first result was not stored (no JSON, or the INSERT
      failed) or the look-up fails. */
  lemma SecondRunExact(rows: Store, p: Post, q: Post, jsonb: Jsonb)
    requires p.key == q.key && p.key != "" && p.key !in rows && Success(LastStatus(p.handler))
    ensures Serve(Serve(rows, p, jsonb).0, q, jsonb).1.Ran?
        <==> (jsonb(Chunks(p.handler)).None? || !p.storeOk || !q.lookupOk)
  {
  }

  /** Exactly when a request is replayed, runs, and leaves something: a request without a key never touches
      the table; one with a key is replayed exactly if the key is stored and the look-up works, with the row as
      it is stored; and a run adds exactly one row, of its last status and what the column makes of all its
      writes, when it succeeded with a body the column takes, under a new key, and the INSERT works. */
  lemma ServeExact(rows: Store, p: Post, jsonb: Jsonb)
    ensures var (rows', answer) := Serve(rows, p, jsonb);
            var replayed := p.key != "" && p.key in rows && p.lookupOk;
            var status, body := LastStatus(p.handler), jsonb(Chunks(p.handler));
            var stores := p.key != "" && !replayed && p.key !in rows && p.storeOk
                          && 200 <= status <= 299 && body.Some?;
            && answer == (if replayed then Replayed(rows[p.key]) else Ran(status))
            && (forall k :: k in rows' <==> k in rows || (stores && k == p.key))
            && (forall k :: k in rows ==> rows'[k] == rows[k])
            && (stores ==> rows'[p.key].status == status && rows'[p.key].body == body.value)
  {
  }

  /** Request i succeeded under a new key, and its result was stored. */
  predicate StoredFirst(posts: seq<Post>, i: nat, jsonb: Jsonb)
    requires i < |posts|
  {
    var p := posts[i];
    && p.key != "" && p.key !in RowsAfter(posts[..i], jsonb) && p.storeOk
    && Success(LastStatus(p.handler)) && jsonb(Chunks(p.handler)).Some?
  }

  /** What the first success left is still there. */
  lemma {:induction false} FirstSuccessStays(posts: seq<Post>, i: nat, n: nat, jsonb: Jsonb)
    requires i < n <= |posts| && StoredFirst(posts, i, jsonb)
    ensures var p, rows := posts[i], RowsAfter(posts[..n], jsonb);
            p.key in rows && rows[p.key] == Row(LastStatus(p.handler), jsonb(Chunks(p.handler)).value)
    decreases n
  {
    assert posts[..n][..n - 1] == posts[..n - 1];
    ServeExact(RowsAfter(posts[..n - 1], jsonb), posts[n - 1], jsonb);
    if i < n - 1 {
      FirstSuccessStays(posts, i, n - 1, jsonb);
    }
  }

  /** Every later request with the key whose look-up works is answered with the first success: the status its
      handler set last, and what the column made of all it wrote. */
  lemma ReplaysFirstSuccess(posts: seq<Post>, i: nat, j: nat, jsonb: Jsonb)
    requires i < j < |posts| && StoredFirst(posts, i, jsonb) && posts[j].key == posts[i].key && posts[j].lookupOk
    ensures var p := posts[i];
            Serve(RowsAfter(posts[..j], jsonb), posts[j], jsonb).1
            == Replayed(Row(LastStatus(p.handler), jsonb(Chunks(p.handler)).value))
  {
    FirstSuccessStays(posts, i, j, jsonb);
    ServeExact(RowsAfter(posts[..j], jsonb), posts[j], jsonb);
  }

  /** A replay carries the status the first client saw if the handler sets its status once, before it
      writes. */
  lemma {:induction false} StatusReplayed(handler: seq<Op>)
    requires forall k :: 0 < k < |handler| ==> handler[k].Write?
    ensures LastStatus(handler) == SentStatus(handler)
  {
    if |handler| > 1 {
      StatusReplayed(handler[..|handler| - 1]);
    }
  }

  // ---- Overlapping requests ----

  datatype Phase = Missed(key: string, handler: seq<Op>) | Finished(key: string, result: Option<Row>)

  /** The stored rows, the requests under way, every replay sent, and every key whose handler ran to success. */
  datatype System = System(rows: Store, active: map<nat, Phase>, replays: seq<(string, Row)>, successes: seq<string>)

  datatype Move = Lookup(pid: nat, key: string, handler: seq<Op>, ok: bool) | Run(pid: nat) | Insert(pid: nat, ok: bool)

  function Next(s: System, m: Move, jsonb: Jsonb): System {
    match m
    case Lookup(pid, key, handler, ok) =>
      if pid in s.active || key == "" then s
      else if ok && key in s.rows then s.(replays := s.replays + [(key, s.rows[key])])
      else s.(active := s.active[pid := Missed(key, handler)])
    case Run(pid) =>
      if pid !in s.active || !s.active[pid].Missed? then s
      else
        var a := s.active[pid];
        s.(active := s.active[pid := Finished(a.key, ResultOf(a.handler, jsonb))],
           successes := if Success(LastStatus(a.handler)) then s.successes + [a.key] else s.successes)
    case Insert(pid, ok) =>
      if pid !in s.active || !s.active[pid].Finished? then s
      else
        var a := s.active[pid];
        s.(rows := StoreKey(s.rows, a.key, a.result, ok), active := s.active - {pid})
  }

  function Exec(moves: seq<Move>, jsonb: Jsonb): System {
    if moves == [] then System(map[], map[], [], [])
    else Next(Exec(moves[..|moves| - 1], jsonb), moves[|moves| - 1], jsonb)
  }

  ghost predicate Kept(rows: Store, rows': Store) {
    forall key :: key in rows ==> key in rows' && rows'[key] == rows[key]
  }

  /** Under every interleaving a stored row is written once and never changes. */
  lemma {:induction false} RowsNeverChange(moves: seq<Move>, i: nat, j: nat, jsonb: Jsonb)
    requires i <= j <= |moves|
    ensures Kept(Exec(moves[..i], jsonb).rows, Exec(moves[..j], jsonb).rows)
    decreases j
  {
    if i < j {
      RowsNeverChange(moves, i, j - 1, jsonb);
      assert moves[..j][..j - 1] == moves[..j - 1];
    }
  }

  /** Every stored or storable result is a success that ran, and every replay is the stored row. */
  ghost predicate Sound(s: System) {
    && (forall k :: 0 <= k < |s.replays| ==> s.replays[k].0 in s.rows && s.replays[k].1 == s.rows[s.replays[k].0])
    && (forall key :: key in s.rows ==> Success(s.rows[key].status) && key in s.successes)
    && (forall pid :: pid in s.active && s.active[pid].Finished? && s.active[pid].result.Some? ==>
          Success(s.active[pid].result.value.status) && s.active[pid].key in s.successes)
  }

  lemma NextSound(s: System, m: Move, jsonb: Jsonb)
    requires Sound(s)
    ensures Sound(Next(s, m, jsonb))
  {
  }

  lemma {:induction false} ReplaysAreStored(moves: seq<Move>, jsonb: Jsonb)
    ensures Sound(Exec(moves, jsonb))
  {
    if moves != [] {
      ReplaysAreStored(moves[..|moves| - 1], jsonb);
      NextSound(Exec(moves[..|moves| - 1], jsonb), moves[|moves| - 1], jsonb);
    }
  }

  /** Under every interleaving all replays of a key are alike, and each repeats a success of a handler
      that ran for that key. */
  lemma ReplaysAgree(moves: seq<Move>, jsonb: Jsonb, i: nat, j: nat)
    requires i < |Exec(moves, jsonb).replays| && j < |Exec(moves, jsonb).replays|
    requires Exec(moves, jsonb).replays[i].0 == Exec(moves, jsonb).replays[j].0
    ensures Exec(moves, jsonb).replays[i].1 == Exec(moves, jsonb).replays[j].1
    ensures Success(Exec(moves, jsonb).replays[i].1.status)
        && Exec(moves, jsonb).replays[i].0 in Exec(moves, jsonb).successes
  {
    ReplaysAreStored(moves, jsonb);
  }

  /** A look-up, a run and an insert back to back are the middleware on one request. */
  lemma LookupRunInsert(s: System, pid: nat, p: Post, jsonb: Jsonb)
    requires pid !in s.active && p.key != ""
    ensures var looked := Next(s, Lookup(pid, p.key, p.handler, p.lookupOk), jsonb);
            var s' := Next(Next(looked, Run(pid), jsonb), Insert(pid, p.storeOk), jsonb);
            var (rows', answer) := Serve(s.rows, p, jsonb);
            && s'.rows == rows' && s'.active == s.active
            && s'.replays == s.replays + (if answer.Replayed? then [(p.key, answer.row)] else [])
            && s'.successes == s.successes + (if answer.Ran? && Success(answer.status) then [p.key] else [])
  {
    var looked := Next(s, Lookup(pid, p.key, p.handler, p.lookupOk), jsonb);
    if !(p.lookupOk && p.key in s.rows) {
      assert looked.active[pid] == Missed(p.key, p.handler);
      assert s.active == looked.active - {pid};
    }
  }

  /** Some request with the key asked for a handler that succeeds with this row. */
  ghost predicate Asked(moves: seq<Move>, key: string, row: Row, jsonb: Jsonb) {
    exists k :: 0 <= k < |moves| && AsksFor(moves[k], key, row, jsonb)
  }

  predicate AsksFor(m: Move, key: string, row: Row, jsonb: Jsonb) {
    && m.Lookup? && m.key == key
    && Success(LastStatus(m.handler)) && row.status == LastStatus(m.handler)
    && jsonb(Chunks(m.handler)) == Some(row.body)
  }

  ghost predicate AskedHandler(moves: seq<Move>, key: string, handler: seq<Op>) {
    exists k :: 0 <= k < |moves| && moves[k].Lookup? && moves[k].key == key && moves[k].handler == handler
  }

  // Everything stored, finished or under way goes back to a request.
  ghost predicate GoesBack(s: System, moves: seq<Move>, jsonb: Jsonb) {
    && (forall key :: key in s.rows ==> Asked(moves, key, s.rows[key], jsonb))
    && (forall pid :: pid in s.active ==> PhaseGoesBack(s.active[pid], moves, jsonb))
  }

  ghost predicate PhaseGoesBack(p: Phase, moves: seq<Move>, jsonb: Jsonb) {
    match p
    case Missed(key, handler) => AskedHandler(moves, key, handler)
    case Finished(key, result) => result.Some? ==> Asked(moves, key, result.value, jsonb)
  }

  lemma AskedStill(moves: seq<Move>, m: Move, key: string, row: Row, jsonb: Jsonb)
    ensures Asked(moves, key, row, jsonb) ==> Asked(moves + [m], key, row, jsonb)
  {
    if k :| 0 <= k < |moves| && AsksFor(moves[k], key, row, jsonb) {
      assert AsksFor((moves + [m])[k], key, row, jsonb);
    }
  }

  lemma PhaseStill(p: Phase, moves: seq<Move>, m: Move, jsonb: Jsonb)
    requires PhaseGoesBack(p, moves, jsonb)
    ensures PhaseGoesBack(p, moves + [m], jsonb)
  {
    match p
    case Missed(key, handler) =>
      var k :| 0 <= k < |moves| && moves[k].Lookup? && moves[k].key == key && moves[k].handler == handler;
      assert (moves + [m])[k] == moves[k];
    case Finished(key, result) =>
      if result.Some? {
        AskedStill(moves, m, key, result.value, jsonb);
      }
  }

  lemma RunGoesBack(moves: seq<Move>, key: string, handler: seq<Op>, jsonb: Jsonb)
    requires AskedHandler(moves, key, handler)
    ensures PhaseGoesBack(Finished(key, ResultOf(handler, jsonb)), moves, jsonb)
  {
    var k :| 0 <= k < |moves| && moves[k].Lookup? && moves[k].key == key && moves[k].handler == handler;
    var result := ResultOf(handler, jsonb);
    if result.Some? {
      assert AsksFor(moves[k], key, result.value, jsonb);
    }
  }

  lemma NextGoesBack(s: System, moves: seq<Move>, m: Move, jsonb: Jsonb)
    requires GoesBack(s, moves, jsonb)
    ensures GoesBack(Next(s, m, jsonb), moves + [m], jsonb)
  {
    var s', all := Next(s, m, jsonb), moves + [m];
    assert all[|moves|] == m;
    forall key | key in s'.rows ensures Asked(all, key, s'.rows[key], jsonb) {
      AskedStill(moves, m, key, s'.rows[key], jsonb);
      if key !in s.rows {
        assert PhaseGoesBack(s.active[m.pid], moves, jsonb);
      }
    }
    forall pid | pid in s'.active ensures PhaseGoesBack(s'.active[pid], all, jsonb) {
      if pid in s.active && s'.active[pid] == s.active[pid] {
        PhaseStill(s.active[pid], moves, m, jsonb);
      } else if pid in s.active {
        RunGoesBack(moves, s.active[pid].key, s.active[pid].handler, jsonb);
        PhaseStill(s'.active[pid], moves, m, jsonb);
      }
    }
  }

  lemma {:induction false} ExecGoesBack(moves: seq<Move>, jsonb: Jsonb)
    ensures GoesBack(Exec(moves, jsonb), moves, jsonb)
  {
    if moves != [] {
      ExecGoesBack(moves[..|moves| - 1], jsonb);
      NextGoesBack(Exec(moves[..|moves| - 1], jsonb), moves[..|moves| - 1], moves[|moves| - 1], jsonb);
      assert moves == moves[..|moves| - 1] + [moves[|moves| - 1]];
    }
  }

  /** Under every interleaving a replay is the last status and the joined writes of a handler that some request
      with the key came with. */
  lemma ReplayIsSomeones(moves: seq<Move>, jsonb: Jsonb, i: nat)
    requires i < |Exec(moves, jsonb).replays|
    ensures var (key, row) := Exec(moves, jsonb).replays[i];
            exists k :: 0 <= k < |moves| && moves[k].Lookup? && moves[k].key == key
              && Success(LastStatus(moves[k].handler)) && row.status == LastStatus(moves[k].handler)
              && jsonb(Chunks(moves[k].handler)) == Some(row.body)
  {
    ReplaysAreStored(moves, jsonb);
    ExecGoesBack(moves, jsonb);
    var (key, row) := Exec(moves, jsonb).replays[i];
    assert Asked(moves, key, row, jsonb);
    var k :| 0 <= k < |moves| && AsksFor(moves[k], key, row, jsonb);
  }

  /** No request with the key is under way. */
  predicate Idle(s: System, key: string) {
    forall pid :: pid in s.active ==> s.active[pid].key != key
  }

  predicate StorableHandler(handler: seq<Op>, jsonb: Jsonb) {
    Success(LastStatus(handler)) ==> jsonb(Chunks(handler)).Some?
  }

  /** Should the move concern the key: the database answers, and a successful handler answers in JSON. */
  predicate ReliableMove(s: System, m: Move, key: string, jsonb: Jsonb) {
    match m
    case Lookup(_, k, handler, ok) => k == key ==> ok && StorableHandler(handler, jsonb)
    case Run(_) => true
    case Insert(pid, ok) => pid in s.active && s.active[pid].key == key ==> ok
  }

  predicate ReliableAt(moves: seq<Move>, k: nat, key: string, jsonb: Jsonb)
    requires k < |moves|
  {
    ReliableMove(Exec(moves[..k], jsonb), moves[k], key, jsonb)
  }

  predicate AllReliable(moves: seq<Move>, n: nat, key: string, jsonb: Jsonb)
    requires n <= |moves|
  {
    forall k :: 0 <= k < n ==> ReliableAt(moves, k, key, jsonb)
  }

  /** How often a handler ran to success for the key. */
  function Runs(s: System, key: string): nat {
    multiset(s.successes)[key]
  }

  /** A request with the key is under way whose handler succeeds: it will, or it has. */
  predicate Succeeds(p: Phase, key: string) {
    p.key == key && if p.Missed? then Success(LastStatus(p.handler)) else p.result.Some?
  }

  predicate SuccessUnderWay(s: System, key: string) {
    exists pid :: pid in s.active && Succeeds(s.active[pid], key)
  }

  /** A request with the key and a handler that succeeds looks the key up and misses it, while another such
      request is under way. */
  predicate Clashes(s: System, m: Move, key: string) {
    && m.Lookup? && m.pid !in s.active && m.key == key && key !in s.rows
    && Success(LastStatus(m.handler)) && SuccessUnderWay(s, key)
  }

  predicate ClashAt(moves: seq<Move>, k: nat, key: string, jsonb: Jsonb)
    requires k < |moves|
  {
    Clashes(Exec(moves[..k], jsonb), moves[k], key)
  }

  // Without a clash: at most one success is under way, and what it and the table say agrees with the runs.
  ghost predicate Tame(s: System, key: string, jsonb: Jsonb) {
    && (forall p, q :: p in s.active && q in s.active && Succeeds(s.active[p], key) && Succeeds(s.active[q], key) ==>
          p == q)
    && (key in s.rows ==> !SuccessUnderWay(s, key))
    && (!SuccessUnderWay(s, key) ==> Runs(s, key) == if key in s.rows then 1 else 0)
    && (forall p :: p in s.active && Succeeds(s.active[p], key) ==>
          Runs(s, key) == if s.active[p].Missed? then 0 else 1)
  }

  // The handlers under way for the key can be stored if they succeed.
  ghost predicate Storable(s: System, key: string, jsonb: Jsonb) {
    forall p :: p in s.active && s.active[p].key == key && s.active[p].Missed? ==>
      StorableHandler(s.active[p].handler, jsonb)
  }

  lemma StorableKept(s: System, m: Move, key: string, jsonb: Jsonb)
    requires Storable(s, key, jsonb) && ReliableMove(s, m, key, jsonb)
    ensures Storable(Next(s, m, jsonb), key, jsonb)
  {
  }

  lemma LookupTame(s: System, m: Move, key: string, jsonb: Jsonb)
    requires key != "" && m.Lookup? && Tame(s, key, jsonb) && ReliableMove(s, m, key, jsonb) && !Clashes(s, m, key)
    ensures Tame(Next(s, m, jsonb), key, jsonb)
  {
    var s' := Next(s, m, jsonb);
    if s'.active != s.active {
      var p' := Missed(m.key, m.handler);
      assert s'.active[m.pid] == p';
      assert forall p :: p in s.active ==> s'.active[p] == s.active[p];
      assert SuccessUnderWay(s', key) <==> SuccessUnderWay(s, key) || Succeeds(p', key);
    } else {
      assert SuccessUnderWay(s', key) <==> SuccessUnderWay(s, key);
    }
  }

  // What a run does to the one request, as the key sees it.
  lemma RunEffect(s: System, m: Move, key: string, jsonb: Jsonb)
    requires m.Run? && m.pid in s.active && s.active[m.pid].Missed? && Storable(s, key, jsonb)
    ensures var s' := Next(s, m, jsonb);
            && s'.rows == s.rows && s'.active.Keys == s.active.Keys
            && (forall p :: p in s.active && p != m.pid ==> s'.active[p] == s.active[p])
            && s'.active[m.pid].Finished? && (Succeeds(s'.active[m.pid], key) <==> Succeeds(s.active[m.pid], key))
            && Runs(s', key) == Runs(s, key) + if Succeeds(s.active[m.pid], key) then 1 else 0
  {
  }

  lemma RunTame(s: System, m: Move, key: string, jsonb: Jsonb)
    requires m.Run? && Tame(s, key, jsonb) && Storable(s, key, jsonb)
    ensures Tame(Next(s, m, jsonb), key, jsonb)
  {
    if m.pid in s.active && s.active[m.pid].Missed? {
      RunEffect(s, m, key, jsonb);
      RunKeepsTame(s, Next(s, m, jsonb), m.pid, key, jsonb);
    }
  }

  lemma RunKeepsTame(s: System, s': System, pid: nat, key: string, jsonb: Jsonb)
    requires Tame(s, key, jsonb) && pid in s.active && s.active[pid].Missed?
    requires s'.rows == s.rows && s'.active.Keys == s.active.Keys
    requires forall p :: p in s.active && p != pid ==> s'.active[p] == s.active[p]
    requires s'.active[pid].Finished? && (Succeeds(s'.active[pid], key) <==> Succeeds(s.active[pid], key))
    requires Runs(s', key) == Runs(s, key) + if Succeeds(s.active[pid], key) then 1 else 0
    ensures Tame(s', key, jsonb)
  {
    assert forall p :: p in s.active ==> (Succeeds(s'.active[p], key) <==> Succeeds(s.active[p], key));
    assert SuccessUnderWay(s', key) <==> SuccessUnderWay(s, key);
  }

  lemma InsertTame(s: System, m: Move, key: string, jsonb: Jsonb)
    requires key != "" && m.Insert? && Tame(s, key, jsonb) && ReliableMove(s, m, key, jsonb)
    ensures Tame(Next(s, m, jsonb), key, jsonb)
  {
    var s' := Next(s, m, jsonb);
    if m.pid in s.active && s.active[m.pid].Finished? {
      assert forall p :: p in s'.active ==> p in s.active && s'.active[p] == s.active[p];
      if Succeeds(s.active[m.pid], key) {
        assert !SuccessUnderWay(s', key) && key !in s.rows;
      } else {
        assert SuccessUnderWay(s', key) <==> SuccessUnderWay(s, key);
      }
    }
  }

  lemma ExecStep(moves: seq<Move>, n: nat, jsonb: Jsonb)
    requires n < |moves|
    ensures Exec(moves[..n + 1], jsonb) == Next(Exec(moves[..n], jsonb), moves[n], jsonb)
  {
    assert moves[..n + 1][..n] == moves[..n];
  }

  lemma {:induction false} ExecTame(moves: seq<Move>, n: nat, key: string, jsonb: Jsonb)
    requires key != "" && n <= |moves| && AllReliable(moves, n, key, jsonb)
    requires forall k :: 0 <= k < n ==> !ClashAt(moves, k, key, jsonb)
    ensures Tame(Exec(moves[..n], jsonb), key, jsonb) && Storable(Exec(moves[..n], jsonb), key, jsonb)
  {
    if n > 0 {
      var s, m := Exec(moves[..n - 1], jsonb), moves[n - 1];
      ExecTame(moves, n - 1, key, jsonb);
      ExecStep(moves, n - 1, jsonb);
      assert ReliableAt(moves, n - 1, key, jsonb) && !ClashAt(moves, n - 1, key, jsonb);
      StorableKept(s, m, key, jsonb);
      match m {
        case Lookup(_, _, _, _) => LookupTame(s, m, key, jsonb);
        case Run(_) => RunTame(s, m, key, jsonb);
        case Insert(_, _) => InsertTame(s, m, key, jsonb);
      }
    }
  }

  predicate WillSucceed(s: System, p: nat, key: string) {
    p in s.active && s.active[p].Missed? && Succeeds(s.active[p], key)
  }

  // Two successes have happened or are bound to.
  ghost predicate TwoClaims(s: System, key: string) {
    || Runs(s, key) >= 2
    || (Runs(s, key) >= 1 && exists p :: WillSucceed(s, p, key))
    || (exists p, q :: p != q && WillSucceed(s, p, key) && WillSucceed(s, q, key))
  }

  lemma ClaimKept(s: System, m: Move, key: string, jsonb: Jsonb, p: nat)
    requires WillSucceed(s, p, key)
    ensures Runs(Next(s, m, jsonb), key) >= Runs(s, key)
    ensures var s' := Next(s, m, jsonb);
            if m == Run(p) then Runs(s', key) == Runs(s, key) + 1 else WillSucceed(s', p, key)
  {
  }

  lemma RunsKept(s: System, m: Move, key: string, jsonb: Jsonb)
    ensures Runs(Next(s, m, jsonb), key) >= Runs(s, key)
  {
  }

  lemma ClaimsKept(s: System, m: Move, key: string, jsonb: Jsonb)
    requires TwoClaims(s, key)
    ensures TwoClaims(Next(s, m, jsonb), key)
  {
    RunsKept(s, m, key, jsonb);
    if Runs(s, key) < 2 {
      if p, q :| p != q && WillSucceed(s, p, key) && WillSucceed(s, q, key) {
        ClaimKept(s, m, key, jsonb, p);
        ClaimKept(s, m, key, jsonb, q);
      } else {
        var p :| WillSucceed(s, p, key);
        ClaimKept(s, m, key, jsonb, p);
      }
    }
  }

  lemma ClashClaims(s: System, m: Move, key: string, jsonb: Jsonb)
    requires key != "" && Sound(s) && Clashes(s, m, key)
    ensures TwoClaims(Next(s, m, jsonb), key)
  {
    var s' := Next(s, m, jsonb);
    var p :| p in s.active && Succeeds(s.active[p], key);
    assert WillSucceed(s', m.pid, key);
    if s.active[p].Missed? {
      assert WillSucceed(s', p, key);
    } else {
      assert key in s.successes;
    }
  }

  lemma ClaimsStart(moves: seq<Move>, k: nat, key: string, jsonb: Jsonb)
    requires key != "" && k < |moves| && ClashAt(moves, k, key, jsonb)
    ensures TwoClaims(Exec(moves[..k + 1], jsonb), key)
  {
    ExecStep(moves, k, jsonb);
    ReplaysAreStored(moves[..k], jsonb);
    ClashClaims(Exec(moves[..k], jsonb), moves[k], key, jsonb);
  }

  lemma ClaimsStep(moves: seq<Move>, n: nat, key: string, jsonb: Jsonb)
    requires n < |moves| && TwoClaims(Exec(moves[..n], jsonb), key)
    ensures TwoClaims(Exec(moves[..n + 1], jsonb), key)
  {
    ExecStep(moves, n, jsonb);
    ClaimsKept(Exec(moves[..n], jsonb), moves[n], key, jsonb);
  }

  lemma {:induction false} ClaimsStay(moves: seq<Move>, k: nat, n: nat, key: string, jsonb: Jsonb)
    requires key != "" && k < n <= |moves| && ClashAt(moves, k, key, jsonb)
    ensures TwoClaims(Exec(moves[..n], jsonb), key)
    decreases n
  {
    if k == n - 1 {
      ClaimsStart(moves, k, key, jsonb);
    } else {
      ClaimsStay(moves, k, n - 1, key, jsonb);
      ClaimsStep(moves, n - 1, key, jsonb);
    }
  }

  /** Idempotency, exactly, for requests on a database that answers and with successful handlers that answer
      in JSON, overlapping as they like: once no request with the key is under way, two handlers have run to
      success for it if and only if one such request looked the key up and missed it while another was under
      way.  Otherwise there is never more than one, and it has happened exactly if a row is stored. */
  lemma OneSuccessPerKey(moves: seq<Move>, key: string, jsonb: Jsonb)
    requires key != "" && AllReliable(moves, |moves|, key, jsonb)
    ensures var s := Exec(moves, jsonb);
            if exists k :: 0 <= k < |moves| && ClashAt(moves, k, key, jsonb) then Idle(s, key) ==> Runs(s, key) >= 2
            else Runs(s, key) <= 1 && (Idle(s, key) ==> Runs(s, key) == if key in s.rows then 1 else 0)
  {
    assert moves[..|moves|] == moves;
    if k :| 0 <= k < |moves| && ClashAt(moves, k, key, jsonb) {
      ClaimsStay(moves, k, |moves|, key, jsonb);
      IdleClaims(Exec(moves, jsonb), key);
    } else {
      ExecTame(moves, |moves|, key, jsonb);
      TameRuns(Exec(moves, jsonb), key, jsonb);
    }
  }

  lemma IdleClaims(s: System, key: string)
    requires TwoClaims(s, key)
    ensures Idle(s, key) ==> Runs(s, key) >= 2
  {
  }

  lemma TameRuns(s: System, key: string, jsonb: Jsonb)
    requires Tame(s, key, jsonb)
    ensures Runs(s, key) <= 1 && (Idle(s, key) ==> Runs(s, key) == if key in s.rows then 1 else 0)
  {
  }

  /** Overlap does break the promise: two requests that both miss the key both run to success. */
  lemma OverlapRunsTwice(s: System, p: nat, q: nat, key: string, handler: seq<Op>, jsonb: Jsonb)
    requires p !in s.active && q !in s.active && p != q && key != "" && key !in s.rows && Success(LastStatus(handler))
    ensures var missed := Next(Next(s, Lookup(p, key, handler, true), jsonb), Lookup(q, key, handler, true), jsonb);
            var s' := Next(Next(Next(missed, Run(p), jsonb), Insert(p, true), jsonb), Run(q), jsonb);
            s'.successes == s.successes + [key, key]
  {
  }
}
