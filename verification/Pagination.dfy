/** Cursor pagination: the query parameters, the cutting of pages, and the walk a client makes through
    a list by feeding each next cursor back. */
module Pagination {
  import opened Wrappers
  import opened Bytes
  import Text
  import opened Base64Url

  type Key = seq<Byte>

  const DEFAULT_PAGE_SIZE: int := 20
  const MAX_PAGE_SIZE: int := 100
  const MAX_INT64: int := 0x7fff_ffff_ffff_ffff

  /** strconv.Atoi: an optional sign and decimal digits, within the range of a 64-bit int. */
  function Atoi(s: string): Option<int> {
    var signed := s != "" && (s[0] == '+' || s[0] == '-');
    var digits := if signed then s[1..] else s;
    if digits == "" || !Text.AllDigits(digits) then None
    else
      var n: int := if signed && s[0] == '-' then 0 - Text.Value(digits) else Text.Value(digits);
      if -MAX_INT64 - 1 <= n <= MAX_INT64 then Some(n) else None
  }

  datatype Page = Page(after: Key, limit: int)

  /** PageFromQuery; no page stands for the error return. */
  function PageFromQuery(after: string, limit: string): (page: Option<Page>)
    ensures page.Some? ==> 1 <= page.value.limit <= MAX_PAGE_SIZE
  {
    var cursor := if after == "" then Some([]) else Decode(after);
    if cursor.None? then None
    else if limit == "" then Some(Page(cursor.value, DEFAULT_PAGE_SIZE))
    else
      var n := Atoi(limit);
      if n.None? || n.value < 1 then None
      else Some(Page(cursor.value, if n.value > MAX_PAGE_SIZE then MAX_PAGE_SIZE else n.value))
  }

  function EncodeCursor(value: Key): string {
    Encode(value)
  }

  datatype Result<T> = Result(items: seq<T>, nextCursor: string, hasMore: bool)

  /** NewResult: cuts the extra row off and makes the cursor from the last row kept. */
  function NewResult<T>(items: seq<T>, limit: nat, key: T -> Key): Result<T> {
    var hasMore := |items| > limit;
    var kept := if hasMore then items[..limit] else items;
    Result(kept, if hasMore && kept != [] then EncodeCursor(key(kept[|kept| - 1])) else "", hasMore)
  }

  /** The text up to the first colon, which IDCursorSQL compares with. */
  function IdPart(after: Key): Key {
    if after == [] || after[0] == ':' as int then [] else [after[0]] + IdPart(after[1..])
  }

  /** IDCursorSQL: the clause, and the argument bound to its parameter. */
  function IDCursorSQL(after: Key, paramIdx: nat): (string, seq<Key>) {
    if after == [] then ("", []) else ("AND id > $" + Text.Dec(paramIdx), [IdPart(after)])
  }

  // ---- What the database returns ----

  type Order = (Key, Key) -> bool

  ghost predicate StrictOrder(lt: Order) {
    && (forall a :: !lt(a, a))
    && (forall a, b, c :: lt(a, b) && lt(b, c) ==> lt(a, c))
  }

  /** The rows in ascending order of their distinct keys. */
  ghost predicate Ascending<T>(rows: seq<T>, key: T -> Key, lt: Order) {
    forall i, j :: 0 <= i < j < |rows| ==> lt(key(rows[i]), key(rows[j]))
  }

  /** The rows above a bound. */
  function Above<T>(rows: seq<T>, key: T -> Key, lt: Order, bound: Key): seq<T> {
    if rows == [] then []
    else (if lt(bound, key(rows[0])) then [rows[0]] else []) + Above(rows[1..], key, lt, bound)
  }

  /** A text cut at its spaces. */
  function Words(s: string): (words: seq<string>)
    ensures words != []
  {
    if s == "" then [""]
    else
      var rest := Words(s[1..]);
      if s[0] == ' ' then [""] + rest else [[s[0]] + rest[0]] + rest[1..]
  }

  /** A condition on the id: how it must compare with which parameter of the query. */
  datatype Condition = Condition(op: string, param: nat)

  /** Reads a clause as the database does: AND id, a comparison, and a parameter.  Nothing else is understood. */
  function ReadClause(clause: string): Option<Condition> {
    var w := Words(clause);
    if |w| == 4 && w[0] == "AND" && w[1] == "id" && |w[3]| > 1 && w[3][0] == '$' && Text.AllDigits(w[3][1..])
    then Some(Condition(w[2], Text.Value(w[3][1..]))) else None
  }

  /** Whether an id compares with a bound as the operator says. */
  predicate Compares(op: string, lt: Order, id: Key, bound: Key) {
    match op
    case ">" => lt(bound, id)
    case ">=" => lt(bound, id) || id == bound
    case "<" => lt(id, bound)
    case "<=" => lt(id, bound) || id == bound
    case "=" => id == bound
    case _ => false
  }

  function Filtered<T>(rows: seq<T>, keep: T -> bool): seq<T> {
    if rows == [] then [] else (if keep(rows[0]) then [rows[0]] else []) + Filtered(rows[1..], keep)
  }

  /** What the query returns: all rows without a clause; with one, those that compare as it says with the
      parameter it names, the parameters being numbered from one; and nothing if the database rejects it. */
  function Queried<T>(rows: seq<T>, key: T -> Key, lt: Order, clause: string, params: seq<Key>): Option<seq<T>> {
    if clause == "" then Some(rows)
    else
      var c := ReadClause(clause);
      if c.None? || !(1 <= c.value.param <= |params|) then None
      else Some(Filtered(rows, r => Compares(c.value.op, lt, key(r), params[c.value.param - 1])))
  }

  /** The rows behind the cursor, in a query that has other parameters before it. */
  function Selected<T>(rows: seq<T>, key: T -> Key, lt: Order, others: seq<Key>, after: Key): Option<seq<T>> {
    var (clause, args) := IDCursorSQL(after, |others| + 1);
    Queried(rows, key, lt, clause, others + args)
  }

  function Limited<T>(rows: seq<T>, n: nat): seq<T> {
    if |rows| <= n then rows else rows[..n]
  }

  /** What answers a request for a page, given its cursor; nothing stands for an error. */
  type Server<T> = string -> Option<Result<T>>

  function SelectBy<T>(rows: seq<T>, key: T -> Key, lt: Order, others: seq<Key>): Key -> Option<seq<T>> {
    after => Selected(rows, key, lt, others, after)
  }

  /** The server over a query: decode the parameters, fetch one row more than the limit, cut the page. */
  function ServerFrom<T>(select: Key -> Option<seq<T>>, key: T -> Key, limit: string): Server<T> {
    cursor =>
      var page := PageFromQuery(cursor, limit);
      if page.None? then None
      else
        var Page(after, limit) := page.value;
        var selected := select(after);
        if selected.None? then None else Some(NewResult(Limited(selected.value, limit + 1), limit, key))
  }

  /** The server over a list, whose query may have parameters of its own besides the cursor. */
  function ListServer<T>(rows: seq<T>, key: T -> Key, lt: Order, others: seq<Key>, limit: string): Server<T> {
    ServerFrom(SelectBy(rows, key, lt, others), key, limit)
  }

  /** The client's walk: at most fuel further pages; nothing if a request fails or the pages do not end. */
  function Walk<T>(server: Server<T>, cursor: string, fuel: nat): Option<seq<seq<T>>>
    decreases fuel
  {
    var result := server(cursor);
    if result.None? then None
    else if !result.value.hasMore then Some([result.value.items])
    else if fuel == 0 then None
    else
      var rest := Walk(server, result.value.nextCursor, fuel - 1);
      if rest.None? then None else Some([result.value.items] + rest.value)
  }

  function Flatten<T>(pages: seq<seq<T>>): seq<T> {
    if pages == [] then [] else pages[0] + Flatten(pages[1..])
  }

  // ---- Cursors ----

  predicate NoColon(key: Key) {
    forall k :: 0 <= k < |key| ==> key[k] != ':' as int
  }

  /** A key a cursor can carry. */
  predicate Clean(key: Key) {
    key != [] && NoColon(key)
  }

  lemma {:induction false} IdPartExact(key: Key)
    ensures IdPart(key) == key <==> NoColon(key)
    ensures |IdPart(key)| <= |key| && IdPart(key) == key[..|IdPart(key)|]
    ensures NoColon(IdPart(key)) && (|IdPart(key)| < |key| ==> key[|IdPart(key)|] == ':' as int)
  {
    if key != [] && key[0] != ':' as int {
      IdPartExact(key[1..]);
      assert key == [key[0]] + key[1..];
      if NoColon(key) {
        assert NoColon(key[1..]);
      } else {
        var k :| 0 <= k < |key| && key[k] == ':' as int;
        assert key[1..][k - 1] == ':' as int;
      }
    } else if key != [] {
      assert key[0] == ':' as int;
    }
  }

  /** Every byte string survives the trip through a cursor; pages have 20 rows unless a limit is given. */
  lemma CursorRoundTrip(value: Key)
    ensures PageFromQuery(EncodeCursor(value), "") == Some(Page(value, 20))
    ensures PageFromQuery("", "") == Some(Page([], 20))
  {
    DecodeEncode(value);
  }

  /** Which limits are accepted, and what becomes of them: none below 1 or beyond a 64-bit int, and at
      most 100 is used. */
  lemma LimitExact(n: nat, cursor: string)
    requires cursor == "" || Decode(cursor).Some?
    ensures var page := PageFromQuery(cursor, Text.Dec(n));
            if n < 1 || n > MAX_INT64 then page.None?
            else page == Some(Page(if cursor == "" then [] else Decode(cursor).value, if n > 100 then 100 else n))
    ensures PageFromQuery(cursor, "-" + Text.Dec(n)).None?
  {
    Text.ValueDec(n);
    var s := Text.Dec(n);
    assert Text.IsDigit(s[0]);
    assert ("-" + s)[1..] == s;
  }

  /** A limit is accepted if and only if it is a numeral, with a plus or without, leading zeros or not, that
      denotes a number from 1 to the greatest int64; and it counts as that number, up to 100. */
  lemma LimitTexts(s: string, cursor: string)
    requires s != "" && (cursor == "" || Decode(cursor).Some?)
    ensures var digits := if s[0] == '+' then s[1..] else s;
            var page := PageFromQuery(cursor, s);
            && (page.Some? <==> digits != "" && Text.AllDigits(digits) && 1 <= Text.Value(digits) <= MAX_INT64)
            && (page.Some? ==>
                  && page.value.after == (if cursor == "" then [] else Decode(cursor).value)
                  && page.value.limit == (if Text.Value(digits) > 100 then 100 else Text.Value(digits)))
  {
  }

  lemma LimitReadsBack(limit: nat, cursor: string)
    requires 1 <= limit <= MAX_PAGE_SIZE && (cursor == "" || Decode(cursor).Some?)
    ensures PageFromQuery(cursor, Text.Dec(limit))
        == Some(Page(if cursor == "" then [] else Decode(cursor).value, limit))
  {
    LimitExact(limit, cursor);
  }

  // ---- The walk ----

  lemma {:induction false} AboveAll<T>(rows: seq<T>, key: T -> Key, lt: Order, bound: Key)
    requires forall i :: 0 <= i < |rows| ==> lt(bound, key(rows[i]))
    ensures Above(rows, key, lt, bound) == rows
  {
    if rows != [] {
      AboveAll(rows[1..], key, lt, bound);
    }
  }

  /** Asking for what lies above the key of row p gives exactly the rows after it. */
  lemma {:induction false} AboveOwnKey<T>(rows: seq<T>, key: T -> Key, lt: Order, p: nat)
    requires StrictOrder(lt) && Ascending(rows, key, lt) && p < |rows|
    ensures Above(rows, key, lt, key(rows[p])) == rows[p + 1..]
  {
    if p == 0 {
      AboveAll(rows[1..], key, lt, key(rows[0]));
    } else {
      assert lt(key(rows[0]), key(rows[p]));
      assert !lt(key(rows[p]), key(rows[0]));
      AboveOwnKey(rows[1..], key, lt, p - 1);
      assert rows[1..][p..] == rows[p + 1..];
    }
  }

  /** Asking for what lies above something below row p gives a list that starts no later than row p. */
  lemma {:induction false} AboveStartsBy<T>(rows: seq<T>, key: T -> Key, lt: Order, bound: Key, p: nat) returns (q: nat)
    requires p < |rows| && lt(bound, key(rows[p]))
    ensures q <= p && Above(rows, key, lt, bound) != [] && Above(rows, key, lt, bound)[0] == rows[q]
  {
    if lt(bound, key(rows[0])) {
      q := 0;
    } else {
      q := AboveStartsBy(rows[1..], key, lt, bound, p - 1);
      q := q + 1;
    }
  }

  /** The last row of every page but the final one is good (pages from row p on). */
  predicate BoundariesGood<T>(rows: seq<T>, good: T -> bool, limit: nat, p: nat)
    requires 1 <= limit && p <= |rows|
    decreases |rows| - p
  {
    |rows| - p <= limit || (good(rows[p + limit - 1]) && BoundariesGood(rows, good, limit, p + limit))
  }

  /** The last key of every page but the final one is nonempty and free of colons. */
  predicate BoundariesClean<T>(rows: seq<T>, key: T -> Key, limit: nat)
    requires 1 <= limit
  {
    BoundariesGood(rows, CleanKey(key), limit, 0)
  }

  /** How many pages n rows make. */
  function PageCount(n: nat, limit: nat): nat
    requires 1 <= limit
  {
    if n <= limit then 1 else 1 + PageCount(n - limit, limit)
  }

  /** ... which is ceil(n / limit), and one for no rows at all. */
  lemma {:induction false} PageCountIsCeiling(n: nat, limit: nat)
    requires 1 <= limit
    ensures var c := PageCount(n, limit); 1 <= c && n <= c * limit && (c > 1 ==> (c - 1) * limit < n)
  {
    if n > limit {
      PageCountIsCeiling(n - limit, limit);
      var c := PageCount(n - limit, limit);
      assert (1 + c) * limit == limit + c * limit;
      assert c > 1 ==> c * limit == (c - 1) * limit + limit;
    }
  }

  /** The page that starts at row p, where each row has its cursor. */
  function PageAt<T>(rows: seq<T>, cursorOf: T -> string, limit: nat, p: nat): Result<T>
    requires 1 <= limit && p <= |rows|
  {
    if |rows| - p <= limit then Result(rows[p..], "", false)
    else Result(rows[p..p + limit], cursorOf(rows[p + limit - 1]), true)
  }

  /** If row b is good, its cursor leads to the page that starts at the row after it. */
  ghost predicate LeadsOn<T>(server: Server<T>, rows: seq<T>, cursorOf: T -> string, good: T -> bool, limit: nat,
      b: nat)
    requires 1 <= limit && b < |rows|
  {
    good(rows[b]) ==> server(cursorOf(rows[b])) == Some(PageAt(rows, cursorOf, limit, b + 1))
  }

  /** The first page starts at the first row, and the cursors of good rows lead on. */
  ghost predicate FollowsGoodCursors<T>(server: Server<T>, rows: seq<T>, cursorOf: T -> string, good: T -> bool,
      limit: nat)
    requires 1 <= limit
  {
    server("") == Some(PageAt(rows, cursorOf, limit, 0))
    && forall b :: 0 <= b < |rows| ==> LeadsOn(server, rows, cursorOf, good, limit, b)
  }

  function CursorOf<T>(key: T -> Key): T -> string {
    r => EncodeCursor(key(r))
  }

  function CleanKey<T>(key: T -> Key): T -> bool {
    r => Clean(key(r))
  }

  lemma CutsPage<T>(rows: seq<T>, key: T -> Key, limit: nat, p: nat)
    requires 1 <= limit && p <= |rows|
    ensures NewResult(Limited(rows[p..], limit + 1), limit, key) == PageAt(rows, CursorOf(key), limit, p)
  {
    var s := rows[p..];
    if |s| > limit {
      assert Limited(s, limit + 1)[..limit] == rows[p..p + limit];
    }
  }

  predicate NoSpace(w: string) {
    ' ' !in w
  }

  lemma {:induction false} OneWord(w: string, rest: string)
    requires NoSpace(w)
    ensures Words(w + " " + rest) == [w] + Words(rest)
    ensures Words(w) == [w]
  {
    var s := w + " " + rest;
    if w == "" {
      assert s[1..] == rest;
    } else {
      OneWord(w[1..], rest);
      assert s[1..] == w[1..] + " " + rest;
      assert w == [w[0]] + w[1..];
    }
  }

  lemma FourWords(a: string, b: string, c: string, d: string)
    requires NoSpace(a) && NoSpace(b) && NoSpace(c) && NoSpace(d)
    ensures Words(a + " " + (b + " " + (c + " " + d))) == [a, b, c, d]
  {
    OneWord(a, b + " " + (c + " " + d));
    OneWord(b, c + " " + d);
    OneWord(c, d);
    OneWord(d, "");
  }

  lemma ClauseWords(n: string)
    requires NoSpace(n)
    ensures Words("AND id > " + n) == ["AND", "id", ">", n]
  {
    FourWords("AND", "id", ">", n);
    assert "AND" + " " + ("id" + " " + (">" + " " + n)) == "AND id > " + n;
  }

  lemma ClauseRead(clause: string, n: string, param: nat)
    requires Words(clause) == ["AND", "id", ">", "$" + n]
    requires n != "" && Text.AllDigits(n) && Text.Value(n) == param
    ensures ReadClause(clause) == Some(Condition(">", param))
  {
    assert ("$" + n)[1..] == n;
  }

  /** The clause reads back as the strict comparison with the parameter it was made for, and binds one
      argument to it; without a cursor there is neither. */
  lemma ClauseReadsBack(after: Key, paramIdx: nat)
    ensures var (clause, args) := IDCursorSQL(after, paramIdx);
            if after == [] then clause == "" && args == []
            else ReadClause(clause) == Some(Condition(">", paramIdx)) && clause != "" && args == [IdPart(after)]
  {
    if after != [] {
      var n := Text.Dec(paramIdx);
      var clause := IDCursorSQL(after, paramIdx).0;
      assert clause == "AND id > " + ("$" + n);
      ClauseWords("$" + n);
      Text.ValueDec(paramIdx);
      ClauseRead(clause, n, paramIdx);
    }
  }

  lemma {:induction false} FilteredAbove<T>(rows: seq<T>, key: T -> Key, lt: Order, bound: Key, keep: T -> bool)
    requires forall r :: keep(r) <==> lt(bound, key(r))
    ensures Filtered(rows, keep) == Above(rows, key, lt, bound)
  {
    if rows != [] {
      FilteredAbove(rows[1..], key, lt, bound, keep);
    }
  }

  /** The query behind a cursor returns the rows above its id part, all of them without a cursor, whatever
      other parameters come before. */
  lemma SelectedIs<T>(rows: seq<T>, key: T -> Key, lt: Order, others: seq<Key>, after: Key)
    ensures Selected(rows, key, lt, others, after)
         == Some(if after == [] then rows else Above(rows, key, lt, IdPart(after)))
  {
    ClauseReadsBack(after, |others| + 1);
    if after != [] {
      var (clause, args) := IDCursorSQL(after, |others| + 1);
      var params := others + args;
      assert params[|others|] == IdPart(after);
      FilteredAbove(rows, key, lt, IdPart(after), r => Compares(">", lt, key(r), params[|others|]));
    }
  }

  /** The query returns the rows above the id part of its cursor, all of them without one. */
  ghost predicate SelectsAbove<T>(select: Key -> Option<seq<T>>, rows: seq<T>, key: T -> Key, lt: Order) {
    forall after :: select(after) == Some(if after == [] then rows else Above(rows, key, lt, IdPart(after)))
  }

  lemma SelectBySelects<T>(rows: seq<T>, key: T -> Key, lt: Order, others: seq<Key>)
    ensures SelectsAbove(SelectBy(rows, key, lt, others), rows, key, lt)
  {
    forall after ensures SelectBy(rows, key, lt, others)(after)
                      == Some(if after == [] then rows else Above(rows, key, lt, IdPart(after)))
    {
      SelectedIs(rows, key, lt, others, after);
    }
  }

  lemma ServerAnswers<T>(select: Key -> Option<seq<T>>, key: T -> Key, limit: nat, value: Key)
    requires 1 <= limit <= MAX_PAGE_SIZE && select(value).Some?
    ensures ServerFrom(select, key, Text.Dec(limit))(EncodeCursor(value))
         == Some(NewResult(Limited(select(value).value, limit + 1), limit, key))
  {
    CursorPage(value, limit);
  }

  lemma CursorPage(value: Key, limit: nat)
    requires 1 <= limit <= MAX_PAGE_SIZE
    ensures PageFromQuery(EncodeCursor(value), Text.Dec(limit)) == Some(Page(value, limit))
  {
    DecodeEncode(value);
    LimitReadsBack(limit, EncodeCursor(value));
  }

  lemma ServesAfter<T>(select: Key -> Option<seq<T>>, rows: seq<T>, key: T -> Key, lt: Order, limit: nat, b: nat)
    requires SelectsAbove(select, rows, key, lt) && 1 <= limit <= MAX_PAGE_SIZE
    requires StrictOrder(lt) && Ascending(rows, key, lt) && b < |rows| && Clean(key(rows[b]))
    ensures ServerFrom(select, key, Text.Dec(limit))(EncodeCursor(key(rows[b])))
         == Some(PageAt(rows, CursorOf(key), limit, b + 1))
  {
    IdPartExact(key(rows[b]));
    AboveOwnKey(rows, key, lt, b);
    assert select(key(rows[b])) == Some(rows[b + 1..]);
    ServerAnswers(select, key, limit, key(rows[b]));
    CutsPage(rows, key, limit, b + 1);
  }

  lemma ListServerFollows<T>(select: Key -> Option<seq<T>>, rows: seq<T>, key: T -> Key, lt: Order, limit: nat)
    requires SelectsAbove(select, rows, key, lt) && 1 <= limit <= MAX_PAGE_SIZE
    requires StrictOrder(lt) && Ascending(rows, key, lt)
    ensures FollowsGoodCursors(ServerFrom(select, key, Text.Dec(limit)), rows, CursorOf(key), CleanKey(key), limit)
  {
    LimitReadsBack(limit, "");
    CutsPage(rows, key, limit, 0);
    assert rows[0..] == rows;
    forall b | 0 <= b < |rows|
      ensures LeadsOn(ServerFrom(select, key, Text.Dec(limit)), rows, CursorOf(key), CleanKey(key), limit, b)
    {
      if Clean(key(rows[b])) {
        ServesAfter(select, rows, key, lt, limit, b);
      }
    }
  }

  lemma {:induction false} WalkFrom<T>(server: Server<T>, rows: seq<T>, cursorOf: T -> string, good: T -> bool,
      cursor: string, limit: nat, p: nat, fuel: nat)
    requires 1 <= limit && FollowsGoodCursors(server, rows, cursorOf, good, limit)
    requires p <= |rows| && server(cursor) == Some(PageAt(rows, cursorOf, limit, p))
    requires BoundariesGood(rows, good, limit, p) && |rows| - p <= fuel
    ensures var pages := Walk(server, cursor, fuel);
            pages.Some? && Flatten(pages.value) == rows[p..] && |pages.value| == PageCount(|rows| - p, limit)
    decreases fuel
  {
    if |rows| - p <= limit {
      assert Flatten([rows[p..]]) == rows[p..] + Flatten<T>([]);
    } else {
      var next := cursorOf(rows[p + limit - 1]);
      assert LeadsOn(server, rows, cursorOf, good, limit, p + limit - 1);
      WalkFrom(server, rows, cursorOf, good, next, limit, p + limit, fuel - 1);
      FlattenCons(rows[p..p + limit], Walk(server, next, fuel - 1).value);
      assert rows[p..] == rows[p..p + limit] + rows[p + limit..];
    }
  }

  lemma FlattenCons<T>(page: seq<T>, pages: seq<seq<T>>)
    ensures Flatten([page] + pages) == page + Flatten(pages)
  {
  }

  /** Pages partition the list: for rows in strictly ascending order of clean keys and any limit from
      1 to 100, following the cursors from the start ends after ceil(n / limit) pages (one, for an
      empty list), and the pages put together are the list, nothing lost and nothing repeated. */
  lemma PagesPartition<T>(rows: seq<T>, key: T -> Key, lt: Order, others: seq<Key>, limit: nat)
    requires StrictOrder(lt) && Ascending(rows, key, lt) && 1 <= limit <= MAX_PAGE_SIZE
    requires forall i :: 0 <= i < |rows| ==> Clean(key(rows[i]))
    ensures var pages := Walk(ListServer(rows, key, lt, others, Text.Dec(limit)), "", |rows|);
            pages.Some? && Flatten(pages.value) == rows && |pages.value| == PageCount(|rows|, limit)
  {
    SelectBySelects(rows, key, lt, others);
    ListServerFollows(SelectBy(rows, key, lt, others), rows, key, lt, limit);
    WalkAll(ListServer(rows, key, lt, others, Text.Dec(limit)), rows, CursorOf(key), CleanKey(key), limit);
  }

  lemma WalkAll<T>(server: Server<T>, rows: seq<T>, cursorOf: T -> string, good: T -> bool, limit: nat)
    requires 1 <= limit && FollowsGoodCursors(server, rows, cursorOf, good, limit)
    requires forall i :: 0 <= i < |rows| ==> good(rows[i])
    ensures var pages := Walk(server, "", |rows|);
            pages.Some? && Flatten(pages.value) == rows && |pages.value| == PageCount(|rows|, limit)
  {
    AllBoundariesGood(rows, good, limit, 0);
    assert rows[0..] == rows;
    WalkFrom(server, rows, cursorOf, good, "", limit, 0, |rows|);
  }

  lemma {:induction false} AllBoundariesGood<T>(rows: seq<T>, good: T -> bool, limit: nat, p: nat)
    requires 1 <= limit && p <= |rows| && forall i :: 0 <= i < |rows| ==> good(rows[i])
    ensures BoundariesGood(rows, good, limit, p)
    decreases |rows| - p
  {
    if |rows| - p > limit {
      AllBoundariesGood(rows, good, limit, p + limit);
    }
  }

  // ---- Exactly when the walk works ----

  /** A key is above its part before the colon, as it is where text is compared byte by byte. */
  ghost predicate PrefixesBelow(lt: Order) {
    forall a, b :: a < b ==> lt(a, b)
  }

  /** The page begins with a row no later than row b. */
  ghost predicate StartsBy<T>(result: Option<Result<T>>, rows: seq<T>, b: nat)
    requires b < |rows|
  {
    result.Some? && result.value.items != [] && exists q :: 0 <= q <= b && result.value.items[0] == rows[q]
  }

  /** The cursor of a row that is not good leads back to that row or an earlier one. */
  ghost predicate TripsOnOthers<T>(server: Server<T>, rows: seq<T>, cursorOf: T -> string, good: T -> bool) {
    forall b :: 0 <= b < |rows| && !good(rows[b]) ==> StartsBy(server(cursorOf(rows[b])), rows, b)
  }

  lemma CutStartsBy<T>(rows: seq<T>, selected: seq<T>, key: T -> Key, limit: nat, q: nat, b: nat)
    requires q <= b < |rows| && selected != [] && selected[0] == rows[q] && 1 <= limit
    ensures StartsBy(Some(NewResult(Limited(selected, limit + 1), limit, key)), rows, b)
  {
  }

  lemma UncleanStartsEarly<T>(select: Key -> Option<seq<T>>, rows: seq<T>, key: T -> Key, lt: Order, limit: nat, b: nat)
    requires SelectsAbove(select, rows, key, lt) && PrefixesBelow(lt) && 1 <= limit <= MAX_PAGE_SIZE
    requires b < |rows| && !Clean(key(rows[b]))
    ensures StartsBy(ServerFrom(select, key, Text.Dec(limit))(EncodeCursor(key(rows[b]))), rows, b)
  {
    var k := key(rows[b]);
    assert select(k) == Some(if k == [] then rows else Above(rows, key, lt, IdPart(k)));
    ServerAnswers(select, key, limit, k);
    if k == [] {
      CutStartsBy(rows, rows, key, limit, 0, b);
    } else {
      IdPartExact(k);
      assert IdPart(k) < k;
      var q := AboveStartsBy(rows, key, lt, IdPart(k), b);
      CutStartsBy(rows, Above(rows, key, lt, IdPart(k)), key, limit, q, b);
    }
  }

  // A walk whose pages give a nonempty first page flattens to a list with that page's first row in front.
  lemma WalkHead<T>(server: Server<T>, cursor: string, fuel: nat)
    requires Walk(server, cursor, fuel).Some? && server(cursor).value.items != []
    ensures var all := Flatten(Walk(server, cursor, fuel).value); all != [] && all[0] == server(cursor).value.items[0]
  {
  }

  // The walk after a full first page.
  lemma FirstPageOff<T>(server: Server<T>, rows: seq<T>, cursorOf: T -> string, cursor: string, limit: nat, p: nat,
      fuel: nat)
    requires 1 <= limit && p + limit < |rows| && server(cursor) == Some(PageAt(rows, cursorOf, limit, p))
    requires Walk(server, cursor, fuel).Some? && Flatten(Walk(server, cursor, fuel).value) == rows[p..]
    ensures var next := cursorOf(rows[p + limit - 1]);
            && fuel > 0 && Walk(server, next, fuel - 1).Some?
            && Flatten(Walk(server, next, fuel - 1).value) == rows[p + limit..]
  {
    var rest := Walk(server, cursorOf(rows[p + limit - 1]), fuel - 1).value;
    FlattenCons(rows[p..p + limit], rest);
    assert Flatten(rest) == rows[p..][limit..] == rows[p + limit..];
  }

  // A walk that starts too early cannot give the rows after row b.
  lemma TooEarly<T>(server: Server<T>, rows: seq<T>, cursor: string, fuel: nat, b: nat)
    requires forall i, j :: 0 <= i < j < |rows| ==> rows[i] != rows[j]
    requires b + 1 < |rows| && StartsBy(server(cursor), rows, b) && Walk(server, cursor, fuel).Some?
    ensures Flatten(Walk(server, cursor, fuel).value) != rows[b + 1..]
  {
    WalkHead(server, cursor, fuel);
    var q :| 0 <= q <= b && server(cursor).value.items[0] == rows[q];
    assert rows[b + 1..][0] == rows[b + 1] != rows[q];
  }

  /** If row b is not good, no walk from its cursor gives the rows after it. */
  ghost predicate LeadsAstray<T>(server: Server<T>, rows: seq<T>, cursorOf: T -> string, good: T -> bool, b: nat)
    requires b < |rows|
  {
    !good(rows[b]) && b + 1 < |rows| ==>
      forall fuel: nat :: Walk(server, cursorOf(rows[b]), fuel).Some? ==>
        Flatten(Walk(server, cursorOf(rows[b]), fuel).value) != rows[b + 1..]
  }

  lemma OthersLeadAstray<T>(server: Server<T>, rows: seq<T>, cursorOf: T -> string, good: T -> bool, b: nat)
    requires forall i, j :: 0 <= i < j < |rows| ==> rows[i] != rows[j]
    requires b < |rows| && TripsOnOthers(server, rows, cursorOf, good)
    ensures LeadsAstray(server, rows, cursorOf, good, b)
  {
    if !good(rows[b]) && b + 1 < |rows| {
      forall fuel: nat | Walk(server, cursorOf(rows[b]), fuel).Some?
        ensures Flatten(Walk(server, cursorOf(rows[b]), fuel).value) != rows[b + 1..]
      {
        TooEarly(server, rows, cursorOf(rows[b]), fuel, b);
      }
    }
  }

  lemma {:induction false} WalkNeedsGoodBoundaries<T>(server: Server<T>, rows: seq<T>, cursorOf: T -> string,
      good: T -> bool, cursor: string, limit: nat, p: nat, fuel: nat)
    requires 1 <= limit && FollowsGoodCursors(server, rows, cursorOf, good, limit)
    requires forall b :: 0 <= b < |rows| ==> LeadsAstray(server, rows, cursorOf, good, b)
    requires p <= |rows| && server(cursor) == Some(PageAt(rows, cursorOf, limit, p))
    requires Walk(server, cursor, fuel).Some? && Flatten(Walk(server, cursor, fuel).value) == rows[p..]
    ensures BoundariesGood(rows, good, limit, p)
    decreases fuel
  {
    if |rows| - p > limit {
      var b := p + limit - 1;
      FirstPageOff(server, rows, cursorOf, cursor, limit, p, fuel);
      assert LeadsAstray(server, rows, cursorOf, good, b);
      if good(rows[b]) {
        assert LeadsOn(server, rows, cursorOf, good, limit, b);
        WalkNeedsGoodBoundaries(server, rows, cursorOf, good, cursorOf(rows[b]), limit, p + limit, fuel - 1);
      }
    }
  }

  /** Followed long enough, the walk ends and its pages put together are the list. */
  ghost predicate Reproduces<T>(server: Server<T>, rows: seq<T>) {
    exists fuel: nat :: Walk(server, "", fuel).Some? && Flatten(Walk(server, "", fuel).value) == rows
  }

  lemma WalkExact<T>(server: Server<T>, rows: seq<T>, cursorOf: T -> string, good: T -> bool, limit: nat)
    requires 1 <= limit && FollowsGoodCursors(server, rows, cursorOf, good, limit)
        && TripsOnOthers(server, rows, cursorOf, good)
    requires forall i, j :: 0 <= i < j < |rows| ==> rows[i] != rows[j]
    ensures Reproduces(server, rows) <==> BoundariesGood(rows, good, limit, 0)
  {
    assert rows[0..] == rows;
    if BoundariesGood(rows, good, limit, 0) {
      WalkFrom(server, rows, cursorOf, good, "", limit, 0, |rows|);
    }
    forall b | 0 <= b < |rows| ensures LeadsAstray(server, rows, cursorOf, good, b) {
      OthersLeadAstray(server, rows, cursorOf, good, b);
    }
    if fuel: nat :| Walk(server, "", fuel).Some? && Flatten(Walk(server, "", fuel).value) == rows {
      WalkNeedsGoodBoundaries(server, rows, cursorOf, good, "", limit, 0, fuel);
    }
  }

  /** The walk reproduces the list if and only if the last key of every page but the final one is
      nonempty and free of colons. */
  lemma PagesPartitionExact<T>(rows: seq<T>, key: T -> Key, lt: Order, others: seq<Key>, limit: nat)
    requires StrictOrder(lt) && PrefixesBelow(lt) && Ascending(rows, key, lt) && 1 <= limit <= MAX_PAGE_SIZE
    ensures Reproduces(ListServer(rows, key, lt, others, Text.Dec(limit)), rows) <==> BoundariesClean(rows, key, limit)
  {
    SelectBySelects(rows, key, lt, others);
    SelectingServerExact(SelectBy(rows, key, lt, others), rows, key, lt, limit);
  }

  lemma SelectingServerExact<T>(select: Key -> Option<seq<T>>, rows: seq<T>, key: T -> Key, lt: Order, limit: nat)
    requires SelectsAbove(select, rows, key, lt) && 1 <= limit <= MAX_PAGE_SIZE
    requires StrictOrder(lt) && PrefixesBelow(lt) && Ascending(rows, key, lt)
    ensures Reproduces(ServerFrom(select, key, Text.Dec(limit)), rows) <==> BoundariesClean(rows, key, limit)
  {
    var server := ServerFrom(select, key, Text.Dec(limit));
    ListServerFollows(select, rows, key, lt, limit);
    forall b | 0 <= b < |rows| && !Clean(key(rows[b])) ensures StartsBy(server(EncodeCursor(key(rows[b]))), rows, b) {
      UncleanStartsEarly(select, rows, key, lt, limit, b);
    }
    assert forall i, j :: 0 <= i < j < |rows| ==> lt(key(rows[i]), key(rows[j]));
    WalkExact(server, rows, CursorOf(key), CleanKey(key), limit);
  }

  /** Comparison of text byte by byte. */
  predicate ByteLess(a: Key, b: Key) {
    b != [] && (a == [] || a[0] < b[0] || (a[0] == b[0] && ByteLess(a[1..], b[1..])))
  }

  lemma {:induction false} ByteLessStrict(a: Key, b: Key, c: Key)
    ensures !ByteLess(a, a)
    ensures ByteLess(a, b) && ByteLess(b, c) ==> ByteLess(a, c)
    ensures a < b ==> ByteLess(a, b)
  {
    if a != [] && b != [] {
      ByteLessStrict(a[1..], b[1..], if c == [] then [] else c[1..]);
    } else if a != [] {
      ByteLessStrict(a[1..], [], []);
    }
  }

  /** The order the exact statement asks for exists: text compared byte by byte. */
  lemma ByteOrderQualifies()
    ensures StrictOrder(ByteLess) && PrefixesBelow(ByteLess)
  {
    forall a ensures !ByteLess(a, a) {
      ByteLessStrict(a, a, a);
    }
    forall a, b, c | ByteLess(a, b) && ByteLess(b, c) ensures ByteLess(a, c) {
      ByteLessStrict(a, b, c);
    }
    forall a, b: Key | a < b ensures ByteLess(a, b) {
      ByteLessStrict(a, b, b);
    }
  }
}
