/** The audit events of a run against the table they describe. */
module AuditHistory {
  import opened Wrappers
  import opened Wills
  import opened Runs

  /** Who signed, and over which payload. */
  datatype Signature = Signature(flt: Flt, payloadHash: string)

  /** What the events of a will say about it. */
  datatype View = View(status: Status, signedHash: Option<string>, witnesses: seq<Signature>,
      supersededBy: Option<WillId>)

  function Signatures(ws: seq<WitnessSignature>): seq<Signature> {
    if ws == [] then []
    else Signatures(ws[..|ws| - 1]) + [Signature(ws[|ws| - 1].signer.flt, ws[|ws| - 1].payloadHash)]
  }

  function ViewOf(w: Will): View {
    View(w.status, w.signedHash, Signatures(w.witnesses), w.supersededBy)
  }

  function RowView(t: Table, id: WillId): Option<View> {
    if id in t.rows then Some(ViewOf(t.rows[id])) else None
  }

  /** A reader's step through the log: one event of the will. */
  function Advance(v: Option<View>, e: Event): Option<View> {
    match e.kind
    case WillCreated => Some(View(Draft, None, [], None))
    case CodicilCreated => Some(View(Draft, None, [], None))
    case _ => if v.None? then None else Some(Moved(v.value, e))
  }

  function Moved(v: View, e: Event): View {
    match e.kind
    case TestatorSigned => v.(signedHash := Some(e.payload))
    case WitnessSigned => v.(witnesses := v.witnesses + [Signature(e.actor, e.payload)])
    case WillLocked => v.(status := Locked)
    case DeathWasNotified => v.(status := DeathNotified)
    case VaultUnlocked => v.(status := UnlockedAtDeath)
    case WillSuperseded => v.(status := Superseded, supersededBy := Some(e.payload))
    case _ => v
  }

  /** The view a reader gets by following the events of one will in order. */
  function Replay(events: seq<Event>, id: WillId): Option<View> {
    if events == [] then None
    else
      var v, e := Replay(events[..|events| - 1], id), events[|events| - 1];
      if e.will == id then Advance(v, e) else v
  }

  lemma ReplayOne(h: seq<Event>, e: Event, id: WillId)
    ensures Replay(h + [e], id) == if e.will == id then Advance(Replay(h, id), e) else Replay(h, id)
  {
  }

  lemma {:induction false} ReplaySuperseded(h: seq<Event>, ids: seq<WillId>, actor: Flt, heir: WillId, id: WillId)
    ensures Replay(h + SupersededEvents(ids, actor, heir), id) ==
            var v := Replay(h, id);
            if id in ids && v.Some? then Some(v.value.(status := Superseded, supersededBy := Some(heir))) else v
  {
    if ids == [] {
      assert h + SupersededEvents(ids, actor, heir) == h;
    } else {
      var n := |ids| - 1;
      var e, before := Event(ids[n], WillSuperseded, actor, heir), h + SupersededEvents(ids[..n], actor, heir);
      ReplaySuperseded(h, ids[..n], actor, heir, id);
      assert h + SupersededEvents(ids, actor, heir) == before + [e];
      ReplayOne(before, e, id);
      assert id in ids <==> id in ids[..n] || id == ids[n];
    }
  }

  // What a new draft makes of the view of a will: a new view, a superseded one, or the old one.
  function AfterDraft(v: Option<View>, id: WillId, newId: WillId, listed: bool): Option<View> {
    var w := if id == newId then Some(View(Draft, None, [], None)) else v;
    if listed && w.Some? then Some(w.value.(status := Superseded, supersededBy := Some(newId))) else w
  }

  lemma DraftView(t: Table, c: Call, id: WillId)
    requires c.CreateDraft? && c.newId !in t.rows
    ensures RowView(Write(t, c, ReadOf(t, c)), id)
         == AfterDraft(RowView(t, id), id, c.newId, id in FindActive(t, c.testator.flt))
  {
  }

  lemma DraftReplay(h: seq<Event>, c: Call, r: Read, id: WillId)
    requires c.CreateDraft?
    ensures Replay(h + Events(c, r), id) == AfterDraft(Replay(h, id), id, c.newId, id in r.active)
  {
    var e := Event(c.newId, WillCreated, c.testator.flt, "");
    ReplayOne(h, e, id);
    ReplaySuperseded(h + [e], r.active, c.testator.flt, c.newId, id);
    assert h + Events(c, r) == (h + [e]) + SupersededEvents(r.active, c.testator.flt, c.newId);
  }

  lemma ReplayDraft(t: Table, c: Call, h: seq<Event>, id: WillId)
    requires c.CreateDraft? && c.newId !in t.rows && Replay(h, id) == RowView(t, id)
    ensures Replay(h + Events(c, ReadOf(t, c)), id) == RowView(Write(t, c, ReadOf(t, c)), id)
  {
    DraftReplay(h, c, ReadOf(t, c), id);
    DraftView(t, c, id);
  }

  /** The order in which the wills to supersede were listed matters neither to the table nor to a reader
      of the log. */
  lemma ListOrderImmaterial(t: Table, c: Call, r: Read, r': Read, h: seq<Event>, id: WillId)
    requires c.CreateDraft? && forall k :: k in r.active <==> k in r'.active
    ensures Write(t, c, r) == Write(t, c, r')
    ensures Replay(h + Events(c, r), id) == Replay(h + Events(c, r'), id)
  {
    DraftReplay(h, c, r, id);
    DraftReplay(h, c, r', id);
  }

  // The event of an update carries the old view of its row to the new one.
  lemma UpdatedView(c: Call, w: Will, r: Read)
    requires !c.CreateDraft? && !c.CreateCodicil?
    ensures var es := Events(c, r);
            && |es| <= 1
            && Some(ViewOf(Updated(c, w))) == if es == [] then Some(ViewOf(w)) else Advance(Some(ViewOf(w)), es[0])
  {
  }

  // A call that touches one existing row records one event or none.
  lemma ReplayUpdate(t: Table, c: Call, v: Option<View>, id: WillId)
    requires !c.CreateDraft? && !c.CreateCodicil? && Check(c, ReadOf(t, c)) == Done && v == RowView(t, id)
    ensures var es := Events(c, ReadOf(t, c));
            && |es| <= 1
            && RowView(Write(t, c, ReadOf(t, c)), id) == if |es| == 1 && es[0].will == id then Advance(v, es[0]) else v
  {
    if id in t.rows {
      UpdatedView(c, t.rows[id], ReadOf(t, c));
    }
  }

  lemma ReplayCodicil(t: Table, c: Call, h: seq<Event>, id: WillId)
    requires c.CreateCodicil? && c.newId !in t.rows && c.id in t.rows && Replay(h, id) == RowView(t, id)
    ensures Replay(h + Events(c, ReadOf(t, c)), id) == RowView(Write(t, c, ReadOf(t, c)), id)
  {
    var e, e' := Event(c.newId, CodicilCreated, c.testator.flt, ""),
        Event(c.id, CodicilAppended, c.testator.flt, c.newId);
    ReplayOne(h, e, id);
    ReplayOne(h + [e], e', id);
    assert h + Events(c, ReadOf(t, c)) == (h + [e]) + [e'];
  }

  /** A call records exactly the events that carry the old view of every will to the new one. */
  lemma ReplayCall(t: Table, c: Call, h: seq<Event>, id: WillId)
    requires Replay(h, id) == RowView(t, id)
    ensures Replay(h + Apply(t, c).events, id) == RowView(Apply(t, c).table, id)
  {
    var r := ReadOf(t, c);
    if Check(c, r) != Done || KeyClash(t, c) {
      assert h + [] == h;
    } else if c.CreateDraft? {
      ReplayDraft(t, c, h, id);
    } else if c.CreateCodicil? {
      ReplayCodicil(t, c, h, id);
    } else {
      ReplayUpdate(t, c, Replay(h, id), id);
      var es := Events(c, r);
      if es == [] {
        assert h + es == h;
      } else {
        assert es == [es[0]];
        ReplayOne(h, es[0], id);
      }
    }
  }

  /** The log tells the truth: replaying a run's events gives every will's stored status, the hash its
      testator signed, who witnessed which hash in order, and its heir; and nothing for wills that do
      not exist. */
  lemma {:induction false} HistoryMatchesTable(run: seq<Request>, id: WillId)
    ensures Replay(History(run), id) == RowView(After(run), id)
  {
    if run != [] {
      var before, q := run[..|run| - 1], run[|run| - 1];
      var t, h := After(before), History(before);
      HistoryMatchesTable(before, id);
      HandleIsCall(t, q);
      ReplayCall(t, CallOf(q), h, id);
      assert h + [] == h;
    }
  }
}
