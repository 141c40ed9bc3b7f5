/** The will table and what one service call reads, decides and writes.

    A call is split the way the service splits it: a Read of the rows it needs, a Check of what
    was read, and a Write that never looks at the table again before it changes it.  Run back to
    back on one table the three give Apply, the call as one atomic step; run apart they give the
    interleaved calls of module Interleaving. */
module Wills {
  import opened Wrappers
  import opened Clock

  type WillId = string
  type Flt = string

  datatype Identity = Identity(flt: Flt, fullName: string, assurance: string)
  datatype Clause = Clause(id: string, text: string, index: int)
  datatype Beneficiary = Beneficiary(id: string, name: string, email: string, relation: string)
  datatype Executor = Executor(id: string, name: string, email: string, flt: Flt)
  datatype Vault = Vault(ciphertext: string, nonce: string, alg: string)
  datatype WitnessSignature = WitnessSignature(signer: Identity, signedAt: Time, payloadHash: string, rowKey: Time)
  datatype DigitalAsset = DigitalAsset(id: string, assetType: string, platform: string, identifier: string,
      instruction: string, beneficiary: string)
  datatype Linz = Linz(verifiedAt: Time, landAreaM2: real, legalDescription: string)
  datatype Property = Property(id: string, titleReference: string, beneficiary: string, linz: Option<Linz>)

  datatype Status = Draft | Locked | DeathNotified | UnlockedAtDeath | Superseded

  /** The columns and child rows that only an insertion writes.  The serial number is the row's
      place in insertion order. */
  datatype Origin = Origin(
    testator: Identity, clauses: seq<Clause>, beneficiaries: seq<Beneficiary>, executors: seq<Executor>,
    vault: Vault, delayDays: int, isCodicil: bool, parent: Option<WillId>, note: string, serial: nat)

  datatype Will = Will(
    origin: Origin, status: Status,
    signedAt: Option<Time>, signedHash: Option<string>, witnesses: seq<WitnessSignature>,
    assets: seq<DigitalAsset>, properties: seq<Property>,
    lockedAt: Option<Time>, unlockedAt: Option<Time>, supersededBy: Option<WillId>,
    deathNotifiedAt: Option<Time>, unlockAfter: Option<Time>,
    lastConfirmedAt: Option<Time>, livenessNotifiedAt: Option<Time>)

  /** The rows by primary key, and their keys in insertion order (rows are never deleted). */
  datatype Table = Table(rows: map<WillId, Will>, order: seq<WillId>)

  const EMPTY := Table(map[], [])

  datatype CreateRequest = CreateRequest(
    clauses: seq<Clause>, beneficiaries: seq<Beneficiary>, executors: seq<Executor>, vault: Vault, delayDays: int)

  /** A call of the will service, with the clock readings, fresh identifiers and LINZ answer it uses. */
  datatype Call =
    | CreateDraft(newId: WillId, testator: Identity, req: CreateRequest)
    | CreateCodicil(newId: WillId, id: WillId, testator: Identity, req: CreateRequest)
    | SignTestator(id: WillId, signer: Identity, payloadHash: string, now: Time)
    | SignWitness(id: WillId, signer: Identity, payloadHash: string, now: Time)
    | Lock(id: WillId, now: Time)
    | NotifyDeath(id: WillId, delayDays: int, now: Time)
    | CompleteUnlock(id: WillId, now: Time)
    | ConfirmLiveness(id: WillId, testator: Identity, now: Time)
    | RecordReminder(id: WillId, now: Time)
    | AddDigitalAsset(id: WillId, testator: Identity, asset: DigitalAsset)
    | AddProperty(id: WillId, testator: Identity, property: Property)

  datatype Outcome = Done | NotFound | InvalidState | Forbidden | InvalidVault | DbError

  datatype AuditEvent =
    | WillCreated | CodicilCreated | CodicilAppended | TestatorSigned | WitnessSigned | WillLocked
    | WillSuperseded | DeathWasNotified | VaultUnlocked | LivenessConfirmed | LivenessReminderSent

  /** What a call hands to the audit service. */
  datatype Event = Event(will: WillId, kind: AuditEvent, actor: Flt, payload: string)

  predicate ValidVault(v: Vault) {
    v.ciphertext != "" && v.nonce != "" && v.alg == "AES-GCM-256"
  }

  predicate IsActive(w: Will, flt: Flt) {
    w.origin.testator.flt == flt && (w.status == Draft || w.status == Locked) && !w.origin.isCodicil
  }

  /** The drafts and locked wills of a testator, codicils aside, in insertion order. */
  function ActiveAmong(rows: map<WillId, Will>, order: seq<WillId>, flt: Flt): (ids: seq<WillId>)
    ensures forall id :: id in ids <==> id in order && id in rows && IsActive(rows[id], flt)
  {
    if order == [] then []
    else
      var last := order[|order| - 1];
      ActiveAmong(rows, order[..|order| - 1], flt) + (if last in rows && IsActive(rows[last], flt) then [last] else [])
  }

  function FindActive(t: Table, flt: Flt): seq<WillId> {
    ActiveAmong(t.rows, t.order, flt)
  }

  /** What a call learnt from the database before deciding: the will row, how many witness rows
      came back, and the wills to supersede. */
  datatype Read = Read(row: Option<Will>, witnessRows: nat, active: seq<WillId>)

  function RowOf(t: Table, id: WillId): Option<Will> {
    if id in t.rows then Some(t.rows[id]) else None
  }

  function ReadOf(t: Table, c: Call): Read {
    match c
    case CreateDraft(_, testator, _) => Read(None, 0, FindActive(t, testator.flt))
    case RecordReminder(_, _) => Read(None, 0, [])
    case _ =>
      var row := RowOf(t, c.id);
      Read(row, if row.Some? then |row.value.witnesses| else 0, [])
  }

  /** The decision a call takes on what it read. */
  function Check(c: Call, r: Read): Outcome {
    match c
    case CreateDraft(_, _, req) => if ValidVault(req.vault) then Done else InvalidVault
    case RecordReminder(_, _) => Done
    case _ => if r.row.None? then NotFound else CheckRow(c, r.row.value, r.witnessRows)
  }

  function CheckRow(c: Call, w: Will, witnessRows: nat): Outcome
    requires !c.CreateDraft? && !c.RecordReminder?
  {
    var owner := w.origin.testator.flt;
    match c
    case CreateCodicil(_, _, testator, req) =>
      if w.status != Locked then InvalidState
      else if owner != testator.flt then Forbidden
      else if ValidVault(req.vault) then Done else InvalidVault
    case SignTestator(_, signer, _, _) =>
      if w.status != Draft then InvalidState else if owner != signer.flt then Forbidden else Done
    case SignWitness(_, signer, _, _) =>
      if w.status != Draft then InvalidState
      else if owner == signer.flt then Forbidden
      else if w.signedAt.None? then InvalidState else Done
    case Lock(_, _) =>
      if w.status != Draft then InvalidState
      else if w.signedAt.None? || witnessRows < 2 then InvalidState else Done
    case NotifyDeath(_, _, _) => if w.status != Locked then InvalidState else Done
    case CompleteUnlock(_, now) =>
      if w.status != DeathNotified then InvalidState
      else if w.unlockAfter.Some? && now < w.unlockAfter.value then InvalidState else Done
    case ConfirmLiveness(_, testator, _) =>
      if owner != testator.flt then Forbidden
      else if w.status == Superseded || w.status == UnlockedAtDeath then InvalidState else Done
    case AddDigitalAsset(_, testator, _) =>
      if w.status != Draft then InvalidState else if owner != testator.flt then Forbidden else Done
    case AddProperty(_, testator, _) =>
      if w.status != Draft then InvalidState else if owner != testator.flt then Forbidden else Done
  }

  // The row an insertion creates.
  function NewWill(testator: Identity, req: CreateRequest, parent: Option<WillId>, serial: nat): Will {
    var note := if parent.Some? then "codicil to " + parent.value else "created draft";
    Will(Origin(testator, req.clauses, req.beneficiaries, req.executors, req.vault, req.delayDays, parent.Some?,
        parent, note, serial),
         Draft, None, None, [], [], [], None, None, None, None, None, None, None)
  }

  function SupersededWill(w: Will, heir: WillId): Will {
    w.(status := Superseded, supersededBy := Some(heir))
  }

  function Supersede(rows: map<WillId, Will>, ids: seq<WillId>, heir: WillId): map<WillId, Will> {
    map id | id in rows :: if id in ids then SupersededWill(rows[id], heir) else rows[id]
  }

  // The UPDATE or child-row INSERT a call sends for its will.
  function Updated(c: Call, w: Will): Will
    requires !c.CreateDraft? && !c.CreateCodicil?
  {
    match c
    case SignTestator(_, _, hash, now) => w.(signedAt := Some(Stored(now)), signedHash := Some(hash))
    case SignWitness(_, signer, hash, now) =>
      w.(witnesses := w.witnesses + [WitnessSignature(signer, Stored(now), hash, now)])
    case Lock(_, now) => w.(status := Locked, lockedAt := Some(Stored(now)), unlockedAt := None)
    case NotifyDeath(_, delayDays, now) =>
      if delayDays == 0 then w.(status := UnlockedAtDeath, lockedAt := None, unlockedAt := Some(Stored(now)))
      else w.(status := DeathNotified, deathNotifiedAt := Some(Stored(now)),
          unlockAfter := Some(Stored(now + delayDays * DAY)))
    case CompleteUnlock(_, now) => w.(status := UnlockedAtDeath, lockedAt := None, unlockedAt := Some(Stored(now)))
    case ConfirmLiveness(_, _, now) => w.(lastConfirmedAt := Some(Stored(now)))
    case RecordReminder(_, now) => w.(livenessNotifiedAt := Some(Stored(now)))
    case AddDigitalAsset(_, _, asset) => w.(assets := w.assets + [asset])
    case AddProperty(_, _, property) => w.(properties := w.properties + [property])
  }

  /** The statement would break a primary key: a will identifier already used, or two witness rows
      of one will with the same nanosecond timestamp in their keys. */
  predicate KeyClash(t: Table, c: Call) {
    match c
    case CreateDraft(newId, _, _) => newId in t.rows
    case CreateCodicil(newId, _, _, _) => newId in t.rows
    case SignWitness(id, _, _, now) =>
      id in t.rows && exists k :: 0 <= k < |t.rows[id].witnesses| && t.rows[id].witnesses[k].rowKey == now
    case _ => false
  }

  /** The table after a call's statements; only the supersession list comes from what was read. */
  function Write(t: Table, c: Call, r: Read): Table {
    match c
    case CreateDraft(newId, testator, req) =>
      Table(Supersede(t.rows[newId := NewWill(testator, req, None, |t.order|)], r.active, newId), t.order + [newId])
    case CreateCodicil(newId, id, testator, req) =>
      Table(t.rows[newId := NewWill(testator, req, Some(id), |t.order|)], t.order + [newId])
    case _ =>
      if c.id in t.rows then t.(rows := t.rows[c.id := Updated(c, t.rows[c.id])]) else t
  }

  function SupersededEvents(ids: seq<WillId>, actor: Flt, heir: WillId): seq<Event> {
    if ids == [] then []
    else SupersededEvents(ids[..|ids| - 1], actor, heir) + [Event(ids[|ids| - 1], WillSuperseded, actor, heir)]
  }

  /** The audit events of a successful call, in the order they are recorded. */
  function Events(c: Call, r: Read): seq<Event> {
    match c
    case CreateDraft(newId, testator, _) =>
      [Event(newId, WillCreated, testator.flt, "")] + SupersededEvents(r.active, testator.flt, newId)
    case CreateCodicil(newId, id, testator, _) =>
      [Event(newId, CodicilCreated, testator.flt, ""), Event(id, CodicilAppended, testator.flt, newId)]
    case SignTestator(id, signer, hash, _) => [Event(id, TestatorSigned, signer.flt, hash)]
    case SignWitness(id, signer, hash, _) => [Event(id, WitnessSigned, signer.flt, hash)]
    case Lock(id, _) => [Event(id, WillLocked, if r.row.Some? then r.row.value.origin.testator.flt else "", "")]
    case NotifyDeath(id, delayDays, _) =>
      [Event(id, if delayDays == 0 then VaultUnlocked else DeathWasNotified, "", "")]
    case CompleteUnlock(id, _) => [Event(id, VaultUnlocked, "", "")]
    case ConfirmLiveness(id, testator, _) => [Event(id, LivenessConfirmed, testator.flt, "")]
    case RecordReminder(id, _) => [Event(id, LivenessReminderSent, "", "")]
    case AddDigitalAsset(_, _, _) => []
    case AddProperty(_, _, _) => []
  }

  datatype Step = Step(table: Table, outcome: Outcome, events: seq<Event>)

  /** A service call as one atomic step. */
  function Apply(t: Table, c: Call): Step {
    var r := ReadOf(t, c);
    if Check(c, r) != Done then Step(t, Check(c, r), [])
    else if KeyClash(t, c) then Step(t, DbError, [])
    else Step(Write(t, c, r), Done, Events(c, r))
  }

  /** The FLT gate on a list of executors: an exact match, or no FLT captured at all. */
  predicate IsNominated(executors: seq<Executor>, flt: Flt) {
    || (exists k :: 0 <= k < |executors| && executors[k].flt != "" && executors[k].flt == flt)
    || (forall k :: 0 <= k < |executors| ==> executors[k].flt == "")
  }
}
