// What one `merge` call of the emitted KeyedRefCache does, as a function on
// cache values.  The three emitted classes are proved against this function in
// KeyedCaches.dfy; its laws over whole runs are proved in RefRowLaws.dfy.
module RefRows {
  import opened Common
  import opened Revs

  /******* Wire *******/

  // One row as the FlatBuffers buffer holds it: the key and the state may be
  // missing, and the state discriminant is a raw byte.
  datatype WireRow = WireRow(key: Option<string>, rev: nat, state: Option<byte>, payload: Bytes)

  // An omitted scalar field has its default.
  function RawState(w: WireRow): byte
  {
    if w.state.None? then CHANGED else w.state.value
  }

  // A batch buffer.  Garbage stands for every buffer the checked root decode
  // refuses: empty, wrong file identifier, malformed.
  datatype Wire = Garbage | Buffer(baseline: bool, rows: seq<WireRow>)

  datatype RowState = Changed | Cleared

  type Row = RevRow<RowState, Bytes>

  datatype Batch = Batch(baseline: bool, rows: seq<Row>)

  // Whole-batch validation: a missing key or a discriminant other than
  // Changed / Cleared anywhere refuses the batch.
  predicate WellFormedRow(w: WireRow)
  {
    w.key.Some? && RawState(w) <= CLEARED
  }

  function ReadRow(w: WireRow): Row
    requires WellFormedRow(w)
  {
    Row(w.key.value, w.rev, if RawState(w) == CLEARED then Cleared else Changed, w.payload)
  }

  function ReadRows(ws: seq<WireRow>): (rows: seq<Row>)
    requires forall w :: w in ws ==> WellFormedRow(w)
    ensures |rows| == |ws|
    ensures forall i :: 0 <= i < |ws| ==> rows[i] == ReadRow(ws[i])
  {
    seq(|ws|, i requires 0 <= i < |ws| => ReadRow(ws[i]))
  }

  function Decode(wire: Wire): Option<Batch>
  {
    if wire.Buffer? && (forall w :: w in wire.rows ==> WellFormedRow(w))
    then Some(Batch(wire.baseline, ReadRows(wire.rows)))
    else None
  }

  /******* Routing and row acceptance *******/

  // (namespace, payload) -> the payload decodes to the namespace's type.
  type RowDecoder = (string, Bytes) -> bool

  // What the generator bakes into the class: the registered projection keys with
  // their resolver namespaces, and the decode-before-commit check.
  datatype Host = Host(routes: map<string, string>, decoder: RowDecoder)

  predicate Accepts(decoder: RowDecoder, namespace: string, payload: Bytes)
  {
    payload != [] && decoder(namespace, payload)
  }

  /******* Rows on one projection *******/

  type Entry = RevEntry<Bytes>

  type Table = RevTable<Bytes>

  predicate Commits(decoder: RowDecoder, ns: string, t: Table, r: Row)
  {
    r.state.Changed? && Newer(t, r) && Accepts(decoder, ns, r.payload)
  }

  // A Changed row that passes the guard but does not decode.
  predicate Spoils(decoder: RowDecoder, ns: string, t: Table, r: Row)
  {
    r.state.Changed? && Newer(t, r) && !Accepts(decoder, ns, r.payload)
  }

  // Rev-safe clear.
  predicate Clears(t: Table, r: Row)
  {
    r.state.Cleared? && r.key in t && r.rev > t[r.key].rev
  }

  function ApplyRow(decoder: RowDecoder, ns: string, t: Table, r: Row): Table
  {
    if Clears(t, r) then t - {r.key}
    else if Commits(decoder, ns, t, r) then t[r.key := Entry(r.rev, r.payload)]
    else t
  }

  function ApplyRows(decoder: RowDecoder, ns: string, t: Table, rows: seq<Row>): Table
  {
    if rows == [] then t
    else ApplyRow(decoder, ns, ApplyRows(decoder, ns, t, rows[..|rows| - 1]), rows[|rows| - 1])
  }

  // Keys some row of the batch committed or cleared.
  function TouchedKeys(decoder: RowDecoder, ns: string, t: Table, rows: seq<Row>): set<string>
  {
    if rows == [] then {}
    else
      var before := ApplyRows(decoder, ns, t, rows[..|rows| - 1]);
      var r := rows[|rows| - 1];
      TouchedKeys(decoder, ns, t, rows[..|rows| - 1])
      + (if Clears(before, r) || Commits(decoder, ns, before, r) then {r.key} else {})
  }

  predicate AnySpoils(decoder: RowDecoder, ns: string, t: Table, rows: seq<Row>)
  {
    rows != [] &&
    (AnySpoils(decoder, ns, t, rows[..|rows| - 1])
     || Spoils(decoder, ns, ApplyRows(decoder, ns, t, rows[..|rows| - 1]), rows[|rows| - 1]))
  }

  // Every Changed row of a baseline must decode.
  predicate BaselineDecodes(decoder: RowDecoder, ns: string, rows: seq<Row>)
  {
    forall r :: r in rows && r.state.Changed? ==> Accepts(decoder, ns, r.payload)
  }

  // Inside a baseline a clear removes unconditionally.
  function ScratchRow(t: Table, r: Row): Table
  {
    if r.state.Cleared? then t - {r.key}
    else if Newer(t, r) then t[r.key := Entry(r.rev, r.payload)]
    else t
  }

  function Scratch(rows: seq<Row>): Table
  {
    if rows == [] then map[] else ScratchRow(Scratch(rows[..|rows| - 1]), rows[|rows| - 1])
  }

  // Slots whose payload appears, changes or disappears when prior becomes next.
  function Diff(prior: Table, next: Table): set<string>
  {
    (set k | k in next && (k !in prior || prior[k].payload != next[k].payload))
    + (set k | k in prior && k !in next)
  }

  /******* The cache *******/

  datatype Cache = Cache(
    rows: map<string, Table>,
    session: nat,
    epoch: nat,
    baselined: bool,
    needsResync: bool)

  const EMPTY: Cache := Cache(map[], 0, 0, false, false)

  function TableOf(c: Cache, projectionKey: string): Table
  {
    if projectionKey in c.rows then c.rows[projectionKey] else map[]
  }

  datatype Frame = Frame(projectionKey: string, wire: Wire, session: nat, epoch: nat)

  predicate IdentityChanged(c: Cache, f: Frame)
  {
    f.session != c.session || f.epoch != c.epoch
  }

  // What a frame does to the cache it meets.
  datatype Effect = Ignored | Refused | Rebuilds | Adopts | Merges

  function EffectOf(host: Host, c: Cache, f: Frame): (effect: Effect)
    ensures !effect.Ignored? ==> f.projectionKey in host.routes
    ensures effect.Rebuilds? || effect.Adopts? || effect.Merges? ==> Decode(f.wire).Some?
  {
    if f.projectionKey !in host.routes then Ignored
    else
      var batch := Decode(f.wire);
      if batch.None? then Refused
      else if batch.value.baseline then
        (if BaselineDecodes(host.decoder, host.routes[f.projectionKey], batch.value.rows)
         then Rebuilds else Refused)
      else if IdentityChanged(c, f) then Adopts
      else Merges
  }

  function RowsOf(f: Frame): seq<Row>
    requires Decode(f.wire).Some?
  {
    Decode(f.wire).value.rows
  }

  // A decoded baseline replaces its projection; under a new identity it also
  // drops every other projection and heals the resync flag.
  function Rebuild(c: Cache, f: Frame, table: Table): Cache
  {
    if IdentityChanged(c, f) then Cache(map[f.projectionKey := table], f.session, f.epoch, true, false)
    else c.(rows := c.rows[f.projectionKey := table], baselined := true)
  }

  function Absorb(decoder: RowDecoder, ns: string, c: Cache, pk: string, rows: seq<Row>): Cache
  {
    c.(rows := c.rows[pk := ApplyRows(decoder, ns, TableOf(c, pk), rows)],
    baselined := true,
    needsResync := c.needsResync || AnySpoils(decoder, ns, TableOf(c, pk), rows))
  }

  function Merge(host: Host, c: Cache, f: Frame): Cache
  {
    match EffectOf(host, c, f)
    case Ignored => c
    case Refused => c.(needsResync := true)
    case Adopts => c.(session := f.session, epoch := f.epoch, baselined := false, needsResync := true)
    case Rebuilds => Rebuild(c, f, Scratch(RowsOf(f)))
    case Merges => Absorb(host.decoder, host.routes[f.projectionKey], c, f.projectionKey, RowsOf(f))
  }

  // What a baseline is compared with: nothing, when the identity changes.
  function PriorTable(c: Cache, f: Frame): Table
  {
    if IdentityChanged(c, f) then map[] else TableOf(c, f.projectionKey)
  }

  // The row keys `merge` reports as changed.
  function Changes(host: Host, c: Cache, f: Frame): set<string>
  {
    match EffectOf(host, c, f)
    case Rebuilds => Diff(PriorTable(c, f), Scratch(RowsOf(f)))
    case Merges =>
      TouchedKeys(host.decoder, host.routes[f.projectionKey], TableOf(c, f.projectionKey), RowsOf(f))
    case _ => {}
  }

  /******* Runs *******/

  datatype Op = Deliver(frame: Frame) | Reset

  function Step(host: Host, c: Cache, op: Op): Cache
  {
    match op
    case Reset => EMPTY
    case Deliver(f) => Merge(host, c, f)
  }

  function Run(host: Host, c: Cache, ops: seq<Op>): Cache
  {
    if ops == [] then c else Step(host, Run(host, c, ops[..|ops| - 1]), ops[|ops| - 1])
  }
}
