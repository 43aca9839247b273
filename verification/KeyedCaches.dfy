// The three emitted KeyedRefCache classes, each proved against RefRows.Merge.
module KeyedCaches {
  import opened Common
  import opened Revs
  import opened RefRows
  import opened RefRowLaws

  /******* Loops the three classes share *******/

  // A slot that appears or changes payload.
  predicate Moved(prior: Table, scratch: Table, key: string)
    requires key in scratch
  {
    key !in prior || prior[key].payload != scratch[key].payload
  }

  method MovedKeys(prior: Table, scratch: Table) returns (changed: set<string>)
    ensures changed == set k | k in scratch && (k !in prior || prior[k].payload != scratch[k].payload)
  {
    changed := {};
    var todo := scratch.Keys;
    while todo != {}
      invariant todo <= scratch.Keys
      invariant forall k :: k in changed <==> k in scratch && k !in todo && Moved(prior, scratch, k)
      decreases |todo|
    {
      var key :| key in todo;
      if key !in prior || prior[key].payload != scratch[key].payload {
        changed := changed + {key};
      }
      todo := todo - {key};
    }
    assert forall k :: k in changed <==> k in scratch && Moved(prior, scratch, k);
  }

  // Slots that disappear.
  method DroppedKeys(prior: Table, scratch: Table) returns (changed: set<string>)
    ensures changed == set k | k in prior && k !in scratch
  {
    changed := {};
    var todo := prior.Keys;
    while todo != {}
      invariant todo <= prior.Keys && changed <= prior.Keys - todo
      invariant forall k :: k in prior && k !in todo ==> (k in changed <==> k !in scratch)
      decreases |todo|
    {
      var key :| key in todo;
      if key !in scratch {
        changed := changed + {key};
      }
      todo := todo - {key};
    }
  }

  method DiffKeys(prior: Table, scratch: Table) returns (changed: set<string>)
    ensures changed == Diff(prior, scratch)
  {
    var moved := MovedKeys(prior, scratch);
    var dropped := DroppedKeys(prior, scratch);
    return moved + dropped;
  }

  lemma TakeOneMore<T>(s: seq<T>, i: nat)
    requires i < |s|
    ensures s[..i + 1][..i] == s[..i] && s[..i + 1][i] == s[i] && s[..i + 1] == s[..i] + [s[i]]
  {
  }

  // The changed keys each delivered frame of a run reports, in order.
  function Reports(host: Host, c: Cache, ops: seq<Op>): seq<set<string>>
  {
    if ops == [] then []
    else
      var init, op := ops[..|ops| - 1], ops[|ops| - 1];
      Reports(host, c, init) + (if op.Deliver? then [Changes(host, Run(host, c, init), op.frame)] else [])
  }

  lemma RunOneMore(host: Host, c: Cache, ops: seq<Op>, i: nat)
    requires i < |ops|
    ensures var before := Run(host, c, ops[..i]);
            && Run(host, c, ops[..i + 1]) == Step(host, before, ops[i])
            && Reports(host, c, ops[..i + 1])
               == Reports(host, c, ops[..i]) + (if ops[i].Deliver? then [Changes(host, before, ops[i].frame)] else [])
  {
    TakeOneMore(ops, i);
  }

  // Every other projection's prior-epoch rows are dropped.
  function RetainOnly(rows: map<string, Table>, pk: string): (kept: map<string, Table>)
    ensures forall t :: kept[pk := t] == map[pk := t]
  {
    map k | k in rows && k == pk :: rows[k]
  }

  // What one more row adds to what the first i rows did.
  lemma RowStep(decoder: RowDecoder, ns: string, t: Table, rows: seq<Row>, i: nat)
    requires i < |rows|
    ensures var before := ApplyRows(decoder, ns, t, rows[..i]);
            && ApplyRows(decoder, ns, t, rows[..i + 1]) == ApplyRow(decoder, ns, before, rows[i])
            && TouchedKeys(decoder, ns, t, rows[..i + 1]) == TouchedKeys(decoder, ns, t, rows[..i])
               + (if Clears(before, rows[i]) || Commits(decoder, ns, before, rows[i]) then {rows[i].key} else {})
            && AnySpoils(decoder, ns, t, rows[..i + 1])
               == (AnySpoils(decoder, ns, t, rows[..i]) || Spoils(decoder, ns, before, rows[i]))
  {
    TakeOneMore(rows, i);
  }

  // The rows merged into one projection, before the loop is declared done.
  function Merging(decoder: RowDecoder, ns: string, c: Cache, pk: string, rows: seq<Row>): Cache
  {
    c.(rows := c.rows[pk := ApplyRows(decoder, ns, TableOf(c, pk), rows)],
    needsResync := c.needsResync || AnySpoils(decoder, ns, TableOf(c, pk), rows))
  }

  lemma MergingIsAbsorb(decoder: RowDecoder, ns: string, c: Cache, pk: string, rows: seq<Row>)
    ensures Merging(decoder, ns, c, pk, rows).(baselined := true) == Absorb(decoder, ns, c, pk, rows)
    ensures rows[..|rows|] == rows
  {
  }

  lemma MergingStep(decoder: RowDecoder, ns: string, c: Cache, pk: string, rows: seq<Row>, i: nat)
    requires i < |rows|
    ensures var before, t := Merging(decoder, ns, c, pk, rows[..i]), ApplyRows(decoder, ns, TableOf(c, pk), rows[..i]);
            && pk in before.rows && before.rows[pk] == t
            && Merging(decoder, ns, c, pk, rows[..i + 1])
               == before.(rows := before.rows[pk := ApplyRow(decoder, ns, t, rows[i])],
                  needsResync := before.needsResync || Spoils(decoder, ns, t, rows[i]))
  {
    RowStep(decoder, ns, TableOf(c, pk), rows, i);
  }

  lemma ScratchStep(rows: seq<Row>, i: nat)
    requires i < |rows|
    ensures Scratch(rows[..i + 1]) == ScratchRow(Scratch(rows[..i]), rows[i])
    ensures rows[..i + 1] == rows[..i] + [rows[i]]
  {
    TakeOneMore(rows, i);
  }

  // The Kotlin and TypeScript batch readers.
  method ReadBatch(wire: Wire) returns (batch: Option<Batch>)
    ensures batch == Decode(wire)
  {
    if wire.Garbage? {
      return None;
    }
    var rows: seq<Row> := [];
    var i := 0;
    while i < |wire.rows|
      invariant 0 <= i <= |wire.rows|
      invariant forall w :: w in wire.rows[..i] ==> WellFormedRow(w)
      invariant rows == ReadRows(wire.rows[..i])
    {
      var w := wire.rows[i];
      TakeOneMore(wire.rows, i);
      if w.key.None? || RawState(w) > CLEARED {
        assert w in wire.rows && !WellFormedRow(w);
        return None;
      }
      rows := rows + [ReadRow(w)];
      i := i + 1;
    }
    assert wire.rows[..i] == wire.rows;
    return Some(Batch(wire.baseline, rows));
  }

  /******* Kotlin: rows edited in place *******/

  class KotlinKeyedRefCache {
    const host: Host
    var rows: map<string, Table>
    var appliedSession: nat
    var appliedEpoch: nat
    var baselined: bool
    var needsResync: bool

    function Value(): Cache
      reads this
    {
      Cache(rows, appliedSession, appliedEpoch, baselined, needsResync)
    }

    constructor (host: Host)
      ensures this.host == host && Value() == EMPTY
    {
      this.host := host;
      rows, appliedSession, appliedEpoch, baselined, needsResync := map[], 0, 0, false, false;
    }

    method Reset()
      modifies this
      ensures Value() == Step(host, old(Value()), Op.Reset)
    {
      rows, appliedSession, appliedEpoch, baselined, needsResync := map[], 0, 0, false, false;
    }

    method Merge(f: Frame) returns (changed: set<string>)
      modifies this
      ensures Value() == RefRows.Merge(host, old(Value()), f)
      ensures changed == Changes(host, old(Value()), f)
    {
      if f.projectionKey !in host.routes {
        return {};
      }
      MergeByCase(host, Value(), f);
      var namespace := host.routes[f.projectionKey];
      var identityChanged := f.session != appliedSession || f.epoch != appliedEpoch;
      var batch := ReadBatch(f.wire);
      if batch.None? {
        needsResync := true;
        return {};
      }
      if batch.value.baseline {
        changed := ApplyBaseline(f, namespace, batch.value.rows, identityChanged);
      } else if identityChanged {
        appliedSession, appliedEpoch, baselined, needsResync := f.session, f.epoch, false, true;
        changed := {};
      } else {
        changed := ApplyIncremental(f.projectionKey, namespace, batch.value.rows);
      }
    }

    // The scratch half of a baseline: None when a row does not decode.
    method BuildScratch(ns: string, decoded: seq<Row>) returns (result: Option<Table>)
      ensures result == if BaselineDecodes(host.decoder, ns, decoded) then Some(Scratch(decoded)) else None
    {
      var scratch: Table := map[];
      for i := 0 to |decoded|
        invariant BaselineDecodes(host.decoder, ns, decoded[..i])
        invariant scratch == Scratch(decoded[..i])
      {
        var row := decoded[i];
        ScratchStep(decoded, i);
        if row.state.Cleared? {
          scratch := scratch - {row.key};
          continue;
        }
        if row.payload == [] || !host.decoder(ns, row.payload) {
          assert row in decoded;
          return None;
        }
        if row.key in scratch && row.rev <= scratch[row.key].rev {
          continue;
        }
        scratch := scratch[row.key := Entry(row.rev, row.payload)];
      }
      assert decoded[..|decoded|] == decoded;
      return Some(scratch);
    }

    method ApplyBaseline(f: Frame, ns: string, decoded: seq<Row>, identityChanged: bool) returns (changed: set<string>)
      requires identityChanged == IdentityChanged(Value(), f)
      modifies this
      ensures !BaselineDecodes(host.decoder, ns, decoded)
          ==> Value() == old(Value()).(needsResync := true) && changed == {}
      ensures BaselineDecodes(host.decoder, ns, decoded)
          ==> Value() == Rebuild(old(Value()), f, Scratch(decoded))
              && changed == Diff(PriorTable(old(Value()), f), Scratch(decoded))
    {
      var scratch := BuildScratch(ns, decoded);
      if scratch.None? {
        needsResync := true;
        return {};
      }
      if identityChanged {
        rows := RetainOnly(rows, f.projectionKey);
        appliedSession, appliedEpoch, needsResync := f.session, f.epoch, false;
      }
      var prior: Table :=
        if identityChanged || f.projectionKey !in rows then map[] else rows[f.projectionKey];
      changed := DiffKeys(prior, scratch.value);
      rows := rows[f.projectionKey := scratch.value];
      baselined := true;
    }

    // The body of the incremental loop: one row, edited in place.
    method MergeRow(pk: string, ns: string, row: Row) returns (touched: bool)
      requires pk in rows
      modifies this`rows, this`needsResync
      ensures rows == old(rows)[pk := ApplyRow(host.decoder, ns, old(rows)[pk], row)]
      ensures needsResync == (old(needsResync) || Spoils(host.decoder, ns, old(rows)[pk], row))
      ensures touched == (Clears(old(rows)[pk], row) || Commits(host.decoder, ns, old(rows)[pk], row))
    {
      if row.state.Cleared? {
        if row.key in rows[pk] && row.rev > rows[pk][row.key].rev {
          rows := rows[pk := rows[pk] - {row.key}];
          return true;
        }
        return false;
      }
      if row.key in rows[pk] && row.rev <= rows[pk][row.key].rev {
        return false;
      }
      if row.payload == [] || !host.decoder(ns, row.payload) {
        needsResync := true;
        return false;
      }
      rows := rows[pk := rows[pk][row.key := Entry(row.rev, row.payload)]];
      return true;
    }

    method ApplyIncremental(pk: string, ns: string, decoded: seq<Row>) returns (changed: set<string>)
      modifies this
      ensures Value() == Absorb(host.decoder, ns, old(Value()), pk, decoded)
      ensures changed == TouchedKeys(host.decoder, ns, old(TableOf(Value(), pk)), decoded)
    {
      ghost var before := Value();
      if pk !in rows {
        rows := rows[pk := map[]];
      }
      changed := {};
      for i := 0 to |decoded|
        invariant Value() == Merging(host.decoder, ns, before, pk, decoded[..i])
        invariant changed == TouchedKeys(host.decoder, ns, TableOf(before, pk), decoded[..i])
      {
        MergingStep(host.decoder, ns, before, pk, decoded, i);
        RowStep(host.decoder, ns, TableOf(before, pk), decoded, i);
        var touched := MergeRow(pk, ns, decoded[i]);
        if touched {
          changed := changed + {decoded[i].key};
        }
      }
      MergingIsAbsorb(host.decoder, ns, before, pk, decoded);
      baselined := true;
    }

    // A whole run of frames and resets.
    method Feed(ops: seq<Op>) returns (reports: seq<set<string>>)
      modifies this
      ensures Value() == Run(host, old(Value()), ops)
      ensures reports == Reports(host, old(Value()), ops)
    {
      reports := [];
      for i := 0 to |ops|
        invariant Value() == Run(host, old(Value()), ops[..i])
        invariant reports == Reports(host, old(Value()), ops[..i])
      {
        RunOneMore(host, old(Value()), ops, i);
        match ops[i] {
          case Reset => Reset();
          case Deliver(f) =>
            var changed := Merge(f);
            reports := reports + [changed];
        }
      }
      assert ops[..|ops|] == ops;
    }
  }

  /******* Swift: raw-state scan, then copy, edit and store back *******/

  // The typed accessor turns every discriminant it does not know into Changed.
  function CoercedState(w: WireRow): RowState
  {
    if RawState(w) == CLEARED then Cleared else Changed
  }

  class SwiftKeyedRefCache {
    const host: Host
    var rows: map<string, Table>
    var appliedSession: nat
    var appliedEpoch: nat
    var baselined: bool
    var needsResync: bool

    function Value(): Cache
      reads this
    {
      Cache(rows, appliedSession, appliedEpoch, baselined, needsResync)
    }

    constructor (host: Host)
      ensures this.host == host && Value() == EMPTY
    {
      this.host := host;
      rows, appliedSession, appliedEpoch, baselined, needsResync := map[], 0, 0, false, false;
    }

    method Reset()
      modifies this
      ensures Value() == Step(host, old(Value()), Op.Reset)
    {
      rows, appliedSession, appliedEpoch, baselined, needsResync := map[], 0, 0, false, false;
    }

    static method RawRowStateDiscriminants(wire: Wire) returns (states: seq<byte>)
      requires wire.Buffer?
      ensures |states| == |wire.rows| && forall i :: 0 <= i < |states| ==> states[i] == RawState(wire.rows[i])
    {
      states := [];
      for i := 0 to |wire.rows|
        invariant |states| == i && forall j :: 0 <= j < i ==> states[j] == RawState(wire.rows[j])
      {
        var field := wire.rows[i].state;
        states := states + [if field.None? then 0 else field.value];
      }
    }

    // Whole-batch validation against the raw discriminants.
    method Validate(wire: Wire) returns (ok: bool)
      requires wire.Buffer?
      ensures ok <==> forall w :: w in wire.rows ==> WellFormedRow(w)
    {
      var rawStates := RawRowStateDiscriminants(wire);
      for rowIndex := 0 to |wire.rows|
        invariant forall i :: 0 <= i < rowIndex ==> WellFormedRow(wire.rows[i])
      {
        if wire.rows[rowIndex].key.None? || rawStates[rowIndex] > CLEARED {
          assert !WellFormedRow(wire.rows[rowIndex]);
          return false;
        }
      }
      return |rawStates| == |wire.rows|;
    }

    method Merge(f: Frame) returns (changed: set<string>)
      modifies this
      ensures Value() == RefRows.Merge(host, old(Value()), f)
      ensures changed == Changes(host, old(Value()), f)
    {
      if f.projectionKey !in host.routes {
        return {};
      }
      MergeByCase(host, Value(), f);
      var namespace := host.routes[f.projectionKey];
      var identityChanged := f.session != appliedSession || f.epoch != appliedEpoch;
      if f.wire.Garbage? {
        needsResync := true;
        return {};
      }
      var ok := Validate(f.wire);
      if !ok {
        needsResync := true;
        return {};
      }
      if f.wire.baseline {
        changed := ApplyBaseline(f, namespace, f.wire.rows, identityChanged);
      } else if identityChanged {
        appliedSession, appliedEpoch, baselined, needsResync := f.session, f.epoch, false, true;
        changed := {};
      } else {
        changed := ApplyIncremental(f.projectionKey, namespace, f.wire.rows);
      }
    }

    method BuildScratch(ns: string, batch: seq<WireRow>) returns (result: Option<Table>)
      requires forall w :: w in batch ==> WellFormedRow(w)
      ensures result == if BaselineDecodes(host.decoder, ns, ReadRows(batch)) then Some(Scratch(ReadRows(batch))) else None
    {
      ghost var decoded := ReadRows(batch);
      var scratch: Table := map[];
      for i := 0 to |batch|
        invariant BaselineDecodes(host.decoder, ns, decoded[..i])
        invariant scratch == Scratch(decoded[..i])
      {
        var row := batch[i];
        assert WellFormedRow(row) && decoded[i] == ReadRow(row);
        ScratchStep(decoded, i);
        var key := row.key.value;
        if CoercedState(row).Cleared? {
          scratch := scratch - {key};
          continue;
        }
        if row.payload == [] || !host.decoder(ns, row.payload) {
          assert ReadRow(row) in decoded;
          return None;
        }
        if key in scratch && row.rev <= scratch[key].rev {
          continue;
        }
        scratch := scratch[key := Entry(row.rev, row.payload)];
      }
      assert decoded[..|decoded|] == decoded;
      return Some(scratch);
    }

    method ApplyBaseline(f: Frame, ns: string, batch: seq<WireRow>, identityChanged: bool) returns (changed: set<string>)
      requires identityChanged == IdentityChanged(Value(), f)
      requires forall w :: w in batch ==> WellFormedRow(w)
      modifies this
      ensures !BaselineDecodes(host.decoder, ns, ReadRows(batch))
          ==> Value() == old(Value()).(needsResync := true) && changed == {}
      ensures BaselineDecodes(host.decoder, ns, ReadRows(batch))
          ==> Value() == Rebuild(old(Value()), f, Scratch(ReadRows(batch)))
              && changed == Diff(PriorTable(old(Value()), f), Scratch(ReadRows(batch)))
    {
      var scratch := BuildScratch(ns, batch);
      if scratch.None? {
        needsResync := true;
        return {};
      }
      if identityChanged {
        rows := RetainOnly(rows, f.projectionKey);
        appliedSession, appliedEpoch, needsResync := f.session, f.epoch, false;
      }
      var prior: Table :=
        if identityChanged || f.projectionKey !in rows then map[] else rows[f.projectionKey];
      changed := DiffKeys(prior, scratch.value);
      rows := rows[f.projectionKey := scratch.value];
      baselined := true;
    }

    // The body of the incremental loop, on the local copy of the projection.
    method MergeRow(ns: Table, namespace: string, row: WireRow) returns (after: Table, touched: bool)
      requires WellFormedRow(row)
      modifies this`needsResync
      ensures after == ApplyRow(host.decoder, namespace, ns, ReadRow(row))
      ensures needsResync == (old(needsResync) || Spoils(host.decoder, namespace, ns, ReadRow(row)))
      ensures touched == (Clears(ns, ReadRow(row)) || Commits(host.decoder, namespace, ns, ReadRow(row)))
    {
      var key := row.key.value;
      if CoercedState(row).Cleared? {
        if key in ns && row.rev > ns[key].rev {
          return ns - {key}, true;
        }
        return ns, false;
      }
      if key in ns && row.rev <= ns[key].rev {
        return ns, false;
      }
      if row.payload == [] || !host.decoder(namespace, row.payload) {
        needsResync := true;
        return ns, false;
      }
      return ns[key := Entry(row.rev, row.payload)], true;
    }

    // The incremental loop, on the local copy.
    method MergeRows(t: Table, namespace: string, batch: seq<WireRow>) returns (ns: Table, changed: set<string>)
      requires forall w :: w in batch ==> WellFormedRow(w)
      modifies this`needsResync
      ensures ns == ApplyRows(host.decoder, namespace, t, ReadRows(batch))
      ensures changed == TouchedKeys(host.decoder, namespace, t, ReadRows(batch))
      ensures needsResync == (old(needsResync) || AnySpoils(host.decoder, namespace, t, ReadRows(batch)))
    {
      ghost var decoded := ReadRows(batch);
      ns, changed := t, {};
      for i := 0 to |batch|
        invariant ns == ApplyRows(host.decoder, namespace, t, decoded[..i])
        invariant changed == TouchedKeys(host.decoder, namespace, t, decoded[..i])
        invariant needsResync == (old(needsResync) || AnySpoils(host.decoder, namespace, t, decoded[..i]))
      {
        RowStep(host.decoder, namespace, t, decoded, i);
        assert WellFormedRow(batch[i]) && decoded[i] == ReadRow(batch[i]);
        var touched;
        ns, touched := MergeRow(ns, namespace, batch[i]);
        if touched {
          changed := changed + {batch[i].key.value};
        }
      }
      assert decoded[..|decoded|] == decoded;
    }

    method ApplyIncremental(pk: string, namespace: string, batch: seq<WireRow>) returns (changed: set<string>)
      requires forall w :: w in batch ==> WellFormedRow(w)
      modifies this
      ensures Value() == Absorb(host.decoder, namespace, old(Value()), pk, ReadRows(batch))
      ensures changed == TouchedKeys(host.decoder, namespace, old(TableOf(Value(), pk)), ReadRows(batch))
    {
      var ns: Table := if pk in rows then rows[pk] else map[];
      ns, changed := MergeRows(ns, namespace, batch);
      rows := rows[pk := ns];
      baselined := true;
    }

    // A whole run of frames and resets.
    method Feed(ops: seq<Op>) returns (reports: seq<set<string>>)
      modifies this
      ensures Value() == Run(host, old(Value()), ops)
      ensures reports == Reports(host, old(Value()), ops)
    {
      reports := [];
      for i := 0 to |ops|
        invariant Value() == Run(host, old(Value()), ops[..i])
        invariant reports == Reports(host, old(Value()), ops[..i])
      {
        RunOneMore(host, old(Value()), ops, i);
        match ops[i] {
          case Reset => Reset();
          case Deliver(f) =>
            var changed := Merge(f);
            reports := reports + [changed];
        }
      }
      assert ops[..|ops|] == ops;
    }
  }

  /******* TypeScript: routed by projection key, with typed accessors *******/

  // A payload shorter than a FlatBuffers header never reaches the glue.
  function DecodeTyped<T>(glue: Bytes -> Option<T>, bytes: Bytes): Option<T>
  {
    if |bytes| < 8 then None else glue(bytes)
  }

  // Projections without a typed decoder accept any non-empty payload.
  predicate TsRowDecoder<T>(typed: map<string, Bytes -> Option<T>>, pk: string, payload: Bytes)
  {
    if pk in typed then DecodeTyped(typed[pk], payload).Some? else |payload| > 0
  }

  // The web class registers the same projections but keys its decoders by
  // projection key.
  function TsHost<T>(keys: set<string>, typed: map<string, Bytes -> Option<T>>): Host
  {
    Host(map pk | pk in keys :: pk, (pk: string, p: Bytes) => TsRowDecoder(typed, pk, p))
  }

  class TsKeyedRefCache<T> {
    const keys: set<string>
    const typed: map<string, Bytes -> Option<T>>
    const host: Host
    var rows: map<string, Table>
    var appliedSession: nat
    var appliedEpoch: nat
    var baselinedFlag: bool
    var needsResyncFlag: bool

    function Value(): Cache
      reads this
    {
      Cache(rows, appliedSession, appliedEpoch, baselinedFlag, needsResyncFlag)
    }

    // The host this class was generated for.
    ghost predicate Wired()
    {
      host == TsHost(keys, typed)
    }

    // Every cached row passed the decoder of its projection.
    ghost predicate Valid()
      reads this
    {
      Wired() && EveryRowAccepted(host, Value())
    }

    constructor (keys: set<string>, typed: map<string, Bytes -> Option<T>>)
      ensures this.keys == keys && this.typed == typed && Value() == EMPTY && Valid()
    {
      this.keys, this.typed, host := keys, typed, TsHost(keys, typed);
      rows, appliedSession, appliedEpoch, baselinedFlag, needsResyncFlag := map[], 0, 0, false, false;
    }

    method Reset()
      requires Valid()
      modifies this
      ensures Value() == Step(host, old(Value()), Op.Reset) && Valid()
    {
      rows, appliedSession, appliedEpoch, baselinedFlag, needsResyncFlag := map[], 0, 0, false, false;
    }

    // decodeFailed reports a row that did not decode, not a refused buffer.
    method Merge(f: Frame) returns (changedKeys: set<string>, decodeFailed: bool)
      requires Valid()
      modifies this
      ensures Valid()
      ensures Value() == RefRows.Merge(host, old(Value()), f)
      ensures changedKeys == Changes(host, old(Value()), f)
      ensures decodeFailed <==>
          && f.projectionKey in host.routes && Decode(f.wire).Some?
          && if Decode(f.wire).value.baseline
             then !BaselineDecodes(host.decoder, host.routes[f.projectionKey], RowsOf(f))
             else !IdentityChanged(old(Value()), f)
                  && AnySpoils(host.decoder, host.routes[f.projectionKey], TableOf(old(Value()), f.projectionKey), RowsOf(f))
    {
      StepStoresAccepted(host, Value(), Deliver(f));
      if f.projectionKey !in host.routes {
        return {}, false;
      }
      assert Keyed(f.projectionKey);
      MergeByCase(host, Value(), f);
      var batch := ReadBatch(f.wire);
      if batch.None? {
        needsResyncFlag := true;
        return {}, false;
      }
      var identityChanged := f.session != appliedSession || f.epoch != appliedEpoch;
      if batch.value.baseline {
        changedKeys, decodeFailed := ApplyBaseline(f, batch.value.rows, identityChanged);
      } else if identityChanged {
        appliedSession, appliedEpoch, baselinedFlag, needsResyncFlag := f.session, f.epoch, false, true;
        changedKeys, decodeFailed := {}, false;
      } else {
        changedKeys, decodeFailed := ApplyIncremental(f.projectionKey, batch.value.rows);
      }
    }

    // A registered projection, decoded under its own key.  The web decoder itself
    // refuses empty payloads, so a baseline needs no separate emptiness test.
    predicate Keyed(pk: string)
    {
      pk in host.routes && host.routes[pk] == pk && !host.decoder(pk, [])
    }

    method BuildScratch(pk: string, decoded: seq<Row>) returns (result: Option<Table>)
      requires Keyed(pk)
      ensures result == if BaselineDecodes(host.decoder, host.routes[pk], decoded) then Some(Scratch(decoded)) else None
    {
      ghost var decoder, ns := host.decoder, host.routes[pk];
      var scratch: Table := map[];
      for i := 0 to |decoded|
        invariant BaselineDecodes(decoder, ns, decoded[..i])
        invariant scratch == Scratch(decoded[..i])
      {
        var row := decoded[i];
        ScratchStep(decoded, i);
        if row.state.Cleared? {
          scratch := scratch - {row.key};
          continue;
        }
        if !host.decoder(pk, row.payload) {
          assert row in decoded;
          return None;
        }
        if row.key !in scratch || row.rev > scratch[row.key].rev {
          scratch := scratch[row.key := Entry(row.rev, row.payload)];
        }
      }
      assert decoded[..|decoded|] == decoded;
      return Some(scratch);
    }

    method ApplyBaseline(f: Frame, decoded: seq<Row>, identityChanged: bool)
      returns (changedKeys: set<string>, decodeFailed: bool)
      requires Keyed(f.projectionKey) && identityChanged == IdentityChanged(Value(), f)
      modifies this
      ensures decodeFailed <==> !BaselineDecodes(host.decoder, host.routes[f.projectionKey], decoded)
      ensures decodeFailed ==> Value() == old(Value()).(needsResync := true) && changedKeys == {}
      ensures !decodeFailed ==> Value() == Rebuild(old(Value()), f, Scratch(decoded))
                                && changedKeys == Diff(PriorTable(old(Value()), f), Scratch(decoded))
    {
      var scratch := BuildScratch(f.projectionKey, decoded);
      if scratch.None? {
        needsResyncFlag := true;
        return {}, true;
      }
      if identityChanged {
        rows := RetainOnly(rows, f.projectionKey);
        appliedSession, appliedEpoch, needsResyncFlag := f.session, f.epoch, false;
      }
      var prior: Table :=
        if identityChanged || f.projectionKey !in rows then map[] else rows[f.projectionKey];
      changedKeys := DiffKeys(prior, scratch.value);
      rows := rows[f.projectionKey := scratch.value];
      baselinedFlag := true;
      decodeFailed := false;
    }

    // The body of the incremental loop: one row, edited in place.
    method MergeRow(pk: string, row: Row) returns (touched: bool, failed: bool)
      requires pk in rows
      modifies this`rows, this`needsResyncFlag
      ensures rows == old(rows)[pk := ApplyRow(host.decoder, pk, old(rows)[pk], row)]
      ensures failed == Spoils(host.decoder, pk, old(rows)[pk], row)
      ensures needsResyncFlag == (old(needsResyncFlag) || failed)
      ensures touched == (Clears(old(rows)[pk], row) || Commits(host.decoder, pk, old(rows)[pk], row))
    {
      if row.state.Cleared? {
        if row.key in rows[pk] && row.rev > rows[pk][row.key].rev {
          rows := rows[pk := rows[pk] - {row.key}];
          return true, false;
        }
        return false, false;
      }
      if row.key in rows[pk] && row.rev <= rows[pk][row.key].rev {
        return false, false;
      }
      if |row.payload| == 0 || !host.decoder(pk, row.payload) {
        needsResyncFlag := true;
        return false, true;
      }
      rows := rows[pk := rows[pk][row.key := Entry(row.rev, row.payload)]];
      return true, false;
    }

    method ApplyIncremental(pk: string, decoded: seq<Row>) returns (changedKeys: set<string>, decodeFailed: bool)
      modifies this
      ensures Value() == Absorb(host.decoder, pk, old(Value()), pk, decoded)
      ensures changedKeys == TouchedKeys(host.decoder, pk, old(TableOf(Value(), pk)), decoded)
      ensures decodeFailed == AnySpoils(host.decoder, pk, old(TableOf(Value(), pk)), decoded)
    {
      ghost var before := Value();
      if pk !in rows {
        rows := rows[pk := map[]];
      }
      changedKeys, decodeFailed := {}, false;
      for i := 0 to |decoded|
        invariant Value() == Merging(host.decoder, pk, before, pk, decoded[..i])
        invariant changedKeys == TouchedKeys(host.decoder, pk, TableOf(before, pk), decoded[..i])
        invariant decodeFailed == AnySpoils(host.decoder, pk, TableOf(before, pk), decoded[..i])
      {
        MergingStep(host.decoder, pk, before, pk, decoded, i);
        RowStep(host.decoder, pk, TableOf(before, pk), decoded, i);
        var touched, failed := MergeRow(pk, decoded[i]);
        decodeFailed := decodeFailed || failed;
        if touched {
          changedKeys := changedKeys + {decoded[i].key};
        }
      }
      MergingIsAbsorb(host.decoder, pk, before, pk, decoded);
      baselinedFlag := true;
    }

    lemma CachedRowsDecode(pk: string, key: string)
      requires Valid() && pk in typed && key in TableOf(Value(), pk)
      ensures var payload := TableOf(Value(), pk)[key].payload; |payload| >= 8 && typed[pk](payload).Some?
    {
      assert Accepts(host.decoder, host.routes[pk], rows[pk][key].payload);
    }

    // The typed accessor (`profile`) succeeds on exactly the cached keys.
    method Get(pk: string, key: string) returns (wire: Option<T>)
      requires Valid() && pk in typed
      ensures wire.Some? <==> key in TableOf(Value(), pk)
      ensures wire.Some? ==> wire == typed[pk](TableOf(Value(), pk)[key].payload)
    {
      if pk !in rows || key !in rows[pk] {
        return None;
      }
      CachedRowsDecode(pk, key);
      wire := DecodeTyped(typed[pk], rows[pk][key].payload);
    }

    // The full decoded set (`profiles`) omits no cached key.
    method GetAll(pk: string) returns (out: map<string, T>)
      requires Valid() && pk in typed
      ensures out.Keys == TableOf(Value(), pk).Keys
      ensures forall k :: k in out ==> Some(out[k]) == typed[pk](TableOf(Value(), pk)[k].payload)
    {
      var ns, glue := if pk in rows then rows[pk] else map[], typed[pk];
      forall k | k in ns
        ensures |ns[k].payload| >= 8 && glue(ns[k].payload).Some?
      {
        CachedRowsDecode(pk, k);
      }
      out := map[];
      var todo := ns.Keys;
      while todo != {}
        invariant todo <= ns.Keys && out.Keys == ns.Keys - todo
        invariant forall k :: k in out ==> Some(out[k]) == glue(ns[k].payload)
        decreases |todo|
      {
        var key :| key in todo;
        var wire := DecodeTyped(glue, ns[key].payload);
        if wire.Some? {
          out := out[key := wire.value];
        }
        todo := todo - {key};
      }
    }

    // A whole run of frames and resets.
    method Feed(ops: seq<Op>) returns (reports: seq<set<string>>)
      requires Valid()
      modifies this
      ensures Valid()
      ensures Value() == Run(host, old(Value()), ops)
      ensures reports == Reports(host, old(Value()), ops)
    {
      reports := [];
      for i := 0 to |ops|
        invariant Valid()
        invariant Value() == Run(host, old(Value()), ops[..i])
        invariant reports == Reports(host, old(Value()), ops[..i])
      {
        RunOneMore(host, old(Value()), ops, i);
        match ops[i] {
          case Reset => Reset();
          case Deliver(f) =>
            var changed, failed := Merge(f);
            reports := reports + [changed];
        }
      }
      assert ops[..|ops|] == ops;
    }
  }

  /******* The twins in lockstep *******/

  // Same registered projections, and row for row the same verdict.
  ghost predicate SameVerdicts(a: Host, b: Host)
  {
    && a.routes.Keys == b.routes.Keys
    && forall pk, p :: pk in a.routes ==> Accepts(a.decoder, a.routes[pk], p) == Accepts(b.decoder, b.routes[pk], p)
  }

  lemma {:induction false} SameVerdictsSameRows(a: Host, b: Host, pk: string, t: Table, rows: seq<Row>)
    requires SameVerdicts(a, b) && pk in a.routes
    ensures ApplyRows(a.decoder, a.routes[pk], t, rows) == ApplyRows(b.decoder, b.routes[pk], t, rows)
    ensures TouchedKeys(a.decoder, a.routes[pk], t, rows) == TouchedKeys(b.decoder, b.routes[pk], t, rows)
    ensures AnySpoils(a.decoder, a.routes[pk], t, rows) == AnySpoils(b.decoder, b.routes[pk], t, rows)
  {
    if rows != [] {
      SameVerdictsSameRows(a, b, pk, t, rows[..|rows| - 1]);
      assert Accepts(a.decoder, a.routes[pk], rows[|rows| - 1].payload)
          == Accepts(b.decoder, b.routes[pk], rows[|rows| - 1].payload);
    }
  }

  lemma SameVerdictsSameBaseline(a: Host, b: Host, pk: string, rows: seq<Row>)
    requires SameVerdicts(a, b) && pk in a.routes
    ensures BaselineDecodes(a.decoder, a.routes[pk], rows) == BaselineDecodes(b.decoder, b.routes[pk], rows)
  {
    assert forall r :: r in rows ==> Accepts(a.decoder, a.routes[pk], r.payload) == Accepts(b.decoder, b.routes[pk], r.payload);
  }

  lemma SameVerdictsSameMerge(a: Host, b: Host, c: Cache, f: Frame)
    requires SameVerdicts(a, b)
    ensures Merge(a, c, f) == Merge(b, c, f) && Changes(a, c, f) == Changes(b, c, f)
  {
    var pk := f.projectionKey;
    assert pk in a.routes <==> pk in b.routes;
    if pk in a.routes {
      MergeByCase(a, c, f);
      MergeByCase(b, c, f);
      if Decode(f.wire).Some? {
        SameVerdictsSameRows(a, b, pk, TableOf(c, pk), RowsOf(f));
        SameVerdictsSameBaseline(a, b, pk, RowsOf(f));
      }
    }
  }

  lemma {:induction false} SameVerdictsSameRun(a: Host, b: Host, c: Cache, ops: seq<Op>)
    requires SameVerdicts(a, b)
    ensures Run(a, c, ops) == Run(b, c, ops) && Reports(a, c, ops) == Reports(b, c, ops)
  {
    if ops != [] {
      var init, op := ops[..|ops| - 1], ops[|ops| - 1];
      SameVerdictsSameRun(a, b, c, init);
      if op.Deliver? {
        SameVerdictsSameMerge(a, b, Run(a, c, init), op.frame);
      }
    }
  }

  // No run tells the hosts apart, by its state or by what it reports.
  ghost predicate Indistinguishable(a: Host, b: Host)
  {
    forall ops :: Run(a, EMPTY, ops) == Run(b, EMPTY, ops) && Reports(a, EMPTY, ops) == Reports(b, EMPTY, ops)
  }

  lemma RunOne(host: Host, f: Frame)
    ensures Run(host, EMPTY, [Deliver(f)]) == Merge(host, EMPTY, f)
  {
    assert [Deliver(f)][..0] == [];
  }

  // A baseline of one row, as the wire carries it.
  function OneRow(pk: string, payload: Bytes): Frame
  {
    Frame(pk, Buffer(true, [WireRow(Some("k"), 0, Some(CHANGED), payload)]), 1, 1)
  }

  lemma OneRowBatch(pk: string, payload: Bytes)
    ensures Decode(OneRow(pk, payload).wire) == Some(Batch(true, [Row("k", 0, Changed, payload)]))
  {
    var w := WireRow(Some("k"), 0, Some(CHANGED), payload);
    assert WellFormedRow(w);
    assert ReadRows([w]) == [ReadRow(w)];
  }

  lemma OneRowScratch(decoder: RowDecoder, ns: string, r: Row)
    requires r.state.Changed?
    ensures BaselineDecodes(decoder, ns, [r]) <==> Accepts(decoder, ns, r.payload)
    ensures Scratch([r]) == map[r.key := Entry(r.rev, r.payload)]
  {
    assert r in [r];
    assert [r][..0] == [] && Scratch([r]) == ScratchRow(Scratch([]), r);
  }

  // A host commits the row if it accepts it and asks for a resync otherwise.
  lemma OneRowVerdict(host: Host, pk: string, payload: Bytes)
    requires pk in host.routes
    ensures var c := Run(host, EMPTY, [Deliver(OneRow(pk, payload))]);
            if Accepts(host.decoder, host.routes[pk], payload)
            then TableOf(c, pk) == map["k" := Entry(0, payload)] && !c.needsResync
            else TableOf(c, pk) == map[] && c.needsResync
  {
    var f := OneRow(pk, payload);
    OneRowBatch(pk, payload);
    OneRowScratch(host.decoder, host.routes[pk], Row("k", 0, Changed, payload));
    RunOne(host, f);
    MergeByCase(host, EMPTY, f);
  }

  // A refused buffer tells whether a projection is registered at all.
  lemma GarbageVerdict(host: Host, pk: string)
    ensures Run(host, EMPTY, [Deliver(Frame(pk, Garbage, 1, 1))]).needsResync <==> pk in host.routes
  {
    RunOne(host, Frame(pk, Garbage, 1, 1));
  }

  lemma IndistinguishableHostsAgree(a: Host, b: Host)
    requires Indistinguishable(a, b)
    ensures SameVerdicts(a, b)
  {
    forall pk
      ensures pk in a.routes <==> pk in b.routes
    {
      GarbageVerdict(a, pk);
      GarbageVerdict(b, pk);
    }
    forall pk, p | pk in a.routes
      ensures Accepts(a.decoder, a.routes[pk], p) == Accepts(b.decoder, b.routes[pk], p)
    {
      OneRowVerdict(a, pk, p);
      OneRowVerdict(b, pk, p);
    }
  }

  // Equal verdicts are exactly what keeps two hosts together on every run.
  lemma LockstepIffSameVerdicts(a: Host, b: Host)
    ensures Indistinguishable(a, b) <==> SameVerdicts(a, b)
  {
    if SameVerdicts(a, b) {
      forall ops
        ensures Run(a, EMPTY, ops) == Run(b, EMPTY, ops) && Reports(a, EMPTY, ops) == Reports(b, EMPTY, ops)
      {
        SameVerdictsSameRun(a, b, EMPTY, ops);
      }
    }
    if Indistinguishable(a, b) {
      IndistinguishableHostsAgree(a, b);
    }
  }

  // What a generator would have to check: the same projections; where the web
  // class has a typed decoder, which sees only payloads of eight bytes and more,
  // the same verdicts; where it has none, a native
  // decoder that refuses nothing but empty payloads.
  ghost predicate WebMatches<T>(native: Host, keys: set<string>, typed: map<string, Bytes -> Option<T>>)
  {
    && native.routes.Keys == keys
    && forall pk, p :: pk in keys && p != [] ==>
         (native.decoder(native.routes[pk], p) <==> (pk in typed ==> |p| >= 8 && typed[pk](p).Some?))
  }

  lemma WebFollowsNativeIff<T>(native: Host, keys: set<string>, typed: map<string, Bytes -> Option<T>>)
    ensures Indistinguishable(native, TsHost(keys, typed)) <==> WebMatches(native, keys, typed)
  {
    var web := TsHost(keys, typed);
    LockstepIffSameVerdicts(native, web);
    assert web.routes.Keys == keys;
    forall pk, p | pk in keys
      ensures Accepts(web.decoder, web.routes[pk], p) <==> p != [] && (pk in typed ==> |p| >= 8 && typed[pk](p).Some?)
    {
      assert web.decoder(pk, p) == TsRowDecoder(typed, pk, p);
    }
    if WebMatches(native, keys, typed) {
      assert SameVerdicts(native, web);
    }
    if SameVerdicts(native, web) {
      forall pk, p | pk in keys && p != []
        ensures native.decoder(native.routes[pk], p) <==> (pk in typed ==> |p| >= 8 && typed[pk](p).Some?)
      {
        assert Accepts(native.decoder, native.routes[pk], p) == Accepts(web.decoder, web.routes[pk], p);
      }
    }
  }

  // The registry as shipped types `refs.event` on Kotlin and Swift and leaves it
  // raw on the web: one event row the native glue refuses separates them.
  lemma RawEventsSeparateTheWeb<T>(native: Host, keys: set<string>, typed: map<string, Bytes -> Option<T>>, p: Bytes)
    requires "refs.event" in native.routes && "refs.event" in keys && "refs.event" !in typed
    requires p != [] && !native.decoder(native.routes["refs.event"], p)
    ensures var web, ops := TsHost(keys, typed), [Deliver(OneRow("refs.event", p))];
            && !Indistinguishable(native, web)
            && Run(native, EMPTY, ops).needsResync && TableOf(Run(native, EMPTY, ops), "refs.event") == map[]
            && !Run(web, EMPTY, ops).needsResync && TableOf(Run(web, EMPTY, ops), "refs.event") == map["k" := Entry(0, p)]
  {
    OneRowVerdict(native, "refs.event", p);
    OneRowVerdict(TsHost(keys, typed), "refs.event", p);
  }

  // Fed the same frames and resets from the same state, the Kotlin and the Swift
  // class move together whatever their decoder, and the web class moves with them
  // when its verdicts are theirs.
  method Lockstep<T>(k: KotlinKeyedRefCache, s: SwiftKeyedRefCache, t: TsKeyedRefCache<T>, ops: seq<Op>)
    returns (byKotlin: seq<set<string>>, bySwift: seq<set<string>>, byTs: seq<set<string>>)
    requires k.host == s.host && t.Valid()
    requires k.Value() == s.Value() == t.Value()
    modifies k, s, t
    ensures k.Value() == s.Value() == Run(k.host, old(k.Value()), ops)
    ensures byKotlin == bySwift == Reports(k.host, old(k.Value()), ops)
    ensures t.Valid() && t.Value() == Run(t.host, old(t.Value()), ops) && byTs == Reports(t.host, old(t.Value()), ops)
    ensures SameVerdicts(k.host, t.host) ==> t.Value() == k.Value() && byTs == byKotlin
  {
    byKotlin := k.Feed(ops);
    bySwift := s.Feed(ops);
    byTs := t.Feed(ops);
    if SameVerdicts(k.host, t.host) {
      SameVerdictsSameRun(k.host, t.host, old(k.Value()), ops);
    }
  }
}
