// The keyed cache read off the fields of the wire: which frames are refused, what
// each row does to its slot and what is reported, said without the definitions the
// merge function is built from.
module RefRowWire {
  import opened Common
  import opened Revs
  import opened RefRows
  import opened RefRowLaws

  /******* Decoding *******/

  // A row that spoils its batch: no key, or a state other than 0, 1 or omitted.
  predicate Unreadable(w: WireRow)
  {
    w.key.None? || (w.state.Some? && w.state.value >= 2)
  }

  // A decoded row against its wire row; an omitted state means changed.
  predicate ReadsAs(w: WireRow, r: Row)
  {
    && w.key == Some(r.key) && r.rev == w.rev && r.payload == w.payload
    && (r.state.Cleared? <==> w.state == Some(1))
  }

  // A buffer is refused exactly when it is garbage or holds an unreadable row;
  // otherwise it is read row for row.
  lemma DecodeOnWire(wire: Wire)
    ensures Decode(wire).None? <==> wire.Garbage? || exists i :: 0 <= i < |wire.rows| && Unreadable(wire.rows[i])
    ensures Decode(wire).Some? ==>
        && wire.Buffer? && Decode(wire).value.baseline == wire.baseline && |Decode(wire).value.rows| == |wire.rows|
        && forall i :: 0 <= i < |wire.rows| ==> ReadsAs(wire.rows[i], Decode(wire).value.rows[i])
  {
    if wire.Buffer? {
      assert forall w :: WellFormedRow(w) <==> !Unreadable(w);
      if i :| 0 <= i < |wire.rows| && Unreadable(wire.rows[i]) {
        assert wire.rows[i] in wire.rows;
      }
    }
  }

  /******* What a frame does *******/

  // A fresh or reset cache holds nothing, under session and epoch 0, with both flags
  // down.
  lemma EmptyCacheOnFields(host: Host, c: Cache)
    ensures var e := Step(host, c, Op.Reset);
            e == EMPTY && e.rows == map[] && e.session == 0 && e.epoch == 0 && !e.baselined && !e.needsResync
  {
  }

  // A changed row with an empty or undecodable payload.
  predicate Undecodable(decoder: RowDecoder, ns: string, w: WireRow)
  {
    w.state != Some(1) && (w.payload == [] || !decoder(ns, w.payload))
  }

  ghost predicate RefusedOnWire(decoder: RowDecoder, ns: string, wire: Wire)
  {
    || wire.Garbage?
    || (exists i :: 0 <= i < |wire.rows| && Unreadable(wire.rows[i]))
    || (wire.baseline && exists i :: 0 <= i < |wire.rows| && Undecodable(decoder, ns, wire.rows[i]))
  }

  lemma BaselineDecodesOnWire(decoder: RowDecoder, ns: string, wire: Wire)
    requires Decode(wire).Some?
    ensures BaselineDecodes(decoder, ns, Decode(wire).value.rows)
       <==> !exists i :: 0 <= i < |wire.rows| && Undecodable(decoder, ns, wire.rows[i])
  {
    DecodeOnWire(wire);
    var rows := Decode(wire).value.rows;
    forall i | 0 <= i < |rows|
      ensures Undecodable(decoder, ns, wire.rows[i]) <==> rows[i].state.Changed? && !Accepts(decoder, ns, rows[i].payload)
    {
      assert ReadsAs(wire.rows[i], rows[i]);
    }
    if i :| 0 <= i < |rows| && Undecodable(decoder, ns, wire.rows[i]) {
      assert rows[i] in rows;
    }
  }

  // Every frame: ignored when its projection is not registered, refused when it
  // cannot be read or a baseline row does not decode; a baseline rebuilds; a delta
  // under another session or epoch is adopted, one under the applied ones merged.
  lemma EffectOnWire(host: Host, c: Cache, f: Frame)
    ensures var effect := EffectOf(host, c, f);
            if f.projectionKey !in host.routes then effect.Ignored?
            else if RefusedOnWire(host.decoder, host.routes[f.projectionKey], f.wire) then effect.Refused?
            else if f.wire.baseline then effect.Rebuilds?
            else if f.session == c.session && f.epoch == c.epoch then effect.Merges?
            else effect.Adopts?
  {
    DecodeOnWire(f.wire);
    if Decode(f.wire).Some? && f.projectionKey in host.routes {
      BaselineDecodesOnWire(host.decoder, host.routes[f.projectionKey], f.wire);
    }
  }

  // A row without a state field is a change: in a baseline on an empty cache it is
  // what is cached afterwards.
  lemma OmittedStateCommits(host: Host, f: Frame, w: WireRow)
    requires f.projectionKey in host.routes && f.wire == Buffer(true, [w])
    requires w.key.Some? && w.state.None? && w.payload != [] && host.decoder(host.routes[f.projectionKey], w.payload)
    ensures TableOf(Merge(host, EMPTY, f), f.projectionKey) == map[w.key.value := Entry(w.rev, w.payload)]
    ensures !Merge(host, EMPTY, f).needsResync
  {
    EffectOnWire(host, EMPTY, f);
    DecodeOnWire(f.wire);
    var r := RowsOf(f)[0];
    assert ReadsAs(w, r) && RowsOf(f) == [r];
    assert [r][..0] == [] && Scratch([r]) == ScratchRow(Scratch([]), r);
  }

  // A row with state 1 is a clear: in a delta it removes an older entry.
  lemma StateOneClears(host: Host, c: Cache, f: Frame, w: WireRow, key: string)
    requires f.projectionKey in host.routes && f.wire == Buffer(false, [w]) && f.session == c.session && f.epoch == c.epoch
    requires w.key == Some(key) && w.state == Some(1)
    requires key in TableOf(c, f.projectionKey) && w.rev > TableOf(c, f.projectionKey)[key].rev
    ensures TableOf(Merge(host, c, f), f.projectionKey) == TableOf(c, f.projectionKey) - {key}
    ensures Merge(host, c, f).needsResync == c.needsResync
  {
    EffectOnWire(host, c, f);
    DecodeOnWire(f.wire);
    var r := RowsOf(f)[0];
    assert ReadsAs(w, r) && RowsOf(f) == [r];
    assert [r][..0] == [];
    var t, ns := TableOf(c, f.projectionKey), host.routes[f.projectionKey];
    assert ApplyRows(host.decoder, ns, t, []) == t;
    assert ApplyRows(host.decoder, ns, t, [r]) == ApplyRow(host.decoder, ns, t, r);
    assert AnySpoils(host.decoder, ns, t, [r]) == (AnySpoils(host.decoder, ns, t, []) || Spoils(host.decoder, ns, t, r));
  }

  /******* What a delta reports and when it spoils *******/

  // Row i moved its slot.
  ghost predicate MovedAt(decoder: RowDecoder, ns: string, t: Table, rows: seq<Row>, i: nat, key: string)
  {
    && i < |rows|
    && Lookup(ApplyRows(decoder, ns, t, rows[..i]), key) != Lookup(ApplyRows(decoder, ns, t, rows[..i + 1]), key)
  }

  // A key is reported exactly when some row of the delta moved its slot.
  lemma {:induction false} ReportedIffMoved(decoder: RowDecoder, ns: string, t: Table, rows: seq<Row>, key: string)
    ensures key in TouchedKeys(decoder, ns, t, rows) <==> exists i :: 0 <= i < |rows| && MovedAt(decoder, ns, t, rows, i, key)
  {
    if rows != [] {
      var n := |rows| - 1;
      var init := rows[..n];
      ReportedIffMoved(decoder, ns, t, init, key);
      LastRowMoves(decoder, ns, t, rows, key);
      forall i | 0 <= i < n
        ensures MovedAt(decoder, ns, t, init, i, key) <==> MovedAt(decoder, ns, t, rows, i, key)
      {
        MovedInPrefix(decoder, ns, t, rows, i, key);
      }
    }
  }

  lemma MovedInPrefix(decoder: RowDecoder, ns: string, t: Table, rows: seq<Row>, i: nat, key: string)
    requires i < |rows| - 1
    ensures MovedAt(decoder, ns, t, rows[..|rows| - 1], i, key) <==> MovedAt(decoder, ns, t, rows, i, key)
  {
    var init := rows[..|rows| - 1];
    assert init[..i] == rows[..i] && init[..i + 1] == rows[..i + 1];
  }

  lemma LastRowMoves(decoder: RowDecoder, ns: string, t: Table, rows: seq<Row>, key: string)
    requires rows != []
    ensures var n, before := |rows| - 1, ApplyRows(decoder, ns, t, rows[..|rows| - 1]);
            MovedAt(decoder, ns, t, rows, n, key)
            <==> rows[n].key == key && (Clears(before, rows[n]) || Commits(decoder, ns, before, rows[n]))
  {
    assert rows[..|rows|] == rows;
  }

  // A changed row newer than its slot whose payload is empty or does not decode.
  predicate SpoilsSlot(decoder: RowDecoder, ns: string, slot: Option<Entry>, r: Row)
  {
    r.state.Changed? && (slot.Some? ==> r.rev > slot.value.rev) && (r.payload == [] || !decoder(ns, r.payload))
  }

  ghost predicate SpoilsAt(decoder: RowDecoder, ns: string, t: Table, rows: seq<Row>, i: nat)
  {
    && i < |rows|
    && SpoilsSlot(decoder, ns, Lookup(ApplyRows(decoder, ns, t, rows[..i]), rows[i].key), rows[i])
  }

  // A delta asks for a resync exactly when some row spoils the slot it meets.
  lemma {:induction false} SpoilsIffRowSpoils(decoder: RowDecoder, ns: string, t: Table, rows: seq<Row>)
    ensures AnySpoils(decoder, ns, t, rows) <==> exists i :: 0 <= i < |rows| && SpoilsAt(decoder, ns, t, rows, i)
  {
    if rows != [] {
      var n := |rows| - 1;
      var init := rows[..n];
      SpoilsIffRowSpoils(decoder, ns, t, init);
      LastRowSpoils(decoder, ns, t, rows);
      forall i | 0 <= i < n
        ensures SpoilsAt(decoder, ns, t, init, i) <==> SpoilsAt(decoder, ns, t, rows, i)
      {
        assert init[..i] == rows[..i];
      }
    }
  }

  lemma LastRowSpoils(decoder: RowDecoder, ns: string, t: Table, rows: seq<Row>)
    requires rows != []
    ensures var n := |rows| - 1;
            SpoilsAt(decoder, ns, t, rows, n) <==> Spoils(decoder, ns, ApplyRows(decoder, ns, t, rows[..n]), rows[n])
  {
  }

  /******* What a row does to its slot *******/

  // The slot after a row for its key: a clear empties an older one, a change with a
  // decodable payload replaces an older or empty one, anything else leaves it.
  lemma RowOnSlot(decoder: RowDecoder, ns: string, t: Table, r: Row, key: string)
    ensures var slot, after := Lookup(t, key), Lookup(ApplyRow(decoder, ns, t, r), key);
            if r.key != key then after == slot
            else if r.state.Cleared? then after == if slot.Some? && slot.value.rev < r.rev then None else slot
            else after == if (slot.None? || slot.value.rev < r.rev) && r.payload != [] && decoder(ns, r.payload)
                          then Some(Entry(r.rev, r.payload)) else slot
  {
  }

  // In every reachable state every cached payload is non-empty and decodes.
  lemma CachedPayloadsDecode(host: Host, ops: seq<Op>, pk: string, key: string)
    ensures var t := TableOf(Run(host, EMPTY, ops), pk);
            key in t ==> pk in host.routes && t[key].payload != [] && host.decoder(host.routes[pk], t[key].payload)
  {
    RunsStoreAccepted(host, ops);
    var t := TableOf(Run(host, EMPTY, ops), pk);
    if key in t {
      assert Accepts(host.decoder, host.routes[pk], t[key].payload);
    }
  }

  /******* What a baseline leaves *******/

  // Row i changes the key and no later row clears it.
  ghost predicate Stands(rows: seq<Row>, i: nat, key: string)
  {
    && i < |rows|
    && rows[i].key == key && rows[i].state.Changed?
    && forall j :: i < j < |rows| ==> !(rows[j].key == key && rows[j].state.Cleared?)
  }

  lemma StandsStep(rows: seq<Row>, i: nat, key: string)
    requires i < |rows| - 1
    ensures var n := |rows| - 1;
            Stands(rows, i, key) <==> Stands(rows[..n], i, key) && !(rows[n].key == key && rows[n].state.Cleared?)
  {
    var n, init := |rows| - 1, rows[..|rows| - 1];
    if Stands(init, i, key) && !(rows[n].key == key && rows[n].state.Cleared?) {
      forall j | i < j < |rows|
        ensures !(rows[j].key == key && rows[j].state.Cleared?)
      {
        assert j < n ==> init[j] == rows[j];
      }
    }
    if Stands(rows, i, key) {
      forall j | i < j < n
        ensures !(init[j].key == key && init[j].state.Cleared?)
      {
        assert init[j] == rows[j];
      }
    }
  }

  // A baseline caches a key exactly when a change of it stands, and then with the
  // first of the standing changes that have the greatest rev.
  ghost predicate GreatestStanding(rows: seq<Row>, key: string, i: nat)
  {
    && i < |rows|
    && Stands(rows, i, key)
    && forall j :: 0 <= j < |rows| && Stands(rows, j, key) ==> rows[j].rev < rows[i].rev || (rows[j].rev == rows[i].rev && i <= j)
  }

  lemma {:induction false} BaselineKeepsGreatestStanding(rows: seq<Row>, key: string)
    ensures key !in Scratch(rows) ==> forall i :: 0 <= i < |rows| ==> !Stands(rows, i, key)
    ensures key in Scratch(rows) ==> exists i :: 0 <= i < |rows| && GreatestStanding(rows, key, i)
                                                 && Scratch(rows)[key] == Entry(rows[i].rev, rows[i].payload)
  {
    if rows != [] {
      var n, init, r := |rows| - 1, rows[..|rows| - 1], rows[|rows| - 1];
      BaselineKeepsGreatestStanding(init, key);
      forall i | 0 <= i < n
        ensures Stands(rows, i, key) <==> Stands(init, i, key) && !(r.key == key && r.state.Cleared?)
      {
        StandsStep(rows, i, key);
      }
      var t := Scratch(init);
      if key in Scratch(rows) {
        if r.key == key && r.state.Changed? && (key in t ==> r.rev > t[key].rev) {
          assert GreatestStanding(rows, key, n);
        } else {
          var i :| 0 <= i < n && GreatestStanding(init, key, i) && t[key] == Entry(init[i].rev, init[i].payload);
          assert GreatestStanding(rows, key, i);
        }
      }
    }
  }

  /******* baselined is a latch *******/

  // A frame that merged or rebuilt, and what takes it back.
  function BaselineMark(host: Host, c: Cache, op: Op): (bool, bool)
  {
    (op.Deliver? && (EffectOf(host, c, op.frame).Rebuilds? || EffectOf(host, c, op.frame).Merges?),
     op.Reset? || EffectOf(host, c, op.frame).Adopts?)
  }

  function BaselineMarks(host: Host, c: Cache, ops: seq<Op>): seq<(bool, bool)>
  {
    if ops == [] then []
    else
      var init := ops[..|ops| - 1];
      BaselineMarks(host, c, init) + [BaselineMark(host, Run(host, c, init), ops[|ops| - 1])]
  }

  // The cache counts as baselined exactly when some frame was merged or rebuilt and
  // neither a reset nor an adopted identity came later.
  lemma {:induction false} BaselinedIsALatch(host: Host, c: Cache, ops: seq<Op>)
    ensures Run(host, c, ops).baselined <==> StillRaised(c.baselined, BaselineMarks(host, c, ops))
  {
    if ops != [] {
      var init, op := ops[..|ops| - 1], ops[|ops| - 1];
      BaselinedIsALatch(host, c, init);
      var before := Run(host, c, init);
      assert Step(host, before, op).baselined
          == (!BaselineMark(host, before, op).1 && (before.baselined || BaselineMark(host, before, op).0));
      StillRaisedStep(c.baselined, BaselineMarks(host, c, init), BaselineMark(host, before, op));
    }
  }
}
