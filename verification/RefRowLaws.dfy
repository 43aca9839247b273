// Laws of the keyed reference cache over batches, redelivery, reordering and
// whole runs.
module RefRowLaws {
  import opened Common
  import opened Revs
  import opened RefRows

  /******* One merge *******/

  // What the batch turns out to be decides the effect.
  lemma EffectByCase(host: Host, c: Cache, f: Frame)
    requires f.projectionKey in host.routes
    ensures var batch, effect := Decode(f.wire), EffectOf(host, c, f);
            if batch.None? then effect.Refused?
            else if batch.value.baseline then
              effect == if BaselineDecodes(host.decoder, host.routes[f.projectionKey], batch.value.rows) then Rebuilds else Refused
            else effect == if IdentityChanged(c, f) then Adopts else Merges
  {
  }

  // Merge, spelled out by what the batch turns out to be.
  lemma MergeByCase(host: Host, c: Cache, f: Frame)
    requires f.projectionKey in host.routes
    ensures var ns, batch := host.routes[f.projectionKey], Decode(f.wire);
            var c', changed := Merge(host, c, f), Changes(host, c, f);
            if batch.None? then c' == c.(needsResync := true) && changed == {}
            else if batch.value.baseline then
              if BaselineDecodes(host.decoder, ns, batch.value.rows)
              then c' == Rebuild(c, f, Scratch(batch.value.rows))
                   && changed == Diff(PriorTable(c, f), Scratch(batch.value.rows))
              else c' == c.(needsResync := true) && changed == {}
            else if IdentityChanged(c, f)
            then c' == c.(session := f.session, epoch := f.epoch, baselined := false, needsResync := true) && changed == {}
            else c' == Absorb(host.decoder, ns, c, f.projectionKey, batch.value.rows)
                 && changed == TouchedKeys(host.decoder, ns, TableOf(c, f.projectionKey), batch.value.rows)
  {
    EffectByCase(host, c, f);
  }

  /******* Row-level normal form *******/

  // An absent slot ranks below every rev.
  function Rank(slot: Option<Entry>): int
  {
    if slot.None? then -1 else slot.value.rev
  }

  // What a batch does to one slot: slots ranked at or above the limit survive,
  // all others end in the same fixed slot.
  datatype Gate = Gate(limit: int, below: Option<Entry>)
  {
    function Pass(slot: Option<Entry>): Option<Entry>
    {
      if Rank(slot) >= limit then slot else below
    }
  }

  function RowGate(decoder: RowDecoder, ns: string, key: string, r: Row): Gate
  {
    if r.key == key && r.state.Cleared? then Gate(r.rev, None)
    else if r.key == key && Accepts(decoder, ns, r.payload) then Gate(r.rev, Some(Entry(r.rev, r.payload)))
    else Gate(-1, None)
  }

  function BatchGate(decoder: RowDecoder, ns: string, key: string, rows: seq<Row>): (g: Gate)
    ensures Rank(g.below) <= g.limit
  {
    if rows == [] then Gate(-1, None)
    else
      var first := BatchGate(decoder, ns, key, rows[..|rows| - 1]);
      var next := RowGate(decoder, ns, key, rows[|rows| - 1]);
      if next.limit > first.limit then next else Gate(first.limit, next.Pass(first.below))
  }

  // Every batch, whatever it mixes, acts on every slot of every table as one
  // gate that does not depend on the table.
  lemma RowIsGate(decoder: RowDecoder, ns: string, t: Table, r: Row, key: string)
    ensures Lookup(ApplyRow(decoder, ns, t, r), key) == RowGate(decoder, ns, key, r).Pass(Lookup(t, key))
  {
  }

  lemma {:induction false} BatchIsGate(decoder: RowDecoder, ns: string, t: Table, rows: seq<Row>, key: string)
    ensures Lookup(ApplyRows(decoder, ns, t, rows), key)
         == BatchGate(decoder, ns, key, rows).Pass(Lookup(t, key))
  {
    if rows != [] {
      var init, r := rows[..|rows| - 1], rows[|rows| - 1];
      BatchIsGate(decoder, ns, t, init, key);
      RowIsGate(decoder, ns, ApplyRows(decoder, ns, t, init), r, key);
    }
  }

  lemma RedeliveredRowsChangeNothing(decoder: RowDecoder, ns: string, t: Table, rows: seq<Row>)
    ensures ApplyRows(decoder, ns, ApplyRows(decoder, ns, t, rows), rows) == ApplyRows(decoder, ns, t, rows)
  {
    var once := ApplyRows(decoder, ns, t, rows);
    var twice := ApplyRows(decoder, ns, once, rows);
    forall key
      ensures Lookup(twice, key) == Lookup(once, key)
    {
      BatchIsGate(decoder, ns, t, rows, key);
      BatchIsGate(decoder, ns, once, rows, key);
    }
    TablesEqual(twice, once);
  }

  lemma MergedFrameAgain(host: Host, c: Cache, f: Frame)
    requires EffectOf(host, c, f).Merges?
    ensures Merge(host, Merge(host, c, f), f).rows == Merge(host, c, f).rows
  {
    var pk, once, rows := f.projectionKey, Merge(host, c, f), RowsOf(f);
    RedeliveredRowsChangeNothing(host.decoder, host.routes[pk], TableOf(c, pk), rows);
    assert once == Absorb(host.decoder, host.routes[pk], c, pk, rows);
    EffectByCase(host, c, f);
    EffectByCase(host, once, f);
  }

  lemma RebuildTwice(c: Cache, f: Frame, t: Table)
    ensures Rebuild(Rebuild(c, f, t), f, t).rows == Rebuild(c, f, t).rows
  {
  }

  lemma RebuiltFrameAgain(host: Host, c: Cache, f: Frame)
    requires EffectOf(host, c, f).Rebuilds?
    ensures Merge(host, Merge(host, c, f), f).rows == Merge(host, c, f).rows
  {
    assert EffectOf(host, Merge(host, c, f), f).Rebuilds?;
    RebuildTwice(c, f, Scratch(RowsOf(f)));
  }

  // A delta under a new identity is adopted first and merged when it comes again.
  lemma AdoptedFrameAgain(host: Host, c: Cache, f: Frame)
    requires EffectOf(host, c, f).Adopts?
    ensures var once, pk := Merge(host, c, f), f.projectionKey;
            && once.rows == c.rows
            && Merge(host, once, f).rows == c.rows[pk := ApplyRows(host.decoder, host.routes[pk], TableOf(c, pk), RowsOf(f))]
  {
    var once := Merge(host, c, f);
    assert EffectOf(host, once, f).Merges? && TableOf(once, f.projectionKey) == TableOf(c, f.projectionKey);
  }

  // Frame level: everything but a delta under a new identity can be delivered
  // twice in a row without moving a row; such a delta is merged by its second
  // delivery, the first one having adopted its identity.
  lemma RedeliveredFrameChangesNoRow(host: Host, c: Cache, f: Frame)
    ensures var once, pk := Merge(host, c, f), f.projectionKey;
            if EffectOf(host, c, f).Adopts? then
              once.rows == c.rows
              && Merge(host, once, f).rows == c.rows[pk := ApplyRows(host.decoder, host.routes[pk], TableOf(c, pk), RowsOf(f))]
            else Merge(host, once, f).rows == once.rows
  {
    match EffectOf(host, c, f)
    case Merges => MergedFrameAgain(host, c, f);
    case Rebuilds => RebuiltFrameAgain(host, c, f);
    case Adopts => AdoptedFrameAgain(host, c, f);
    case _ => assert EffectOf(host, Merge(host, c, f), f) == EffectOf(host, c, f);
  }

  // The excluded case is real: the first delivery only adopts the identity, the
  // second then merges the rows.
  lemma AdoptedDeltaMergesWhenRedelivered()
    ensures var host := Host(map["refs.profile" := "profile"], (ns, p) => true);
            var f := Frame("refs.profile", Buffer(false, [WireRow(Some("k"), 1, Some(CHANGED), [7])]), 1, 1);
            var once := Merge(host, EMPTY, f);
            EffectOf(host, EMPTY, f).Adopts? && Merge(host, once, f).rows != once.rows
  {
    var host := Host(map["refs.profile" := "profile"], (ns, p) => true);
    var w := WireRow(Some("k"), 1, Some(CHANGED), [7]);
    var f := Frame("refs.profile", Buffer(false, [w]), 1, 1);
    var once := Merge(host, EMPTY, f);
    assert WellFormedRow(w);
    assert Decode(f.wire) == Some(Batch(false, ReadRows([w])));
    assert RowsOf(f)[0] == ReadRow(w);
    assert once.rows == map[];
    assert "refs.profile" in Merge(host, once, f).rows;
  }

  /******* Reordering clear-free rows *******/

  lemma {:induction false} RowsConcatenate(decoder: RowDecoder, ns: string, t: Table, a: seq<Row>, b: seq<Row>)
    ensures ApplyRows(decoder, ns, t, a + b) == ApplyRows(decoder, ns, ApplyRows(decoder, ns, t, a), b)
  {
    if b == [] {
      assert a + b == a;
    } else {
      var init := b[..|b| - 1];
      RowsConcatenate(decoder, ns, t, a, init);
      AppendLast(a, b);
    }
  }

  // The rows that can ever be committed.
  ghost function Live(decoder: RowDecoder, ns: string, rows: seq<Row>): set<Row>
  {
    set r | r in rows && r.state.Changed? && Accepts(decoder, ns, r.payload)
  }

  ghost predicate ClearFree(rows: seq<Row>)
  {
    forall r :: r in rows ==> r.state.Changed?
  }

  // Key and rev determine the payload, across the rows and the starting table.
  ghost predicate Coherent(start: Table, live: set<Row>)
  {
    && (forall r, r' :: r in live && r' in live && r.key == r'.key && r.rev == r'.rev ==> r.payload == r'.payload)
    && (forall r :: r in live && r.key in start && r.rev == start[r.key].rev ==> r.payload == start[r.key].payload)
  }

  // t holds, per key, the greatest rev among the starting entry and the rows.
  ghost predicate GreatestRevs(start: Table, live: set<Row>, t: Table)
  {
    && (forall k :: k in t ==>
          (k in start && t[k] == start[k]) || Row(k, t[k].rev, Changed, t[k].payload) in live)
    && (forall k :: k in start ==> k in t && start[k].rev <= t[k].rev)
    && (forall r :: r in live ==> r.key in t && r.rev <= t[r.key].rev)
  }

  lemma LiveStep(decoder: RowDecoder, ns: string, rows: seq<Row>)
    requires rows != [] && ClearFree(rows)
    ensures var init, r := rows[..|rows| - 1], rows[|rows| - 1];
            && ClearFree(init) && r.state.Changed?
            && Live(decoder, ns, rows) == Live(decoder, ns, init) + (if Accepts(decoder, ns, r.payload) then {r} else {})
  {
    assert rows == rows[..|rows| - 1] + [rows[|rows| - 1]];
  }

  // One more row that decodes.
  lemma GreatestRevsStep(start: Table, live: set<Row>, t: Table, r: Row)
    requires GreatestRevs(start, live, t) && r.state.Changed?
    ensures GreatestRevs(start, live + {r}, if Newer(t, r) then t[r.key := Entry(r.rev, r.payload)] else t)
  {
  }

  lemma {:induction false} ClearFreeKeepsGreatestRevs(decoder: RowDecoder, ns: string, start: Table, rows: seq<Row>)
    requires ClearFree(rows)
    ensures GreatestRevs(start, Live(decoder, ns, rows), ApplyRows(decoder, ns, start, rows))
  {
    if rows != [] {
      var init, r := rows[..|rows| - 1], rows[|rows| - 1];
      LiveStep(decoder, ns, rows);
      ClearFreeKeepsGreatestRevs(decoder, ns, start, init);
      if Accepts(decoder, ns, r.payload) {
        GreatestRevsStep(start, Live(decoder, ns, init), ApplyRows(decoder, ns, start, init), r);
      }
    }
  }

  lemma GreatestRevsAreUnique(start: Table, live: set<Row>, a: Table, b: Table)
    requires Coherent(start, live)
    requires GreatestRevs(start, live, a) && GreatestRevs(start, live, b)
    ensures a == b
  {
    forall k
      ensures Lookup(a, k) == Lookup(b, k)
    {
      if k in a && k !in start {
        assert Row(k, a[k].rev, Changed, a[k].payload) in live;
      }
      if k in b && k !in start {
        assert Row(k, b[k].rev, Changed, b[k].payload) in live;
      }
      if k in a && k in b {
        var ra, rb := Row(k, a[k].rev, Changed, a[k].payload), Row(k, b[k].rev, Changed, b[k].payload);
        assert ra in live ==> a[k].rev <= b[k].rev;
        assert rb in live ==> b[k].rev <= a[k].rev;
      }
    }
    TablesEqual(a, b);
  }

  // A frame that merges rows at the current identity.
  predicate Steady(host: Host, c: Cache, op: Op)
  {
    && op.Deliver?
    && op.frame.projectionKey in host.routes
    && Decode(op.frame.wire).Some?
    && !Decode(op.frame.wire).value.baseline
    && !IdentityChanged(c, op.frame)
  }

  // The rows a steady run carries for one projection, in delivery order.
  function RowsFor(host: Host, projectionKey: string, c: Cache, ops: seq<Op>): seq<Row>
    requires forall op :: op in ops ==> Steady(host, c, op)
  {
    if ops == [] then []
    else
      assert Steady(host, c, ops[|ops| - 1]);
      var last := ops[|ops| - 1].frame;
      RowsFor(host, projectionKey, c, ops[..|ops| - 1])
      + (if last.projectionKey == projectionKey then RowsOf(last) else [])
  }

  // One steady frame, seen from one projection.
  lemma SteadyStep(host: Host, c: Cache, before: Cache, op: Op, pk: string)
    requires pk in host.routes && Steady(host, c, op) && before.session == c.session && before.epoch == c.epoch
    ensures var after, f := Step(host, before, op), op.frame;
            && after.session == c.session && after.epoch == c.epoch
            && TableOf(after, pk) == if f.projectionKey != pk then TableOf(before, pk)
                                     else ApplyRows(host.decoder, host.routes[pk], TableOf(before, pk), RowsOf(f))
  {
    assert EffectOf(host, before, op.frame).Merges?;
  }

  lemma {:induction false} SteadyRunAppliesItsRows(
    host: Host, c: Cache, ops: seq<Op>, pk: string)
    requires forall op :: op in ops ==> Steady(host, c, op)
    requires pk in host.routes
    ensures var end := Run(host, c, ops);
            && end.session == c.session && end.epoch == c.epoch
            && TableOf(end, pk) == ApplyRows(host.decoder, host.routes[pk], TableOf(c, pk), RowsFor(host, pk, c, ops))
  {
    if ops != [] {
      var init, last := ops[..|ops| - 1], ops[|ops| - 1];
      assert Steady(host, c, last);
      SteadyRunAppliesItsRows(host, c, init, pk);
      SteadyStep(host, c, Run(host, c, init), last, pk);
      if last.frame.projectionKey == pk {
        RowsConcatenate(host.decoder, host.routes[pk], TableOf(c, pk), RowsFor(host, pk, c, init), RowsOf(last.frame));
      } else {
        assert RowsFor(host, pk, c, ops) == RowsFor(host, pk, c, init);
      }
    }
  }

  // Any two steady runs that carry the same decodable rows for a projection,
  // however ordered, batched, duplicated or interleaved with other projections,
  // leave the same rows cached.
  lemma ClearFreeRunsConverge(host: Host, c: Cache, a: seq<Op>, b: seq<Op>, pk: string)
    requires forall op :: op in a || op in b ==> Steady(host, c, op)
    requires pk in host.routes
    requires ClearFree(RowsFor(host, pk, c, a)) && ClearFree(RowsFor(host, pk, c, b))
    requires Live(host.decoder, host.routes[pk], RowsFor(host, pk, c, a)) == Live(host.decoder, host.routes[pk], RowsFor(host, pk, c, b))
    requires Coherent(TableOf(c, pk), Live(host.decoder, host.routes[pk], RowsFor(host, pk, c, a)))
    ensures TableOf(Run(host, c, a), pk) == TableOf(Run(host, c, b), pk)
    ensures GreatestRevs(TableOf(c, pk), Live(host.decoder, host.routes[pk], RowsFor(host, pk, c, a)), TableOf(Run(host, c, a), pk))
  {
    SteadyRunAppliesItsRows(host, c, a, pk);
    SteadyRunAppliesItsRows(host, c, b, pk);
    ClearFreeKeepsGreatestRevs(host.decoder, host.routes[pk], TableOf(c, pk), RowsFor(host, pk, c, a));
    ClearFreeKeepsGreatestRevs(host.decoder, host.routes[pk], TableOf(c, pk), RowsFor(host, pk, c, b));
    GreatestRevsAreUnique(TableOf(c, pk), Live(host.decoder, host.routes[pk], RowsFor(host, pk, c, a)),
                          TableOf(Run(host, c, a), pk), TableOf(Run(host, c, b), pk));
  }

  /******* Reordering rows, clears included *******/

  predicate Effective(decoder: RowDecoder, ns: string, r: Row)
  {
    r.state.Cleared? || Accepts(decoder, ns, r.payload)
  }

  // Two rows for one key whose order shows: clears leave no tombstone, so a
  // row older than a clear comes back when it arrives after it; and of two
  // payloads at one rev the first to arrive stays.
  predicate Conflicts(decoder: RowDecoder, ns: string, r: Row, s: Row)
  {
    && r.key == s.key && Effective(decoder, ns, r) && Effective(decoder, ns, s)
    && match (r.state, s.state)
       case (Changed, Changed) => r.rev == s.rev && r.payload != s.payload
       case (Changed, Cleared) => r.rev < s.rev
       case (Cleared, Changed) => s.rev < r.rev
       case (Cleared, Cleared) => false
  }

  ghost predicate Commute(decoder: RowDecoder, ns: string, r: Row, s: Row)
  {
    forall t :: ApplyRow(decoder, ns, ApplyRow(decoder, ns, t, r), s)
             == ApplyRow(decoder, ns, ApplyRow(decoder, ns, t, s), r)
  }

  lemma PeacefulRowsCommute(decoder: RowDecoder, ns: string, t: Table, r: Row, s: Row)
    requires !Conflicts(decoder, ns, r, s)
    ensures ApplyRow(decoder, ns, ApplyRow(decoder, ns, t, r), s)
         == ApplyRow(decoder, ns, ApplyRow(decoder, ns, t, s), r)
  {
    var tr, ts := ApplyRow(decoder, ns, t, r), ApplyRow(decoder, ns, t, s);
    forall key
      ensures Lookup(ApplyRow(decoder, ns, tr, s), key) == Lookup(ApplyRow(decoder, ns, ts, r), key)
    {
      RowIsGate(decoder, ns, t, r, key);
      RowIsGate(decoder, ns, t, s, key);
      RowIsGate(decoder, ns, tr, s, key);
      RowIsGate(decoder, ns, ts, r, key);
    }
    TablesEqual(ApplyRow(decoder, ns, tr, s), ApplyRow(decoder, ns, ts, r));
  }

  // Conflict is exactly what makes the order of two rows matter.
  lemma RowsCommuteIffPeaceful(decoder: RowDecoder, ns: string, r: Row, s: Row)
    ensures Commute(decoder, ns, r, s) <==> !Conflicts(decoder, ns, r, s)
  {
    if Conflicts(decoder, ns, r, s) {
      var t: Table := map[];
      assert ApplyRow(decoder, ns, ApplyRow(decoder, ns, t, r), s)
          != ApplyRow(decoder, ns, ApplyRow(decoder, ns, t, s), r);
    } else {
      forall t
        ensures ApplyRow(decoder, ns, ApplyRow(decoder, ns, t, r), s)
             == ApplyRow(decoder, ns, ApplyRow(decoder, ns, t, s), r)
      {
        PeacefulRowsCommute(decoder, ns, t, r, s);
      }
    }
  }

  lemma {:induction false} MoveRowLast(decoder: RowDecoder, ns: string, t: Table, r: Row, rows: seq<Row>)
    requires forall s :: s in rows ==> !Conflicts(decoder, ns, r, s)
    ensures ApplyRows(decoder, ns, t, [r] + rows) == ApplyRow(decoder, ns, ApplyRows(decoder, ns, t, rows), r)
  {
    if rows == [] {
      assert [r] + rows == [r];
      assert ApplyRows(decoder, ns, t, [r][..0]) == t;
    } else {
      var init, s := rows[..|rows| - 1], rows[|rows| - 1];
      assert s in rows;
      assert ([r] + rows)[..|rows|] == [r] + init;
      MoveRowLast(decoder, ns, t, r, init);
      PeacefulRowsCommute(decoder, ns, ApplyRows(decoder, ns, t, init), r, s);
    }
  }

  lemma RemoveAt(rows: seq<Row>, i: nat)
    requires i < |rows|
    ensures multiset(rows) == multiset(rows[..i] + rows[i + 1..]) + multiset{rows[i]}
  {
    Around(rows, i);
  }

  // Where the last row of a sits in a reordering of a.
  lemma FindLast(a: seq<Row>, b: seq<Row>) returns (i: nat)
    requires a != [] && multiset(a) == multiset(b)
    ensures i < |b| && b[i] == a[|a| - 1]
    ensures multiset(a[..|a| - 1]) == multiset(b[..i] + b[i + 1..])
  {
    var last := |a| - 1;
    assert a[last] in multiset(b);
    i :| 0 <= i < |b| && b[i] == a[last];
    RemoveAt(b, i);
    RemoveAt(a, last);
    assert a[..last] + a[last + 1..] == a[..last];
    assert multiset(a[..last]) == multiset(a) - multiset{a[last]};
    assert multiset(b[..i] + b[i + 1..]) == multiset(b) - multiset{a[last]};
  }

  ghost predicate Peaceful(decoder: RowDecoder, ns: string, rows: multiset<Row>)
  {
    forall r, s :: r in rows && s in rows ==> !Conflicts(decoder, ns, r, s)
  }

  // Taking a row out of its place and putting it last changes nothing.
  lemma PutLast(decoder: RowDecoder, ns: string, t: Table, before: seq<Row>, r: Row, after: seq<Row>)
    requires forall s :: s in after ==> !Conflicts(decoder, ns, r, s)
    ensures ApplyRows(decoder, ns, t, before + ([r] + after))
         == ApplyRow(decoder, ns, ApplyRows(decoder, ns, t, before + after), r)
  {
    RowsConcatenate(decoder, ns, t, before, [r] + after);
    RowsConcatenate(decoder, ns, t, before, after);
    MoveRowLast(decoder, ns, ApplyRows(decoder, ns, t, before), r, after);
  }

  lemma PeacefulAfter(decoder: RowDecoder, ns: string, b: seq<Row>, i: nat, s: Row)
    requires i < |b| && Peaceful(decoder, ns, multiset(b)) && s in b[i + 1..]
    ensures !Conflicts(decoder, ns, b[i], s)
  {
    assert b[i] in multiset(b) && s in multiset(b);
  }

  // The same for a row of a conflict-free sequence.
  lemma PutLastOf(decoder: RowDecoder, ns: string, t: Table, b: seq<Row>, i: nat)
    requires i < |b| && Peaceful(decoder, ns, multiset(b))
    ensures ApplyRows(decoder, ns, t, b) == ApplyRow(decoder, ns, ApplyRows(decoder, ns, t, b[..i] + b[i + 1..]), b[i])
  {
    var before, r, after := b[..i], b[i], b[i + 1..];
    forall s | s in after
      ensures !Conflicts(decoder, ns, r, s)
    {
      PeacefulAfter(decoder, ns, b, i, s);
    }
    Around(b, i);
    PutLast(decoder, ns, t, before, r, after);
  }

  // Rows without a conflict among them may arrive in any order.
  lemma {:induction false} ReorderedRowsAgree(decoder: RowDecoder, ns: string, t: Table, a: seq<Row>, b: seq<Row>)
    requires multiset(a) == multiset(b) && Peaceful(decoder, ns, multiset(a))
    ensures ApplyRows(decoder, ns, t, a) == ApplyRows(decoder, ns, t, b)
    decreases |a|
  {
    if a == [] {
      assert |multiset(b)| == 0;
    } else {
      var i := FindLast(a, b);
      PutLastOf(decoder, ns, t, b, i);
      RemoveAt(b, i);
      ReorderedRowsAgree(decoder, ns, t, a[..|a| - 1], b[..i] + b[i + 1..]);
    }
  }

  /******* needsResync is a latch *******/

  predicate Raises(host: Host, c: Cache, op: Op)
  {
    op.Deliver? &&
    var f := op.frame;
    match EffectOf(host, c, f)
    case Refused => true
    case Adopts => true
    case Merges => AnySpoils(host.decoder, host.routes[f.projectionKey], TableOf(c, f.projectionKey), RowsOf(f))
    case _ => false
  }

  // Only a hard reset, or a fully decodable baseline under a new identity.
  predicate Heals(host: Host, c: Cache, op: Op)
  {
    op.Reset? || (EffectOf(host, c, op.frame).Rebuilds? && IdentityChanged(c, op.frame))
  }

  lemma FlagAfterStep(host: Host, c: Cache, op: Op)
    ensures Step(host, c, op).needsResync
         == (!Heals(host, c, op) && (c.needsResync || Raises(host, c, op)))
    ensures Heals(host, c, op) ==> !Raises(host, c, op)
  {
  }

  // Whether an op raises the flag and whether it heals it.
  function Mark(host: Host, c: Cache, op: Op): (bool, bool)
  {
    (Raises(host, c, op), Heals(host, c, op))
  }

  // The marks of a run, each judged in the state the run is in when it meets
  // that op.
  function Marks(host: Host, c: Cache, ops: seq<Op>): (marks: seq<(bool, bool)>)
    ensures |marks| == |ops|
  {
    if ops == [] then []
    else
      var init := ops[..|ops| - 1];
      Marks(host, c, init) + [Mark(host, Run(host, c, init), ops[|ops| - 1])]
  }

  lemma {:induction false} MarkAt(host: Host, c: Cache, ops: seq<Op>, i: nat)
    requires i < |ops|
    ensures Marks(host, c, ops)[i] == Mark(host, Run(host, c, ops[..i]), ops[i])
  {
    if i < |ops| - 1 {
      MarkAt(host, c, ops[..|ops| - 1], i);
      assert ops[..|ops| - 1][..i] == ops[..i];
    }
  }

  ghost predicate NoHealFrom(marks: seq<(bool, bool)>, from: nat)
  {
    forall j :: from <= j < |marks| ==> !marks[j].1
  }

  // Something raised the flag, or it started raised, and nothing healed since.
  ghost predicate StillRaised(start: bool, marks: seq<(bool, bool)>)
  {
    (start && NoHealFrom(marks, 0)) || exists i :: 0 <= i < |marks| && marks[i].0 && NoHealFrom(marks, i)
  }

  lemma StillRaisedStep(start: bool, marks: seq<(bool, bool)>, mark: (bool, bool))
    requires mark.1 ==> !mark.0
    ensures StillRaised(start, marks + [mark]) <==> !mark.1 && (StillRaised(start, marks) || mark.0)
  {
    var all, n := marks + [mark], |marks|;
    assert all[n] == mark && forall j :: 0 <= j < n ==> all[j] == marks[j];
    forall i | 0 <= i <= n
      ensures NoHealFrom(all, i) <==> NoHealFrom(marks, i) && !mark.1
    {
      if NoHealFrom(all, i) {
        assert forall j :: i <= j < n ==> !all[j].1;
      }
    }
    if i :| 0 <= i < n && marks[i].0 && NoHealFrom(marks, i) {
      assert all[i].0;
    }
    if !mark.1 {
      assert NoHealFrom(all, n);
    }
  }

  // The flag is up exactly when something raised it (or it started up) and
  // neither a reset nor a healing baseline came later.
  lemma {:induction false} ResyncFlagIsALatch(host: Host, c: Cache, ops: seq<Op>)
    ensures Run(host, c, ops).needsResync <==> StillRaised(c.needsResync, Marks(host, c, ops))
  {
    if ops != [] {
      var init, op := ops[..|ops| - 1], ops[|ops| - 1];
      var before := Run(host, c, init);
      ResyncFlagIsALatch(host, c, init);
      FlagAfterStep(host, before, op);
      StillRaisedStep(c.needsResync, Marks(host, c, init), Mark(host, before, op));
    }
  }

  // Fail closed: what cannot be decoded in full moves no row and no identity.
  lemma UndecodableFramesOnlyRaise(host: Host, c: Cache, f: Frame)
    requires f.projectionKey in host.routes
    requires Decode(f.wire).None?
          || (Decode(f.wire).value.baseline
              && exists r :: r in RowsOf(f) && r.state.Changed?
                   && !Accepts(host.decoder, host.routes[f.projectionKey], r.payload))
    ensures Merge(host, c, f) == c.(needsResync := true) && Changes(host, c, f) == {}
  {
  }

  /******* Provenance *******/

  // The (session, epoch) of the batch that committed each cached row.
  type Stamps = map<string, (nat, nat)>

  function StampRows(decoder: RowDecoder, ns: string, t: Table, stamps: Stamps, rows: seq<Row>, id: (nat, nat)): Stamps
  {
    if rows == [] then stamps
    else
      var before := ApplyRows(decoder, ns, t, rows[..|rows| - 1]);
      var earlier := StampRows(decoder, ns, t, stamps, rows[..|rows| - 1], id);
      var r := rows[|rows| - 1];
      if Clears(before, r) then earlier - {r.key}
      else if Commits(decoder, ns, before, r) then earlier[r.key := id]
      else earlier
  }

  function StampsOf(stamps: map<string, Stamps>, pk: string): Stamps
  {
    if pk in stamps then stamps[pk] else map[]
  }

  function StampStep(host: Host, c: Cache, stamps: map<string, Stamps>, op: Op): map<string, Stamps>
  {
    if op.Reset? then map[]
    else
      var f := op.frame;
      var pk := f.projectionKey;
      match EffectOf(host, c, f)
      case Rebuilds =>
        (if IdentityChanged(c, f) then map[] else stamps)[pk := map k | k in Scratch(RowsOf(f)) :: (f.session, f.epoch)]
      case Merges =>
        stamps[pk := StampRows(host.decoder, host.routes[pk], TableOf(c, pk), StampsOf(stamps, pk), RowsOf(f), (f.session, f.epoch))]
      case _ => stamps
  }

  function StampRun(host: Host, ops: seq<Op>): map<string, Stamps>
  {
    if ops == [] then map[]
    else
      var init := ops[..|ops| - 1];
      StampStep(host, Run(host, EMPTY, init), StampRun(host, init), ops[|ops| - 1])
  }

  lemma {:induction false} StampsFollowRows(
    decoder: RowDecoder, ns: string, t: Table, stamps: Stamps, rows: seq<Row>, id: (nat, nat))
    requires stamps.Keys == t.Keys
    ensures var after := StampRows(decoder, ns, t, stamps, rows, id);
            && after.Keys == ApplyRows(decoder, ns, t, rows).Keys
            && forall k :: k in after && after[k] != id ==> k in stamps && after[k] == stamps[k]
  {
    if rows != [] {
      StampsFollowRows(decoder, ns, t, stamps, rows[..|rows| - 1], id);
    }
  }

  // Every cached row carries a stamp.
  ghost predicate Stamped(rows: map<string, Table>, stamps: map<string, Stamps>)
  {
    stamps.Keys == rows.Keys && forall pk :: pk in rows ==> stamps[pk].Keys == rows[pk].Keys
  }

  ghost predicate AllAre(stamps: Stamps, id: (nat, nat))
  {
    forall k :: k in stamps ==> stamps[k] == id
  }

  // Every stamp is the given identity.
  ghost predicate Current(stamps: map<string, Stamps>, id: (nat, nat))
  {
    forall pk :: pk in stamps ==> AllAre(stamps[pk], id)
  }

  lemma PutKeepsStamped(rows: map<string, Table>, stamps: map<string, Stamps>, pk: string, t: Table, new_: Stamps)
    requires Stamped(rows, stamps) && new_.Keys == t.Keys
    ensures Stamped(rows[pk := t], stamps[pk := new_])
  {
  }

  lemma PutKeepsCurrent(stamps: map<string, Stamps>, pk: string, new_: Stamps, id: (nat, nat))
    requires Current(stamps, id) && AllAre(new_, id)
    ensures Current(stamps[pk := new_], id)
  {
  }

  lemma StampsOfProjection(rows: map<string, Table>, stamps: map<string, Stamps>, pk: string, id: (nat, nat))
    requires Stamped(rows, stamps)
    ensures StampsOf(stamps, pk).Keys == (if pk in rows then rows[pk] else map[]).Keys
    ensures Current(stamps, id) ==> AllAre(StampsOf(stamps, pk), id)
  {
  }

  // What a merged frame does to the rows and to the stamps of its projection.
  lemma MergePuts(host: Host, c: Cache, stamps: map<string, Stamps>, f: Frame, t: Table, new_: Stamps)
    requires EffectOf(host, c, f).Merges?
    requires t == ApplyRows(host.decoder, host.routes[f.projectionKey], TableOf(c, f.projectionKey), RowsOf(f))
    requires new_ == StampRows(host.decoder, host.routes[f.projectionKey], TableOf(c, f.projectionKey),
                               StampsOf(stamps, f.projectionKey), RowsOf(f), (c.session, c.epoch))
    ensures Merge(host, c, f).rows == c.rows[f.projectionKey := t]
    ensures StampStep(host, c, stamps, Deliver(f)) == stamps[f.projectionKey := new_]
  {
  }

  lemma MergeKeepsProvenance(host: Host, c: Cache, stamps: map<string, Stamps>, f: Frame)
    requires EffectOf(host, c, f).Merges? && Stamped(c.rows, stamps)
    ensures Stamped(Merge(host, c, f).rows, StampStep(host, c, stamps, Deliver(f)))
    ensures Current(stamps, (c.session, c.epoch)) ==> Current(StampStep(host, c, stamps, Deliver(f)), (c.session, c.epoch))
  {
    var pk, ns, id, rows := f.projectionKey, host.routes[f.projectionKey], (c.session, c.epoch), RowsOf(f);
    var before, known := TableOf(c, pk), StampsOf(stamps, pk);
    StampsOfProjection(c.rows, stamps, pk, id);
    StampsFollowRows(host.decoder, ns, before, known, rows, id);
    var t := ApplyRows(host.decoder, ns, before, rows);
    var new_ := StampRows(host.decoder, ns, before, known, rows, id);
    MergePuts(host, c, stamps, f, t, new_);
    PutKeepsStamped(c.rows, stamps, pk, t, new_);
    if Current(stamps, id) {
      assert AllAre(new_, id);
      PutKeepsCurrent(stamps, pk, new_, id);
    }
  }

  lemma RebuildKeepsProvenance(host: Host, c: Cache, stamps: map<string, Stamps>, f: Frame)
    requires EffectOf(host, c, f).Rebuilds? && Stamped(c.rows, stamps)
    ensures Stamped(Merge(host, c, f).rows, StampStep(host, c, stamps, Deliver(f)))
    ensures Current(stamps, (f.session, f.epoch)) || IdentityChanged(c, f)
        ==> Current(StampStep(host, c, stamps, Deliver(f)), (f.session, f.epoch))
  {
    var t, id := Scratch(RowsOf(f)), (f.session, f.epoch);
    var fresh_ := map k | k in t :: id;
    var base := if IdentityChanged(c, f) then map[] else stamps;
    PutKeepsStamped(if IdentityChanged(c, f) then map[] else c.rows, base, f.projectionKey, t, fresh_);
    if Current(base, id) {
      PutKeepsCurrent(base, f.projectionKey, fresh_, id);
    }
  }

  lemma StepKeepsProvenance(host: Host, c: Cache, stamps: map<string, Stamps>, op: Op)
    requires Stamped(c.rows, stamps) && (!c.needsResync ==> Current(stamps, (c.session, c.epoch)))
    ensures var after, after' := Step(host, c, op), StampStep(host, c, stamps, op);
            Stamped(after.rows, after') && (!after.needsResync ==> Current(after', (after.session, after.epoch)))
  {
    if op.Deliver? {
      if EffectOf(host, c, op.frame).Merges? {
        MergeKeepsProvenance(host, c, stamps, op.frame);
      } else if EffectOf(host, c, op.frame).Rebuilds? {
        RebuildKeepsProvenance(host, c, stamps, op.frame);
      }
    }
  }

  // Unless a resync is pending, every cached row of every projection was
  // committed by a batch of the applied session and epoch.
  lemma {:induction false} CachedRowsAreCurrent(host: Host, ops: seq<Op>)
    ensures var c, stamps := Run(host, EMPTY, ops), StampRun(host, ops);
            && Stamped(c.rows, stamps)
            && (!c.needsResync ==> Current(stamps, (c.session, c.epoch)))
  {
    if ops != [] {
      var init := ops[..|ops| - 1];
      CachedRowsAreCurrent(host, init);
      StepKeepsProvenance(host, Run(host, EMPTY, init), StampRun(host, init), ops[|ops| - 1]);
    }
  }

  /******* Stored rows decode *******/

  ghost predicate AllAccepted(decoder: RowDecoder, ns: string, t: Table)
  {
    forall k :: k in t ==> Accepts(decoder, ns, t[k].payload)
  }

  lemma {:induction false} ApplyRowsStoresAccepted(decoder: RowDecoder, ns: string, t: Table, rows: seq<Row>)
    requires AllAccepted(decoder, ns, t)
    ensures AllAccepted(decoder, ns, ApplyRows(decoder, ns, t, rows))
  {
    if rows != [] {
      ApplyRowsStoresAccepted(decoder, ns, t, rows[..|rows| - 1]);
    }
  }

  lemma {:induction false} ScratchStoresAccepted(decoder: RowDecoder, ns: string, rows: seq<Row>)
    requires BaselineDecodes(decoder, ns, rows)
    ensures AllAccepted(decoder, ns, Scratch(rows))
  {
    if rows != [] {
      ScratchStoresAccepted(decoder, ns, rows[..|rows| - 1]);
      assert rows[|rows| - 1] in rows;
    }
  }

  ghost predicate EveryRowAccepted(host: Host, c: Cache)
  {
    forall pk :: pk in c.rows ==>
      pk in host.routes && AllAccepted(host.decoder, host.routes[pk], c.rows[pk])
  }

  lemma StepStoresAccepted(host: Host, c: Cache, op: Op)
    requires EveryRowAccepted(host, c)
    ensures EveryRowAccepted(host, Step(host, c, op))
  {
    if op.Deliver? && op.frame.projectionKey in host.routes {
      MergeByCase(host, c, op.frame);
      var f, effect := op.frame, EffectOf(host, c, op.frame);
      if effect.Merges? {
        assert AllAccepted(host.decoder, host.routes[f.projectionKey], TableOf(c, f.projectionKey));
        ApplyRowsStoresAccepted(host.decoder, host.routes[f.projectionKey], TableOf(c, f.projectionKey), RowsOf(f));
      } else if effect.Rebuilds? {
        ScratchStoresAccepted(host.decoder, host.routes[f.projectionKey], RowsOf(f));
      }
    }
  }

  lemma {:induction false} RunsStoreAccepted(host: Host, ops: seq<Op>)
    ensures EveryRowAccepted(host, Run(host, EMPTY, ops))
  {
    if ops != [] {
      RunsStoreAccepted(host, ops[..|ops| - 1]);
      StepStoresAccepted(host, Run(host, EMPTY, ops[..|ops| - 1]), ops[|ops| - 1]);
    }
  }

  /******* The reported change set *******/

  function PayloadAt(c: Cache, projectionKey: string, key: string): Option<Bytes>
  {
    var t := TableOf(c, projectionKey);
    if key in t then Some(t[key].payload) else None
  }

  lemma {:induction false} UntouchedKeysKeepTheirEntry(decoder: RowDecoder, ns: string, t: Table, rows: seq<Row>, key: string)
    requires key !in TouchedKeys(decoder, ns, t, rows)
    ensures Lookup(ApplyRows(decoder, ns, t, rows), key) == Lookup(t, key)
  {
    if rows != [] {
      UntouchedKeysKeepTheirEntry(decoder, ns, t, rows[..|rows| - 1], key);
    }
  }

  // A frame that drops the old world: a decodable baseline under a new identity.
  predicate Restarts(host: Host, c: Cache, f: Frame)
  {
    EffectOf(host, c, f).Rebuilds? && IdentityChanged(c, f)
  }

  lemma UnreportedByMerge(host: Host, c: Cache, f: Frame, pk: string, key: string)
    requires EffectOf(host, c, f).Merges? && (pk != f.projectionKey || key !in Changes(host, c, f))
    ensures PayloadAt(Merge(host, c, f), pk, key) == PayloadAt(c, pk, key)
  {
    if pk == f.projectionKey {
      UntouchedKeysKeepTheirEntry(host.decoder, host.routes[pk], TableOf(c, pk), RowsOf(f), key);
    }
  }

  lemma UnreportedByRebuild(host: Host, c: Cache, f: Frame, pk: string, key: string)
    requires EffectOf(host, c, f).Rebuilds? && (pk != f.projectionKey || key !in Changes(host, c, f))
    ensures PayloadAt(Merge(host, c, f), pk, key) == if IdentityChanged(c, f) then None else PayloadAt(c, pk, key)
  {
  }

  // A slot outside the reported set keeps its payload, except that a restart
  // empties every slot that was filled.
  lemma UnreportedSlots(host: Host, c: Cache, f: Frame, pk: string, key: string)
    requires pk != f.projectionKey || key !in Changes(host, c, f)
    ensures PayloadAt(Merge(host, c, f), pk, key) == PayloadAt(c, pk, key)
        <==> !Restarts(host, c, f) || key !in TableOf(c, pk)
  {
    if EffectOf(host, c, f).Merges? {
      UnreportedByMerge(host, c, f, pk, key);
    } else if EffectOf(host, c, f).Rebuilds? {
      UnreportedByRebuild(host, c, f, pk, key);
    }
  }

  // A baseline at the applied identity reports exactly the slots that moved.
  lemma BaselineReportsWhatMoved(host: Host, c: Cache, f: Frame, key: string)
    requires EffectOf(host, c, f).Rebuilds? && !IdentityChanged(c, f)
    ensures key in Changes(host, c, f)
        <==> PayloadAt(Merge(host, c, f), f.projectionKey, key) != PayloadAt(c, f.projectionKey, key)
  {
    MergeByCase(host, c, f);
  }
}
