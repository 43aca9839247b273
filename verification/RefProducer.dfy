// The keyed cache as a replica: over every in-order run of a well-behaved
// producer the cached rows are the producer's rows.
module RefProducer {
  import opened Common
  import opened Revs
  import opened RefRows

  // The producer's own bookkeeping.  `counters` holds, per projection and key, the
  // last rev handed out, also for keys cleared since; `live` holds the
  // projections given a baseline under the current identity.
  datatype Producer = Producer(
    session: nat,
    epoch: nat,
    tables: map<string, Table>,
    counters: map<string, map<string, nat>>,
    live: set<string>)

  datatype Emission =
    | Bump(session: nat, epoch: nat)
    | Baseline(pk: string, wire: Wire, table: Table, counters: map<string, nat>)
    | Delta(pk: string, wire: Wire)

  /******* What the producer may send *******/

  ghost predicate Decodable(host: Host, pk: string, rows: seq<Row>)
  {
    pk in host.routes && BaselineDecodes(host.decoder, host.routes[pk], rows)
  }

  ghost predicate Legal(host: Host, p: Producer, e: Emission)
  {
    match e
    case Bump(_, _) => true
    case Baseline(pk, wire, table, counters) =>
      && Decode(wire).Some? && Decode(wire).value.baseline
      && Decodable(host, pk, Decode(wire).value.rows)
      && Lists(Changed, Decode(wire).value.rows, table) && Bounded(table, counters)
    case Delta(pk, wire) =>
      && pk in p.live && pk in p.counters && pk in p.tables
      && Decode(wire).Some? && !Decode(wire).value.baseline
      && Decodable(host, pk, Decode(wire).value.rows)
      && Rising(p.counters[pk], Decode(wire).value.rows)
  }

  ghost function After(host: Host, p: Producer, e: Emission): Producer
  {
    if !Legal(host, p, e) then p else
    match e
    case Bump(s, e) => p.(session := s, epoch := e, live := {})
    case Baseline(pk, _, table, counters) =>
      p.(tables := p.tables[pk := table], counters := p.counters[pk := counters], live := p.live + {pk})
    case Delta(pk, wire) =>
      var rows := Decode(wire).value.rows;
      p.(tables := p.tables[pk := Replay(Cleared, p.tables[pk], rows)],
      counters := p.counters[pk := CountersAfter(p.counters[pk], rows)])
  }

  ghost function Receive(host: Host, p: Producer, c: Cache, e: Emission): Cache
  {
    if e.Bump? then c else Merge(host, c, Frame(e.pk, e.wire, p.session, p.epoch))
  }

  /******* Batches *******/

  lemma {:induction false} RisingRowsReplay(
    decoder: RowDecoder, ns: string, t: Table, counters: map<string, nat>, rows: seq<Row>)
    requires Bounded(t, counters) && Rising(counters, rows) && BaselineDecodes(decoder, ns, rows)
    ensures ApplyRows(decoder, ns, t, rows) == Replay(Cleared, t, rows)
    ensures Bounded(Replay(Cleared, t, rows), CountersAfter(counters, rows))
    ensures !AnySpoils(decoder, ns, t, rows)
  {
    if rows != [] {
      var init, r := rows[..|rows| - 1], rows[|rows| - 1];
      assert r in rows;
      RisingRowsReplay(decoder, ns, t, counters, init);
      var before := Replay(Cleared, t, init);
      assert r.key in before ==> r.rev > before[r.key].rev;
      if r.state.Cleared? && r.key !in before {
        assert before - {r.key} == before;
      }
    }
  }

  lemma {:induction false} ScratchOfListing(rows: seq<Row>, t: Table)
    requires forall r :: r in rows ==> Listed(Changed, t, r)
    ensures Covered(rows, t, Scratch(rows))
  {
    if rows != [] {
      var init, r := rows[..|rows| - 1], rows[|rows| - 1];
      assert Listed(Changed, t, r);
      ScratchOfListing(init, t);
      assert Scratch(rows) == Scratch(init)[r.key := t[r.key]];
      CoverOneMore(rows, t, Scratch(init));
    }
  }

  lemma ListingRebuildsTable(rows: seq<Row>, t: Table)
    requires Lists(Changed, rows, t)
    ensures Scratch(rows) == t
  {
    ScratchOfListing(rows, t);
    ListingCoversAll(Changed, rows, t, Scratch(rows));
  }

  /******* Runs *******/

  // One projection's cached rows are the producer's.
  ghost predicate InStep(tables: map<string, Table>, counters: map<string, map<string, nat>>, rows: map<string, Table>, pk: string)
  {
    && pk in tables && pk in counters && Bounded(tables[pk], counters[pk])
    && pk in rows && rows[pk] == tables[pk]
  }

  ghost predicate Mirrors(p: Producer, c: Cache)
  {
    && !c.needsResync
    && (p.live != {} ==> c.session == p.session && c.epoch == p.epoch && c.baselined)
    && forall pk :: pk in p.live ==> InStep(p.tables, p.counters, c.rows, pk)
  }

  // Both sides put the same table for one projection.
  lemma PutInStep(
    tables: map<string, Table>, counters: map<string, map<string, nat>>, rows: map<string, Table>,
    pk: string, t: Table, n: map<string, nat>, q: string)
    requires Bounded(t, n) && (q != pk ==> InStep(tables, counters, rows, q))
    ensures InStep(tables[pk := t], counters[pk := n], rows[pk := t], q)
  {
  }

  lemma BaselineMirrors(host: Host, p: Producer, c: Cache, e: Emission)
    requires e.Baseline? && Legal(host, p, e) && Mirrors(p, c)
    ensures Mirrors(After(host, p, e), Receive(host, p, c, e))
  {
    var f := Frame(e.pk, e.wire, p.session, p.epoch);
    ListingRebuildsTable(RowsOf(f), e.table);
    assert EffectOf(host, c, f).Rebuilds?;
    var base := if IdentityChanged(c, f) then map[] else c.rows;
    assert Receive(host, p, c, e).rows == base[e.pk := e.table];
    forall pk | pk in p.live + {e.pk}
      ensures InStep(p.tables[e.pk := e.table], p.counters[e.pk := e.counters], base[e.pk := e.table], pk)
    {
      assert pk != e.pk ==> InStep(p.tables, p.counters, base, pk);
      PutInStep(p.tables, p.counters, base, e.pk, e.table, e.counters, pk);
    }
  }

  lemma DeltaMerges(host: Host, p: Producer, c: Cache, e: Emission)
    requires e.Delta? && Legal(host, p, e) && Mirrors(p, c)
    ensures EffectOf(host, c, Frame(e.pk, e.wire, p.session, p.epoch)).Merges?
    ensures c.baselined && TableOf(c, e.pk) == p.tables[e.pk] && Bounded(p.tables[e.pk], p.counters[e.pk])
  {
    assert InStep(p.tables, p.counters, c.rows, e.pk);
  }

  lemma AbsorbReplays(decoder: RowDecoder, ns: string, c: Cache, pk: string, counters: map<string, nat>, rows: seq<Row>)
    requires c.baselined && Bounded(TableOf(c, pk), counters) && Rising(counters, rows) && BaselineDecodes(decoder, ns, rows)
    ensures Absorb(decoder, ns, c, pk, rows) == c.(rows := c.rows[pk := Replay(Cleared, TableOf(c, pk), rows)])
    ensures Bounded(Replay(Cleared, TableOf(c, pk), rows), CountersAfter(counters, rows))
  {
    RisingRowsReplay(decoder, ns, TableOf(c, pk), counters, rows);
  }

  // A legal delta is merged as the plain replay of its rows.
  lemma DeltaReplays(host: Host, p: Producer, c: Cache, e: Emission)
    requires e.Delta? && Legal(host, p, e) && Mirrors(p, c)
    ensures var t, rows, n := p.tables[e.pk], Decode(e.wire).value.rows, p.counters[e.pk];
            && Receive(host, p, c, e) == c.(rows := c.rows[e.pk := Replay(Cleared, t, rows)])
            && Bounded(Replay(Cleared, t, rows), CountersAfter(n, rows))
  {
    DeltaMerges(host, p, c, e);
    AbsorbReplays(host.decoder, host.routes[e.pk], c, e.pk, p.counters[e.pk], Decode(e.wire).value.rows);
  }

  lemma DeltaMirrors(host: Host, p: Producer, c: Cache, e: Emission)
    requires e.Delta? && Legal(host, p, e) && Mirrors(p, c)
    ensures Mirrors(After(host, p, e), Receive(host, p, c, e))
  {
    DeltaReplays(host, p, c, e);
    var rows := Decode(e.wire).value.rows;
    var t, n := Replay(Cleared, p.tables[e.pk], rows), CountersAfter(p.counters[e.pk], rows);
    forall pk | pk in p.live
      ensures InStep(p.tables[e.pk := t], p.counters[e.pk := n], c.rows[e.pk := t], pk)
    {
      PutInStep(p.tables, p.counters, c.rows, e.pk, t, n, pk);
    }
  }

  ghost predicate LegalRun(host: Host, p: Producer, es: seq<Emission>)
  {
    es != [] ==>
      LegalRun(host, p, es[..|es| - 1])
      && Legal(host, ProducerAfter(host, p, es[..|es| - 1]), es[|es| - 1])
  }

  ghost function ProducerAfter(host: Host, p: Producer, es: seq<Emission>): Producer
  {
    if es == [] then p else After(host, ProducerAfter(host, p, es[..|es| - 1]), es[|es| - 1])
  }

  ghost function CacheAfter(host: Host, p: Producer, es: seq<Emission>): Cache
  {
    if es == [] then EMPTY
    else
      var init := es[..|es| - 1];
      Receive(host, ProducerAfter(host, p, init), CacheAfter(host, p, init), es[|es| - 1])
  }

  // Starting from any producer and an empty cache, after every legal run each
  // projection announced under the current identity is cached row for row, no
  // row is missing or left over, and no resync is ever asked for.
  lemma {:induction false} CacheMirrorsProducer(host: Host, p: Producer, es: seq<Emission>)
    requires p.live == {} && LegalRun(host, p, es)
    ensures Mirrors(ProducerAfter(host, p, es), CacheAfter(host, p, es))
  {
    if es != [] {
      var init, e := es[..|es| - 1], es[|es| - 1];
      CacheMirrorsProducer(host, p, init);
      var p', c' := ProducerAfter(host, p, init), CacheAfter(host, p, init);
      match e {
        case Bump(_, _) =>
        case Baseline(_, _, _, _) => BaselineMirrors(host, p', c', e);
        case Delta(_, _) => DeltaMirrors(host, p', c', e);
      }
    }
  }
}
