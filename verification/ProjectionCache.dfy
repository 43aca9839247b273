// The whole-value projection cache: one rev-guarded entry per projection key.
module ProjectionCache {
  import opened Common
  import opened Revs

  datatype Body = Body(schemaId: string, schemaVersion: nat, fileIdentifier: string, bytes: Bytes)

  type Envelope = RevRow<byte, Body>

  type Entry = RevEntry<Body>

  type Table = RevTable<Body>

  // The typed decode-before-commit probe.
  type Probe = (string, Bytes) -> bool

  predicate DecodeSucceeds(probe: Probe, e: Envelope)
  {
    e.payload.bytes != [] && probe(e.key, e.payload.bytes)
  }

  /******* Rows *******/

  predicate Spoils(probe: Probe, t: Table, e: Envelope)
  {
    e.state == CHANGED && Newer(t, e) && !DecodeSucceeds(probe, e)
  }

  predicate Commits(probe: Probe, t: Table, e: Envelope)
  {
    e.state == CHANGED && Newer(t, e) && DecodeSucceeds(probe, e)
  }

  // A clear removes whatever its rev; an unknown state is skipped.
  function ApplyRow(probe: Probe, t: Table, e: Envelope): Table
  {
    if e.state == CLEARED then t - {e.key}
    else if Commits(probe, t, e) then t[e.key := Entry(e.rev, e.payload)]
    else t
  }

  function ApplyRows(probe: Probe, t: Table, es: seq<Envelope>): Table
  {
    if es == [] then t else ApplyRow(probe, ApplyRows(probe, t, es[..|es| - 1]), es[|es| - 1])
  }

  predicate AnySpoils(probe: Probe, t: Table, es: seq<Envelope>)
  {
    es != [] && (AnySpoils(probe, t, es[..|es| - 1]) || Spoils(probe, ApplyRows(probe, t, es[..|es| - 1]), es[|es| - 1]))
  }

  function TouchedKeys(probe: Probe, t: Table, es: seq<Envelope>): set<string>
  {
    if es == [] then {}
    else
      var e := es[|es| - 1];
      TouchedKeys(probe, t, es[..|es| - 1])
      + (if e.state == CLEARED || Commits(probe, ApplyRows(probe, t, es[..|es| - 1]), e) then {e.key} else {})
  }

  /******* The cache *******/

  datatype Cache = Cache(table: Table, session: nat, epoch: nat, baselined: bool, needsResync: bool)

  const EMPTY: Cache := Cache(map[], 0, 0, false, false)

  datatype Frame = Frame(envelopes: seq<Envelope>, session: nat, epoch: nat)

  // A new identity starts from an empty cache.
  function Rebase(c: Cache, f: Frame): Cache
  {
    if f.session != c.session || f.epoch != c.epoch then Cache(map[], f.session, f.epoch, false, false) else c
  }

  // The rows merged into a cache that has their identity.
  function Absorb(probe: Probe, c: Cache, es: seq<Envelope>): Cache
  {
    c.(table := ApplyRows(probe, c.table, es), needsResync := c.needsResync || AnySpoils(probe, c.table, es))
  }

  function MergeFrame(probe: Probe, c: Cache, f: Frame): Cache
  {
    if f.session == 0 then c else Absorb(probe, Rebase(c, f), f.envelopes).(baselined := true)
  }

  function Run(probe: Probe, frames: seq<Frame>): Cache
  {
    if frames == [] then EMPTY else MergeFrame(probe, Run(probe, frames[..|frames| - 1]), frames[|frames| - 1])
  }

  // The keys a frame reports as changed.
  function Reported(probe: Probe, c: Cache, f: Frame): set<string>
  {
    if f.session == 0 then set e | e in f.envelopes :: e.key
    else TouchedKeys(probe, Rebase(c, f).table, f.envelopes)
  }

  function Reports(probe: Probe, frames: seq<Frame>): seq<set<string>>
  {
    if frames == [] then []
    else
      var init := frames[..|frames| - 1];
      Reports(probe, init) + [Reported(probe, Run(probe, init), frames[|frames| - 1])]
  }

  // The envelopes a table stands for.
  ghost function EnvelopesOf(t: Table): (es: set<Envelope>)
    ensures forall e :: e in es <==> e.key in t && e.rev == t[e.key].rev && e.payload == t[e.key].payload && e.state == 0
  {
    set k | k in t :: Row(k, t[k].rev, CHANGED, t[k].payload)
  }

  // What one more row adds to what the first i rows did.
  lemma AbsorbStep(probe: Probe, c: Cache, es: seq<Envelope>, i: nat)
    requires i < |es|
    ensures var before := Absorb(probe, c, es[..i]);
            && Absorb(probe, c, es[..i + 1])
               == before.(table := ApplyRow(probe, before.table, es[i]),
                  needsResync := before.needsResync || Spoils(probe, before.table, es[i]))
            && TouchedKeys(probe, c.table, es[..i + 1]) == TouchedKeys(probe, c.table, es[..i])
               + (if es[i].state == CLEARED || Commits(probe, before.table, es[i]) then {es[i].key} else {})
  {
    assert es[..i + 1][..i] == es[..i] && es[..i + 1][i] == es[i];
  }

  class ProjectionMergeCache {
    const probe: Probe
    var cache: Table
    var appliedSession: nat
    var appliedEpoch: nat
    var baselined: bool
    var needsResync: bool

    function Value(): Cache
      reads this
    {
      Cache(cache, appliedSession, appliedEpoch, baselined, needsResync)
    }

    constructor (probe: Probe)
      ensures this.probe == probe && Value() == EMPTY
    {
      this.probe := probe;
      cache, appliedSession, appliedEpoch, baselined, needsResync := map[], 0, 0, false, false;
    }

    method Reset()
      modifies this
      ensures Value() == EMPTY
    {
      cache, appliedSession, appliedEpoch, baselined, needsResync := map[], 0, 0, false, false;
    }

    // The body of the row loop.
    method MergeRow(e: Envelope) returns (touched: bool)
      modifies this`cache, this`needsResync
      ensures cache == ApplyRow(probe, old(cache), e)
      ensures needsResync == (old(needsResync) || Spoils(probe, old(cache), e))
      ensures touched == (e.state == CLEARED || Commits(probe, old(cache), e))
    {
      if e.state == CLEARED {
        cache := cache - {e.key};
        return true;
      }
      if e.state == CHANGED {
        if e.key in cache && e.rev <= cache[e.key].rev {
          return false;
        }
        if e.payload.bytes != [] && probe(e.key, e.payload.bytes) {
          cache := cache[e.key := Entry(e.rev, e.payload)];
          return true;
        }
        needsResync := true;
      }
      return false;
    }

    method Rebuild() returns (merged: seq<Envelope>)
      ensures |merged| == |cache| && (set e | e in merged) == EnvelopesOf(cache)
    {
      merged := [];
      var todo := cache.Keys;
      while todo != {}
        invariant todo <= cache.Keys && |merged| + |todo| == |cache.Keys|
        invariant forall e :: e in merged <==>
            e.key in cache && e.key !in todo && e == Row(e.key, cache[e.key].rev, CHANGED, cache[e.key].payload)
        decreases |todo|
      {
        var key :| key in todo;
        merged := merged + [Row(key, cache[key].rev, CHANGED, cache[key].payload)];
        todo := todo - {key};
      }
    }

    // The row loop.
    method MergeRows(envelopes: seq<Envelope>) returns (changedKeys: set<string>)
      modifies this`cache, this`needsResync
      ensures Value() == Absorb(probe, old(Value()), envelopes)
      ensures changedKeys == TouchedKeys(probe, old(cache), envelopes)
    {
      ghost var base := Value();
      changedKeys := {};
      for i := 0 to |envelopes|
        invariant Value() == Absorb(probe, base, envelopes[..i])
        invariant changedKeys == TouchedKeys(probe, base.table, envelopes[..i])
      {
        AbsorbStep(probe, base, envelopes, i);
        var touched := MergeRow(envelopes[i]);
        if touched {
          changedKeys := changedKeys + {envelopes[i].key};
        }
      }
      assert envelopes[..|envelopes|] == envelopes;
    }

    method Merge(f: Frame) returns (merged: seq<Envelope>, changedKeys: set<string>, resync: bool)
      modifies this
      ensures Value() == MergeFrame(probe, old(Value()), f)
      ensures resync == needsResync
      ensures changedKeys == Reported(probe, old(Value()), f)
      ensures f.session == 0 ==> merged == f.envelopes
      ensures f.session != 0 ==> |merged| == |cache| && (set e | e in merged) == EnvelopesOf(cache)
    {
      if f.session == 0 {
        return f.envelopes, set e | e in f.envelopes :: e.key, needsResync;
      }
      if f.session != appliedSession || f.epoch != appliedEpoch {
        cache, appliedSession, appliedEpoch, baselined, needsResync := map[], f.session, f.epoch, false, false;
      }
      changedKeys := MergeRows(f.envelopes);
      merged := Rebuild();
      baselined, resync := true, needsResync;
    }
  }

  /******* Redelivery and the changed set *******/

  predicate HasClear(es: seq<Envelope>, k: string)
  {
    exists e :: e in es && e.state == CLEARED && e.key == k
  }

  // No row of the batch could still commit at k.
  ghost predicate Settled(probe: Probe, t: Table, es: seq<Envelope>, k: string)
  {
    forall e :: e in es && e.key == k && e.state == CHANGED && DecodeSucceeds(probe, e) ==> !Newer(t, e)
  }

  // A clear forgets what was there before the batch.
  lemma {:induction false} ClearForgets(probe: Probe, t: Table, u: Table, es: seq<Envelope>, k: string)
    requires HasClear(es, k)
    ensures Lookup(ApplyRows(probe, t, es), k) == Lookup(ApplyRows(probe, u, es), k)
  {
    var init, last := es[..|es| - 1], es[|es| - 1];
    assert es == init + [last];
    if !(last.state == CLEARED && last.key == k) {
      ClearForgets(probe, t, u, init, k);
    }
  }

  lemma {:induction false} ClearFreeRowsSettle(probe: Probe, t: Table, es: seq<Envelope>, k: string)
    requires !HasClear(es, k)
    ensures Settled(probe, ApplyRows(probe, t, es), es, k)
  {
    if es != [] {
      var init, last := es[..|es| - 1], es[|es| - 1];
      assert es == init + [last] && last in es;
      assert !HasClear(init, k) by { assert forall e :: e in init ==> e in es; }
      ClearFreeRowsSettle(probe, t, init, k);
    }
  }

  lemma {:induction false} SettledRowsKeep(probe: Probe, t: Table, es: seq<Envelope>, k: string)
    requires !HasClear(es, k) && Settled(probe, t, es, k)
    ensures Lookup(ApplyRows(probe, t, es), k) == Lookup(t, k)
  {
    if es != [] {
      var init, last := es[..|es| - 1], es[|es| - 1];
      assert es == init + [last] && last in es;
      assert forall e :: e in init ==> e in es;
      SettledRowsKeep(probe, t, init, k);
    }
  }

  // A clear carries no rev guard here, yet a frame delivered twice leaves the
  // cache it left the first time.
  lemma RedeliveredFrameChangesNothing(probe: Probe, c: Cache, f: Frame)
    ensures var once := MergeFrame(probe, c, f);
            MergeFrame(probe, once, f).table == once.table
  {
    if f.session != 0 {
      var t := Rebase(c, f).table;
      var once := ApplyRows(probe, t, f.envelopes);
      var twice := ApplyRows(probe, once, f.envelopes);
      forall k
        ensures Lookup(twice, k) == Lookup(once, k)
      {
        if HasClear(f.envelopes, k) {
          ClearForgets(probe, t, once, f.envelopes, k);
        } else {
          ClearFreeRowsSettle(probe, t, f.envelopes, k);
          SettledRowsKeep(probe, once, f.envelopes, k);
        }
      }
      TablesEqual(twice, once);
    }
  }

  lemma {:induction false} UntouchedSlots(probe: Probe, t: Table, es: seq<Envelope>, k: string)
    requires k !in TouchedKeys(probe, t, es)
    ensures Lookup(ApplyRows(probe, t, es), k) == Lookup(t, k)
  {
    if es != [] {
      UntouchedSlots(probe, t, es[..|es| - 1], k);
    }
  }

  // A slot the frame does not report is unchanged, except that a new identity
  // empties every slot it held without reporting it.
  lemma UnreportedSlots(probe: Probe, c: Cache, f: Frame, k: string)
    requires f.session != 0 && k !in Reported(probe, c, f)
    ensures Lookup(MergeFrame(probe, c, f).table, k) == Lookup(c.table, k)
        <==> (f.session == c.session && f.epoch == c.epoch) || k !in c.table
  {
    UntouchedSlots(probe, Rebase(c, f).table, f.envelopes, k);
  }

  /******* Rows and runs on their fields *******/

  // The slot after a row for its key: state 1 empties it, state 0 with a newer rev
  // and a decodable payload replaces it, anything else leaves it.
  lemma RowOnSlot(probe: Probe, t: Table, e: Envelope, k: string)
    ensures var slot, after := Lookup(t, k), Lookup(ApplyRow(probe, t, e), k);
            if e.key != k then after == slot
            else if e.state == 1 then after == None
            else if e.state == 0 && (slot.None? || slot.value.rev < e.rev) && e.payload.bytes != [] && probe(k, e.payload.bytes)
            then after == Some(Entry(e.rev, e.payload))
            else after == slot
  {
  }

  // Row i clears the key or moves its slot.
  ghost predicate ReportsAt(probe: Probe, t: Table, es: seq<Envelope>, i: nat, k: string)
  {
    && i < |es|
    && es[i].key == k
    && (es[i].state == 1 || Lookup(ApplyRows(probe, t, es[..i]), k) != Lookup(ApplyRows(probe, t, es[..i + 1]), k))
  }

  lemma LastReports(probe: Probe, t: Table, es: seq<Envelope>, k: string)
    requires es != []
    ensures var n := |es| - 1;
            ReportsAt(probe, t, es, n, k)
            <==> es[n].key == k && (es[n].state == CLEARED || Commits(probe, ApplyRows(probe, t, es[..n]), es[n]))
  {
    assert es[..|es|] == es;
  }

  lemma ReportsInPrefix(probe: Probe, t: Table, es: seq<Envelope>, i: nat, k: string)
    requires i < |es| - 1
    ensures ReportsAt(probe, t, es[..|es| - 1], i, k) <==> ReportsAt(probe, t, es, i, k)
  {
    var init := es[..|es| - 1];
    assert init[..i] == es[..i] && init[..i + 1] == es[..i + 1];
  }

  // A key is reported exactly when some row clears it or moves its slot.
  lemma {:induction false} ReportedIffMoved(probe: Probe, t: Table, es: seq<Envelope>, k: string)
    ensures k in TouchedKeys(probe, t, es) <==> exists i :: 0 <= i < |es| && ReportsAt(probe, t, es, i, k)
  {
    if es != [] {
      var n, init := |es| - 1, es[..|es| - 1];
      ReportedIffMoved(probe, t, init, k);
      LastReports(probe, t, es, k);
      forall i | 0 <= i < n
        ensures ReportsAt(probe, t, init, i, k) <==> ReportsAt(probe, t, es, i, k)
      {
        ReportsInPrefix(probe, t, es, i, k);
      }
      if i :| 0 <= i < n && ReportsAt(probe, t, init, i, k) {
        assert ReportsAt(probe, t, es, i, k);
      }
    }
  }

  // A changed row newer than the slot it meets, empty or not decodable.
  ghost predicate SpoilsAt(probe: Probe, t: Table, es: seq<Envelope>, i: nat)
  {
    i < |es| &&
    var slot := Lookup(ApplyRows(probe, t, es[..i]), es[i].key);
    es[i].state == 0 && (slot.Some? ==> slot.value.rev < es[i].rev) && (es[i].payload.bytes == [] || !probe(es[i].key, es[i].payload.bytes))
  }

  lemma {:induction false} SpoilsIffRowSpoils(probe: Probe, t: Table, es: seq<Envelope>)
    ensures AnySpoils(probe, t, es) <==> exists i :: 0 <= i < |es| && SpoilsAt(probe, t, es, i)
  {
    if es != [] {
      var n, init := |es| - 1, es[..|es| - 1];
      SpoilsIffRowSpoils(probe, t, init);
      assert SpoilsAt(probe, t, es, n) <==> Spoils(probe, ApplyRows(probe, t, init), es[n]);
      forall i | 0 <= i < n
        ensures SpoilsAt(probe, t, init, i) <==> SpoilsAt(probe, t, es, i)
      {
        assert init[..i] == es[..i];
      }
    }
  }

  // A sessioned frame whose session or epoch is not the one the run has reached.
  ghost predicate RestartsAt(probe: Probe, frames: seq<Frame>, i: nat)
  {
    i < |frames| &&
    var c, f := Run(probe, frames[..i]), frames[i];
    f.session != 0 && !(f.session == c.session && f.epoch == c.epoch)
  }

  // A sessioned frame one of whose rows spoils, in the table the frame starts from:
  // an empty one if it restarts.
  ghost predicate SpoiltAt(probe: Probe, frames: seq<Frame>, i: nat)
  {
    && i < |frames|
    && SpoiltBy(probe, if RestartsAt(probe, frames, i) then map[] else Run(probe, frames[..i]).table, frames[i])
  }

  ghost predicate SpoiltBy(probe: Probe, t: Table, f: Frame)
  {
    f.session != 0 && exists j :: 0 <= j < |f.envelopes| && SpoilsAt(probe, t, f.envelopes, j)
  }

  ghost predicate RaisedAt(probe: Probe, frames: seq<Frame>, i: nat)
  {
    && i < |frames|
    && SpoiltAt(probe, frames, i) && forall j :: i < j < |frames| ==> !RestartsAt(probe, frames, j)
  }

  lemma RestartsInPrefix(probe: Probe, frames: seq<Frame>, i: nat)
    requires i < |frames| - 1
    ensures RestartsAt(probe, frames[..|frames| - 1], i) <==> RestartsAt(probe, frames, i)
    ensures SpoiltAt(probe, frames[..|frames| - 1], i) <==> SpoiltAt(probe, frames, i)
  {
    var init := frames[..|frames| - 1];
    assert init[..i] == frames[..i] && init[i] == frames[i];
    assert RestartsAt(probe, init, i) <==> RestartsAt(probe, frames, i);
    var t := if RestartsAt(probe, frames, i) then map[] else Run(probe, frames[..i]).table;
    assert SpoiltAt(probe, frames, i) <==> SpoiltBy(probe, t, frames[i]);
    assert SpoiltAt(probe, init, i) <==> SpoiltBy(probe, t, init[i]);
  }

  lemma RaisedInPrefix(probe: Probe, frames: seq<Frame>, i: nat)
    requires i < |frames| - 1
    ensures RaisedAt(probe, frames, i) <==> RaisedAt(probe, frames[..|frames| - 1], i) && !RestartsAt(probe, frames, |frames| - 1)
  {
    var n, init := |frames| - 1, frames[..|frames| - 1];
    RestartsInPrefix(probe, frames, i);
    forall j | i < j < n
      ensures RestartsAt(probe, init, j) <==> RestartsAt(probe, frames, j)
    {
      RestartsInPrefix(probe, frames, j);
    }
    if RaisedAt(probe, init, i) && !RestartsAt(probe, frames, n) {
      forall j | i < j < |frames|
        ensures !RestartsAt(probe, frames, j)
      {
        assert j < n ==> !RestartsAt(probe, init, j);
      }
    }
    if RaisedAt(probe, frames, i) {
      forall j | i < j < n
        ensures !RestartsAt(probe, init, j)
      {
        assert !RestartsAt(probe, frames, j);
      }
    }
  }

  lemma FlagAfterFrame(probe: Probe, frames: seq<Frame>)
    requires frames != []
    ensures var n := |frames| - 1;
            Run(probe, frames).needsResync
            <==> SpoiltAt(probe, frames, n) || (Run(probe, frames[..n]).needsResync && !RestartsAt(probe, frames, n))
  {
    var n, c := |frames| - 1, Run(probe, frames[..|frames| - 1]);
    var f := frames[n];
    var t := Rebase(c, f).table;
    SpoilsIffRowSpoils(probe, t, f.envelopes);
    assert SpoiltAt(probe, frames, n) <==> SpoiltBy(probe, t, f);
    assert Run(probe, frames) == MergeFrame(probe, c, f);
  }

  // The flag is up exactly when some frame spoilt and no frame restarted since.
  lemma {:induction false} FlagFollowsFrames(probe: Probe, frames: seq<Frame>)
    ensures Run(probe, frames).needsResync <==> exists i :: 0 <= i < |frames| && RaisedAt(probe, frames, i)
  {
    if frames != [] {
      var n, init := |frames| - 1, frames[..|frames| - 1];
      FlagFollowsFrames(probe, init);
      FlagAfterFrame(probe, frames);
      forall i | 0 <= i < n
        ensures RaisedAt(probe, frames, i) <==> RaisedAt(probe, init, i) && !RestartsAt(probe, frames, n)
      {
        RaisedInPrefix(probe, frames, i);
      }
      assert RaisedAt(probe, frames, n) <==> SpoiltAt(probe, frames, n);
      if i :| 0 <= i < n && RaisedAt(probe, init, i) {
        assert RaisedAt(probe, frames, i) <==> !RestartsAt(probe, frames, n);
      }
    }
  }

  lemma EmptyCacheOnFields()
    ensures EMPTY.table == map[] && EMPTY.session == 0 && EMPTY.epoch == 0 && !EMPTY.baselined && !EMPTY.needsResync
  {
  }

  // The applied identity is that of the last sessioned frame, and the cache is
  // baselined once there was one.
  lemma {:induction false} IdentityIsOfLastFrame(probe: Probe, frames: seq<Frame>)
    ensures var c := Run(probe, frames);
            && (c.baselined <==> exists i :: 0 <= i < |frames| && frames[i].session != 0)
            && forall i :: 0 <= i < |frames| && frames[i].session != 0 && (forall j :: i < j < |frames| ==> frames[j].session == 0)
                 ==> c.session == frames[i].session && c.epoch == frames[i].epoch
  {
    if frames != [] {
      var n, init := |frames| - 1, frames[..|frames| - 1];
      IdentityIsOfLastFrame(probe, init);
      assert forall i :: 0 <= i < n ==> init[i] == frames[i];
    }
  }

  /******* The Kotlin and the Swift class *******/

  // Kotlin commits every non-empty payload.
  const KOTLIN_PROBE: Probe := (key: string, bytes: Bytes) => true

  // Swift also runs the decoder of a projection that has one.
  function SwiftProbe(decoders: map<string, Bytes -> bool>): Probe
  {
    (key: string, bytes: Bytes) => key in decoders ==> decoders[key](bytes)
  }

  ghost predicate SameVerdicts(a: Probe, b: Probe)
  {
    forall key, bytes :: bytes != [] ==> a(key, bytes) == b(key, bytes)
  }

  lemma {:induction false} SameVerdictsSameRows(a: Probe, b: Probe, t: Table, es: seq<Envelope>)
    requires SameVerdicts(a, b)
    ensures ApplyRows(a, t, es) == ApplyRows(b, t, es)
    ensures AnySpoils(a, t, es) == AnySpoils(b, t, es) && TouchedKeys(a, t, es) == TouchedKeys(b, t, es)
  {
    if es != [] {
      SameVerdictsSameRows(a, b, t, es[..|es| - 1]);
      assert DecodeSucceeds(a, es[|es| - 1]) == DecodeSucceeds(b, es[|es| - 1]);
    }
  }

  lemma {:induction false} SameVerdictsSameRun(a: Probe, b: Probe, frames: seq<Frame>)
    requires SameVerdicts(a, b)
    ensures Run(a, frames) == Run(b, frames) && Reports(a, frames) == Reports(b, frames)
  {
    if frames != [] {
      var init, f := frames[..|frames| - 1], frames[|frames| - 1];
      SameVerdictsSameRun(a, b, init);
      SameVerdictsSameRows(a, b, Rebase(Run(a, init), f).table, f.envelopes);
    }
  }

  // No run tells the probes apart, by its state or by what it reports.
  ghost predicate Indistinguishable(a: Probe, b: Probe)
  {
    forall frames :: Run(a, frames) == Run(b, frames) && Reports(a, frames) == Reports(b, frames)
  }

  // One row in one frame shows the verdict on its payload.
  lemma OneRowVerdict(probe: Probe, key: string, bytes: Bytes, f: Frame)
    requires bytes != [] && f == Frame([Row(key, 0, CHANGED, Body("", 0, "", bytes))], 1, 1)
    ensures Run(probe, [f]).needsResync <==> !probe(key, bytes)
  {
    var es := f.envelopes;
    assert es[..0] == [] && [f][..0] == [];
    assert AnySpoils(probe, map[], es) == Spoils(probe, ApplyRows(probe, map[], []), es[0]);
    assert Run(probe, [f]) == MergeFrame(probe, Run(probe, []), f);
  }

  lemma LockstepIffSameVerdicts(a: Probe, b: Probe)
    ensures Indistinguishable(a, b) <==> SameVerdicts(a, b)
  {
    if SameVerdicts(a, b) {
      forall frames
        ensures Run(a, frames) == Run(b, frames) && Reports(a, frames) == Reports(b, frames)
      {
        SameVerdictsSameRun(a, b, frames);
      }
    }
    if Indistinguishable(a, b) {
      forall key, bytes | bytes != []
        ensures a(key, bytes) == b(key, bytes)
      {
        var f := Frame([Row(key, 0, CHANGED, Body("", 0, "", bytes))], 1, 1);
        OneRowVerdict(a, key, bytes, f);
        OneRowVerdict(b, key, bytes, f);
        assert Run(a, [f]) == Run(b, [f]);
      }
    }
  }

  // The two classes stay together on every run if and only if no typed decoder
  // refuses a non-empty payload.
  lemma SwiftFollowsKotlinIff(decoders: map<string, Bytes -> bool>)
    ensures Indistinguishable(KOTLIN_PROBE, SwiftProbe(decoders))
       <==> forall key, bytes :: key in decoders && bytes != [] ==> decoders[key](bytes)
  {
    var swift := SwiftProbe(decoders);
    LockstepIffSameVerdicts(KOTLIN_PROBE, swift);
    assert forall key, bytes :: swift(key, bytes) <==> (key in decoders ==> decoders[key](bytes));
    assert forall key, bytes :: KOTLIN_PROBE(key, bytes);
    if SameVerdicts(KOTLIN_PROBE, swift) {
      forall key, bytes | key in decoders && bytes != []
        ensures decoders[key](bytes)
      {
        assert KOTLIN_PROBE(key, bytes) == swift(key, bytes);
      }
    }
  }

  /******* Session-0 frames *******/

  function Sessioned(frames: seq<Frame>): seq<Frame>
  {
    if frames == [] then []
    else
      Sessioned(frames[..|frames| - 1])
      + (if frames[|frames| - 1].session == 0 then [] else [frames[|frames| - 1]])
  }

  // Frames without an incremental contract leave no trace, wherever they come.
  lemma {:induction false} SessionlessFramesLeaveNoTrace(probe: Probe, frames: seq<Frame>)
    ensures Run(probe, frames) == Run(probe, Sessioned(frames))
  {
    if frames != [] {
      var init, last := frames[..|frames| - 1], frames[|frames| - 1];
      SessionlessFramesLeaveNoTrace(probe, init);
      if last.session != 0 {
        assert Sessioned(frames)[..|Sessioned(frames)| - 1] == Sessioned(init);
      } else {
        assert Sessioned(frames) == Sessioned(init);
      }
    }
  }

  /******* The cache as a replica *******/

  // The producer's projection map and, per key, the last rev handed out.
  datatype Producer = Producer(session: nat, epoch: nat, table: Table, counters: map<string, nat>)

  datatype Emission =
    | Full(session: nat, epoch: nat, envelopes: seq<Envelope>, table: Table, counters: map<string, nat>)
    | Delta(envelopes: seq<Envelope>)
    | Sessionless(envelopes: seq<Envelope>)

  ghost predicate WellFormed(probe: Probe, es: seq<Envelope>)
  {
    forall e :: e in es ==> e.state == CLEARED || (e.state == CHANGED && DecodeSucceeds(probe, e))
  }

  ghost predicate Legal(probe: Probe, p: Producer, em: Emission)
  {
    match em
    case Sessionless(_) => true
    case Full(s, e, es, table, counters) =>
      s != 0 && (s != p.session || e != p.epoch)
      && WellFormed(probe, es) && Lists(CHANGED, es, table) && Bounded(table, counters)
    case Delta(es) => p.session != 0 && WellFormed(probe, es) && Rising(p.counters, es)
  }

  ghost function After(probe: Probe, p: Producer, em: Emission): Producer
  {
    if !Legal(probe, p, em) then p else
    match em
    case Sessionless(_) => p
    case Full(s, e, _, table, counters) => Producer(s, e, table, counters)
    case Delta(es) => p.(table := Replay(CLEARED, p.table, es), counters := CountersAfter(p.counters, es))
  }

  ghost function Receive(probe: Probe, p: Producer, c: Cache, em: Emission): Cache
  {
    match em
    case Sessionless(es) => MergeFrame(probe, c, Frame(es, 0, 0))
    case Full(s, e, es, _, _) => MergeFrame(probe, c, Frame(es, s, e))
    case Delta(es) => MergeFrame(probe, c, Frame(es, p.session, p.epoch))
  }

  lemma {:induction false} RisingRowsReplay(probe: Probe, t: Table, counters: map<string, nat>, es: seq<Envelope>)
    requires Bounded(t, counters) && Rising(counters, es) && WellFormed(probe, es)
    ensures ApplyRows(probe, t, es) == Replay(CLEARED, t, es)
    ensures Bounded(Replay(CLEARED, t, es), CountersAfter(counters, es))
    ensures !AnySpoils(probe, t, es)
  {
    if es != [] {
      var init, e := es[..|es| - 1], es[|es| - 1];
      assert e in es;
      RisingRowsReplay(probe, t, counters, init);
      var before := Replay(CLEARED, t, init);
      assert e.key in before ==> e.rev > before[e.key].rev;
    }
  }

  lemma {:induction false} ListedRowsApply(probe: Probe, es: seq<Envelope>, t: Table)
    requires WellFormed(probe, es) && forall e :: e in es ==> Listed(CHANGED, t, e)
    ensures Covered(es, t, ApplyRows(probe, map[], es)) && !AnySpoils(probe, map[], es)
  {
    if es != [] {
      var init, e := es[..|es| - 1], es[|es| - 1];
      assert e in es && Listed(CHANGED, t, e);
      ListedRowsApply(probe, init, t);
      var before := ApplyRows(probe, map[], init);
      assert ApplyRows(probe, map[], es) == before[e.key := t[e.key]];
      CoverOneMore(es, t, before);
    }
  }

  lemma ListingRebuilds(probe: Probe, es: seq<Envelope>, t: Table)
    requires WellFormed(probe, es) && Lists(CHANGED, es, t)
    ensures ApplyRows(probe, map[], es) == t && !AnySpoils(probe, map[], es)
  {
    ListedRowsApply(probe, es, t);
    ListingCoversAll(CHANGED, es, t, ApplyRows(probe, map[], es));
  }

  // The cache holds the producer's map; before the first full frame both hold
  // nothing under session 0.
  ghost predicate Mirrors(p: Producer, c: Cache)
  {
    && c.session == p.session && c.epoch == p.epoch && c.table == p.table
    && !c.needsResync && Bounded(p.table, p.counters)
  }

  lemma EmissionMirrors(probe: Probe, p: Producer, c: Cache, em: Emission)
    requires Mirrors(p, c) && Legal(probe, p, em)
    ensures Mirrors(After(probe, p, em), Receive(probe, p, c, em))
  {
    match em
    case Sessionless(_) =>
    case Full(_, _, es, table, _) => ListingRebuilds(probe, es, table);
    case Delta(es) => RisingRowsReplay(probe, p.table, p.counters, es);
  }

  ghost function ProducerAfter(probe: Probe, ems: seq<Emission>): Producer
  {
    if ems == [] then Producer(0, 0, map[], map[])
    else After(probe, ProducerAfter(probe, ems[..|ems| - 1]), ems[|ems| - 1])
  }

  ghost function CacheAfter(probe: Probe, ems: seq<Emission>): Cache
  {
    if ems == [] then EMPTY
    else
      var init := ems[..|ems| - 1];
      Receive(probe, ProducerAfter(probe, init), CacheAfter(probe, init), ems[|ems| - 1])
  }

  ghost predicate LegalRun(probe: Probe, ems: seq<Emission>)
  {
    ems != [] ==>
      LegalRun(probe, ems[..|ems| - 1]) && Legal(probe, ProducerAfter(probe, ems[..|ems| - 1]), ems[|ems| - 1])
  }

  // After every frame of every in-order run the merged set is the producer's
  // full projection map, omitted projections included.
  lemma {:induction false} MergedSetIsProducersMap(probe: Probe, ems: seq<Emission>, n: nat)
    requires LegalRun(probe, ems) && n <= |ems|
    ensures Mirrors(ProducerAfter(probe, ems[..n]), CacheAfter(probe, ems[..n]))
    ensures EnvelopesOf(CacheAfter(probe, ems[..n]).table) == EnvelopesOf(ProducerAfter(probe, ems[..n]).table)
    decreases |ems|, n
  {
    if n < |ems| {
      assert ems[..|ems| - 1][..n] == ems[..n];
      MergedSetIsProducersMap(probe, ems[..|ems| - 1], n);
    } else if n != 0 {
      var init := ems[..n - 1];
      assert ems[..n] == ems;
      MergedSetIsProducersMap(probe, ems, n - 1);
      EmissionMirrors(probe, ProducerAfter(probe, init), CacheAfter(probe, init), ems[n - 1]);
    }
  }
}
