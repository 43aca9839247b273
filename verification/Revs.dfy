// Rows that carry a revision per key, and tables keyed by them: the vocabulary
// the keyed reference cache and the projection cache share.
module Revs {
  import opened Common

  // The wire's state discriminants.
  const CHANGED: byte := 0
  const CLEARED: byte := 1

  datatype RevRow<S, P> = Row(key: string, rev: nat, state: S, payload: P)

  datatype RevEntry<P> = Entry(rev: nat, payload: P)

  type RevTable<P> = map<string, RevEntry<P>>

  // The reorder / duplicate guard.
  predicate Newer<S, P>(t: RevTable<P>, r: RevRow<S, P>)
  {
    r.key in t ==> r.rev > t[r.key].rev
  }

  function Lookup<P>(t: RevTable<P>, key: string): Option<RevEntry<P>>
  {
    if key in t then Some(t[key]) else None
  }

  lemma TablesEqual<P>(a: RevTable<P>, b: RevTable<P>)
    requires forall k :: Lookup(a, k) == Lookup(b, k)
    ensures a == b
  {
    forall k
      ensures k in a <==> k in b
      ensures k in a ==> a[k] == b[k]
    {
      assert Lookup(a, k) == Lookup(b, k);
    }
    assert a.Keys == b.Keys;
  }

  /******* What a producer means by its rows *******/

  // Plain replay of a row log, without any guard.
  function Replay<S(==), P>(cleared: S, t: RevTable<P>, rows: seq<RevRow<S, P>>): RevTable<P>
  {
    if rows == [] then t
    else
      var r := rows[|rows| - 1];
      var before := Replay(cleared, t, rows[..|rows| - 1]);
      if r.state == cleared then before - {r.key} else before[r.key := Entry(r.rev, r.payload)]
  }

  // Per key, the last rev handed out, also for keys cleared since.
  function CountersAfter<S, P>(counters: map<string, nat>, rows: seq<RevRow<S, P>>): map<string, nat>
  {
    if rows == [] then counters
    else CountersAfter(counters, rows[..|rows| - 1])[rows[|rows| - 1].key := rows[|rows| - 1].rev]
  }

  // Per key, every rev is greater than all revs handed out before it.
  predicate Rising<S, P>(counters: map<string, nat>, rows: seq<RevRow<S, P>>)
  {
    rows != [] ==>
      var r := rows[|rows| - 1];
      var before := CountersAfter(counters, rows[..|rows| - 1]);
      Rising(counters, rows[..|rows| - 1]) && (r.key in before ==> r.rev > before[r.key])
  }

  ghost predicate Bounded<P>(t: RevTable<P>, counters: map<string, nat>)
  {
    forall k :: k in t ==> k in counters && t[k].rev <= counters[k]
  }

  // A row that stands for an entry of the table.
  ghost predicate Listed<S, P>(changed: S, t: RevTable<P>, r: RevRow<S, P>)
  {
    r.state == changed && r.key in t && t[r.key] == Entry(r.rev, r.payload)
  }

  // The rows list the whole table, in any order.
  ghost predicate Lists<S, P>(changed: S, rows: seq<RevRow<S, P>>, t: RevTable<P>)
  {
    && (forall r :: r in rows ==> Listed(changed, t, r))
    && (forall k :: k in t ==> Row(k, t[k].rev, changed, t[k].payload) in rows)
  }

  // The keys some row mentions.
  function KeysOf<S, P>(rows: seq<RevRow<S, P>>): set<string>
  {
    if rows == [] then {} else KeysOf(rows[..|rows| - 1]) + {rows[|rows| - 1].key}
  }

  lemma {:induction false} RowKeyIsMentioned<S, P>(rows: seq<RevRow<S, P>>, r: RevRow<S, P>)
    requires r in rows
    ensures r.key in KeysOf(rows)
  {
    var init, last := rows[..|rows| - 1], rows[|rows| - 1];
    assert rows == init + [last];
    if r != last {
      RowKeyIsMentioned(init, r);
    }
  }

  // t restricted to the keys the rows mention.
  ghost predicate Covered<S, P>(rows: seq<RevRow<S, P>>, t: RevTable<P>, part: RevTable<P>)
  {
    part.Keys == KeysOf(rows) && forall k :: k in part ==> k in t && part[k] == t[k]
  }

  lemma CoverOneMore<S, P>(rows: seq<RevRow<S, P>>, t: RevTable<P>, part: RevTable<P>)
    requires rows != [] && rows[|rows| - 1].key in t && Covered(rows[..|rows| - 1], t, part)
    ensures Covered(rows, t, part[rows[|rows| - 1].key := t[rows[|rows| - 1].key]])
  {
  }

  lemma ListingCoversAll<S, P>(changed: S, rows: seq<RevRow<S, P>>, t: RevTable<P>, part: RevTable<P>)
    requires Lists(changed, rows, t) && Covered(rows, t, part)
    ensures part == t
  {
    forall k | k in t
      ensures k in part
    {
      RowKeyIsMentioned(rows, Row(k, t[k].rev, changed, t[k].payload));
    }
  }

}
