// Component dependency resolution: a depth-first walk over a registry that may
// hold unknown ids, duplicate ids and dependency cycles.
module Registry {
  import opened Common

  datatype Component = Component(id: string, dependencies: seq<string>)

  datatype Result<+T> = Ok(value: T) | UnknownComponent(id: string)

  /******* The dependency graph *******/

  // The first component listed under an id wins.
  function Find(components: seq<Component>, id: string): (found: Option<Component>)
    ensures found.Some? ==> found.value in components && found.value.id == id
    ensures found.None? <==> forall c :: c in components ==> c.id != id
  {
    if components == [] then None
    else if components[0].id == id then Some(components[0])
    else Find(components[1..], id)
  }

  function Known(components: seq<Component>): (ids: set<string>)
    ensures forall id :: id in ids <==> Find(components, id).Some?
  {
    set c | c in components :: c.id
  }

  predicate DependsOn(components: seq<Component>, id: string, dep: string)
  {
    Find(components, id).Some? && dep in Find(components, id).value.dependencies
  }

  // The first component listed under an id.
  ghost predicate FirstAt(components: seq<Component>, id: string, i: int)
  {
    0 <= i < |components| && components[i].id == id && forall j :: 0 <= j < i ==> components[j].id != id
  }

  lemma {:induction false} FindIsFirst(components: seq<Component>, id: string, i: int)
    requires FirstAt(components, id, i)
    ensures Find(components, id) == Some(components[i])
  {
    if i > 0 {
      assert forall j :: 0 <= j < i - 1 ==> components[1..][j] == components[j + 1];
      FindIsFirst(components[1..], id, i - 1);
    }
  }

  // A component depends on what its first listing names, whatever is listed under
  // its id again.
  lemma DependsOnFirstListing(components: seq<Component>, id: string, dep: string, i: int)
    requires FirstAt(components, id, i)
    ensures DependsOn(components, id, dep) <==> dep in components[i].dependencies
  {
    FindIsFirst(components, id, i);
  }

  // A chain of dependencies, each on the next.
  ghost predicate Chain(components: seq<Component>, path: seq<string>)
  {
    path != [] && forall i :: 0 <= i < |path| - 1 ==> DependsOn(components, path[i], path[i + 1])
  }

  ghost predicate Reaches(components: seq<Component>, from: string, to: string)
  {
    exists path :: Chain(components, path) && path[0] == from && path[|path| - 1] == to
  }

  lemma ReachesSelf(components: seq<Component>, id: string)
    ensures Reaches(components, id, id)
  {
    assert Chain(components, [id]);
  }

  lemma ReachesNext(components: seq<Component>, from: string, mid: string, to: string)
    requires Reaches(components, from, mid) && DependsOn(components, mid, to)
    ensures Reaches(components, from, to)
  {
    var path :| Chain(components, path) && path[0] == from && path[|path| - 1] == mid;
    assert Chain(components, path + [to]);
  }

  // A set closed under dependencies holds everything its members reach.
  ghost predicate Closed(components: seq<Component>, ids: set<string>)
  {
    forall id, dep :: id in ids && DependsOn(components, id, dep) ==> dep in ids
  }

  lemma {:induction false} ClosedHoldsReachable(components: seq<Component>, ids: set<string>, path: seq<string>)
    requires Closed(components, ids) && Chain(components, path) && path[0] in ids
    ensures path[|path| - 1] in ids
  {
    if |path| > 1 {
      assert DependsOn(components, path[0], path[1]);
      ClosedHoldsReachable(components, ids, path[1..]);
    }
  }

  /******* Order *******/

  function ListedIds(order: seq<Component>): (ids: set<string>)
    ensures forall i :: 0 <= i < |order| ==> order[i].id in ids
  {
    set i | 0 <= i < |order| :: order[i].id
  }

  ghost predicate Distinct(order: seq<Component>)
  {
    forall i, j :: 0 <= i < j < |order| ==> order[i].id != order[j].id
  }

  // At position j stands the registry's component of that id, and each of its
  // dependencies stands before it or sits on a cycle through it.
  ghost predicate OrderedAt(components: seq<Component>, order: seq<Component>, j: nat)
    requires j < |order|
  {
    && Find(components, order[j].id) == Some(order[j])
    && forall dep :: dep in order[j].dependencies ==>
         dep in ListedIds(order[..j]) || Reaches(components, dep, order[j].id)
  }

  ghost predicate Ordered(components: seq<Component>, order: seq<Component>)
  {
    forall j :: 0 <= j < |order| ==> OrderedAt(components, order, j)
  }

  // Dependencies of listed components are listed or still being resolved.
  ghost predicate DependenciesSeen(order: seq<Component>, seen: set<string>)
  {
    forall j, dep :: 0 <= j < |order| && dep in order[j].dependencies ==> dep in seen
  }

  lemma PushKeepsOrder(components: seq<Component>, order: seq<Component>, c: Component)
    requires Ordered(components, order) && Distinct(order) && c.id !in ListedIds(order)
    requires Find(components, c.id) == Some(c)
    requires forall dep :: dep in c.dependencies ==> dep in ListedIds(order) || Reaches(components, dep, c.id)
    ensures Ordered(components, order + [c]) && Distinct(order + [c])
    ensures ListedIds(order + [c]) == ListedIds(order) + {c.id}
  {
    var all := order + [c];
    forall j | 0 <= j < |all|
      ensures OrderedAt(components, all, j)
    {
      assert j < |order| ==> all[..j] == order[..j] && OrderedAt(components, order, j);
      assert j == |order| ==> all[..j] == order;
    }
    assert all[|order|].id in ListedIds(all);
    forall id | id in ListedIds(order)
      ensures id in ListedIds(all)
    {
      var i :| 0 <= i < |order| && order[i].id == id;
      assert all[i].id == id;
    }
  }

  /******* The walk *******/

  // Mid-walk: `open` holds the ids entered but not yet listed, the ancestors of
  // the current call.
  ghost predicate Walking(components: seq<Component>, order: seq<Component>, seen: set<string>, open: set<string>)
  {
    && Ordered(components, order) && Distinct(order)
    && seen == open + ListedIds(order) && open !! ListedIds(order)
    && DependenciesSeen(order, seen)
  }

  ghost predicate AllIn(ids: seq<string>, seen: set<string>)
  {
    forall id :: id in ids ==> id in seen
  }

  ghost predicate AllReach(components: seq<Component>, ids: set<string>, to: string)
  {
    forall g :: g in ids ==> Reaches(components, g, to)
  }

  // Listing a component whose dependencies are all seen closes it.
  lemma PushKeepsWalking(components: seq<Component>, order: seq<Component>, seen: set<string>, open: set<string>, c: Component)
    requires Walking(components, order, seen, open + {c.id}) && c.id !in open && Find(components, c.id) == Some(c)
    requires AllReach(components, open, c.id)
    requires AllIn(c.dependencies, seen)
    ensures Walking(components, order + [c], seen, open) && ListedIds(order + [c]) == ListedIds(order) + {c.id}
  {
    forall dep | dep in c.dependencies
      ensures dep in ListedIds(order) || Reaches(components, dep, c.id)
    {
      if dep == c.id {
        ReachesSelf(components, dep);
      }
    }
    PushKeepsOrder(components, order, c);
  }

  // What was added since `before` is reachable from the root.
  ghost predicate Reached(components: seq<Component>, root: string, order: seq<Component>, before: set<string>)
  {
    forall id :: id in ListedIds(order) && id !in before ==> Reaches(components, root, id)
  }

  // What a dependency added is reachable from the dependent too.
  lemma ReachedThrough(components: seq<Component>, root: string, dep: string, earlier: seq<Component>, order: seq<Component>, before: set<string>)
    requires DependsOn(components, root, dep)
    requires Reached(components, root, earlier, before) && Reached(components, dep, order, ListedIds(earlier))
    ensures Reached(components, root, order, before)
  {
    forall id | id in ListedIds(order) && id !in before
      ensures Reaches(components, root, id)
    {
      if id !in ListedIds(earlier) {
        ReachesThrough(components, root, dep, id);
      }
    }
  }

  lemma StepInto(components: seq<Component>, id: string, dep: string, open: set<string>)
    requires DependsOn(components, id, dep) && AllReach(components, open, id)
    ensures AllReach(components, open, dep)
  {
    forall g | g in open
      ensures Reaches(components, g, dep)
    {
      ReachesNext(components, g, id, dep);
    }
  }

  class Resolver {
    const components: seq<Component>
    var seen: set<string>
    var order: seq<Component>

    constructor (components: seq<Component>)
      ensures this.components == components && seen == {} && order == []
    {
      this.components := components;
      seen, order := {}, [];
    }

    ghost predicate Valid(open: set<string>)
      reads this
    {
      Walking(components, order, seen, open)
    }

    // The dependency loop of collect: None, or the unknown id that stopped it.
    method CollectAll(c: Component, ghost open: set<string>, ghost before: set<string>) returns (unknown: Option<string>)
      requires Find(components, c.id) == Some(c) && c.id in open && Valid(open)
      requires AllReach(components, open, c.id)
      requires Reached(components, c.id, order, before)
      modifies this
      decreases Known(components) - seen, 1
      ensures unknown.None? ==> Valid(open) && old(seen) <= seen && Reached(components, c.id, order, before)
      ensures unknown.None? ==> AllIn(c.dependencies, seen)
      ensures unknown.Some? ==> Reaches(components, c.id, unknown.value) && Find(components, unknown.value).None?
    {
      for i := 0 to |c.dependencies|
        invariant Valid(open) && old(seen) <= seen && Reached(components, c.id, order, before)
        invariant AllIn(c.dependencies[..i], seen)
      {
        assert c.dependencies[..i + 1] == c.dependencies[..i] + [c.dependencies[i]];
        var dep := c.dependencies[i];
        StepInto(components, c.id, dep, open);
        ghost var earlier := order;
        unknown := Collect(dep, open);
        if unknown.Some? {
          ReachesThrough(components, c.id, dep, unknown.value);
          return;
        }
        ReachedThrough(components, c.id, dep, earlier, order, before);
      }
      assert c.dependencies[..|c.dependencies|] == c.dependencies;
      unknown := None;
    }

    method Collect(id: string, ghost open: set<string>) returns (unknown: Option<string>)
      requires Valid(open) && AllReach(components, open, id)
      modifies this
      decreases Known(components) - seen, 0
      ensures unknown.None? ==> Valid(open) && old(seen) <= seen && id in seen
      ensures unknown.None? ==> Reached(components, id, order, old(ListedIds(order)))
      ensures unknown.Some? ==> Reaches(components, id, unknown.value) && Find(components, unknown.value).None?
    {
      ghost var before := ListedIds(order);
      ReachesSelf(components, id);
      if id in seen {
        return None;
      }
      seen := seen + {id};
      var component := Find(components, id);
      if component.None? {
        return Some(id);
      }
      unknown := CollectAll(component.value, open + {id}, before);
      if unknown.Some? {
        return;
      }
      PushKeepsWalking(components, order, seen, open, component.value);
      order := order + [component.value];
    }
  }

  lemma {:induction false} ReachesThrough(components: seq<Component>, a: string, b: string, c: string)
    requires DependsOn(components, a, b) && Reaches(components, b, c)
    ensures Reaches(components, a, c)
  {
    var path :| Chain(components, path) && path[0] == b && path[|path| - 1] == c;
    assert Chain(components, [a] + path);
  }

  // Success lists each reachable component exactly once, dependencies first up to
  // cycles; failure names a reachable id the registry does not know, and happens
  // exactly when there is one.
  method Resolve(components: seq<Component>, id: string) returns (r: Result<seq<Component>>)
    ensures r.Ok? ==> Distinct(r.value) && Ordered(components, r.value)
    ensures r.Ok? ==> forall x :: x in ListedIds(r.value) <==> Reaches(components, id, x)
    ensures r.UnknownComponent? ==> Reaches(components, id, r.id) && Find(components, r.id).None?
    ensures r.Ok? <==> forall x :: Reaches(components, id, x) ==> Find(components, x).Some?
  {
    var resolver := new Resolver(components);
    var unknown := resolver.Collect(id, {});
    if unknown.Some? {
      return UnknownComponent(unknown.value);
    }
    var order := resolver.order;
    ResolvedIsReachable(components, order, id);
    return Ok(order);
  }

  lemma ResolvedIsReachable(components: seq<Component>, order: seq<Component>, id: string)
    requires Ordered(components, order) && id in ListedIds(order) && DependenciesSeen(order, ListedIds(order))
    ensures forall x :: Reaches(components, id, x) ==> x in ListedIds(order) && Find(components, x).Some?
  {
    var ids := ListedIds(order);
    forall x, dep | x in ids && DependsOn(components, x, dep)
      ensures dep in ids
    {
      var j :| 0 <= j < |order| && order[j].id == x;
      assert OrderedAt(components, order, j);
    }
    forall x | Reaches(components, id, x)
      ensures x in ids && Find(components, x).Some?
    {
      var path :| Chain(components, path) && path[0] == id && path[|path| - 1] == x;
      ClosedHoldsReachable(components, ids, path);
      var j :| 0 <= j < |order| && order[j].id == x;
      assert OrderedAt(components, order, j);
    }
  }

  // On acyclic graphs every dependency stands before its dependents.
  lemma AcyclicOrderIsTopological(components: seq<Component>, order: seq<Component>)
    requires Ordered(components, order)
    requires forall u, v :: DependsOn(components, u, v) ==> !Reaches(components, v, u)
    ensures forall j, dep :: 0 <= j < |order| && dep in order[j].dependencies ==> dep in ListedIds(order[..j])
  {
    forall j, dep | 0 <= j < |order| && dep in order[j].dependencies
      ensures dep in ListedIds(order[..j])
    {
      assert OrderedAt(components, order, j);
      assert DependsOn(components, order[j].id, dep);
    }
  }
}
