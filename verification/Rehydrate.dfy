// The worklist walk that replaces every stamped descriptor by a real instance, in place.

module Rehydrate {
  import opened Wrappers
  import opened Graph

  datatype Failure = Malformed | Interrupted

  /** A slot the walk has dealt with: nothing to stand in for, or the stand-in is known. */
  predicate Settled(h: Heap, m: map<Id, Id>, v: Val)
  {
    v.Ref? && v.id in h && !h[v.id].Buffer? ==> v.id in m
  }

  /** `Map.prototype.set` and `Set.prototype.add` on the entry list. */
  function MapPut(entries: seq<(Val, Val)>, k: Val, v: Val): seq<(Val, Val)>
  {
    if entries == [] then [(k, v)]
    else if entries[0].0 == k then [(k, v)] + entries[1..]
    else [entries[0]] + MapPut(entries[1..], k, v)
  }

  function SetAdd(items: seq<Val>, v: Val): seq<Val>
  {
    if v in items then items else items + [v]
  }

  lemma {:induction false} PutNew(entries: seq<(Val, Val)>, k: Val, v: Val)
    requires forall i :: 0 <= i < |entries| ==> entries[i].0 != k
    ensures MapPut(entries, k, v) == entries + [(k, v)]
  {
    if entries != [] { PutNew(entries[1..], k, v); }
  }

  /** The state of the walk over the heap `h`, all but the contents of the node being walked. */
  ghost predicate Walking(h: Heap, key: string, root: Id,
                          nodes: Heap, next: nat, seen: map<Id, Id>, pending: seq<Id>, done: set<Id>)
  {
    && StandsIn(h, key, seen, nodes)
    && (forall id | id in nodes :: id < next)
    && h.Keys <= nodes.Keys
    && (forall id | id in nodes && id !in h :: exists d :: d in seen && seen[d] == id)
    && (forall id | id in seen :: Reaches(h, key, root, id))
    && Distinct(pending)
    && (forall id | id in pending :: id in seen && !Stamped(h, key, id) && id !in done)
    && (forall id | id in done :: id in seen && !Stamped(h, key, id))
    && (forall id | id in seen && !Stamped(h, key, id) :: id in done || id in pending)
  }

  ghost predicate DoneOk(h: Heap, nodes: Heap, seen: map<Id, Id>, done: set<Id>)
  {
    forall id | id in done ::
      && id in h && id in nodes && nodes[id] == Rewrite(h[id], seen)
      && (forall v | v in Slots(h[id]) :: Settled(h, seen, v))
  }

  ghost predicate RestSame(h: Heap, nodes: Heap, done: set<Id>)
  {
    forall id | id in h && id !in done :: id in nodes && nodes[id] == h[id]
  }

  ghost predicate Grown(m: map<Id, Id>, m': map<Id, Id>)
  {
    forall id | id in m :: id in m' && m'[id] == m[id]
  }

  lemma RewriteAgrees(node: Node, m: map<Id, Id>, m': map<Id, Id>)
    requires forall i :: 0 <= i < |Slots(node)| ==> StandIn(m, Slots(node)[i]) == StandIn(m', Slots(node)[i])
    ensures Rewrite(node, m) == Rewrite(node, m')
  {
    match node
    case MapNode(entries) =>
      forall i | 0 <= i < |entries| ensures Rewrite(node, m).entries[i] == Rewrite(node, m').entries[i] {
        assert Slots(node)[2 * i] == entries[i].0 && Slots(node)[2 * i + 1] == entries[i].1;
      }
    case Object(props) =>
      assert forall i :: 0 <= i < |props| ==> Slots(node)[i] == props[i].1;
      assert Rewrite(node, m).props == Rewrite(node, m').props;
    case Array(items) =>
      forall i | 0 <= i < |items| ensures Rewrite(node, m).items[i] == Rewrite(node, m').items[i] {
        assert Slots(node)[i] == items[i];
      }
    case SetNode(items) =>
      forall i | 0 <= i < |items| ensures Rewrite(node, m).items[i] == Rewrite(node, m').items[i] {
        assert Slots(node)[i] == items[i];
      }
    case Buffer =>
    case Instance(_) =>
  }

  lemma RewriteStable(h: Heap, node: Node, m: map<Id, Id>, m': map<Id, Id>)
    requires Grown(m, m') && (forall v | v in Slots(node) :: Settled(h, m, v))
    requires forall id | id in m' :: id in h && !(h[id].Buffer?)
    ensures Rewrite(node, m) == Rewrite(node, m')
  {
    forall i | 0 <= i < |Slots(node)|
      ensures StandIn(m, Slots(node)[i]) == StandIn(m', Slots(node)[i])
    {
      assert Slots(node)[i] in Slots(node);
      assert Settled(h, m, Slots(node)[i]);
    }
    RewriteAgrees(node, m, m');
  }

  lemma DoneStable(h: Heap, key: string, nodes: Heap, nodes': Heap, seen: map<Id, Id>, seen': map<Id, Id>, done: set<Id>)
    requires DoneOk(h, nodes, seen, done) && Grown(seen, seen') && StandsIn(h, key, seen', nodes')
    requires forall id | id in done :: id in nodes' && nodes'[id] == nodes[id]
    ensures DoneOk(h, nodes', seen', done)
  {
    forall id | id in done
      ensures nodes'[id] == Rewrite(h[id], seen') && forall v | v in Slots(h[id]) :: Settled(h, seen', v)
    {
      RewriteStable(h, h[id], seen, seen');
      forall v | v in Slots(h[id]) ensures Settled(h, seen', v) { assert Settled(h, seen, v); }
    }
  }

  /** Two distinct values of the old heap never get the same stand-in. */
  lemma StandInInjective(h: Heap, key: string, m: map<Id, Id>, nodes: Heap, v: Val, w: Val)
    requires StandsIn(h, key, m, nodes) && v != w
    requires (v.Ref? ==> v.id in h) && (w.Ref? ==> w.id in h)
    ensures StandIn(m, v) != StandIn(m, w)
  {
  }

  /** A container met for the first time is queued. */
  lemma WalkingQueues(h: Heap, key: string, root: Id,
                      nodes: Heap, next: nat, seen: map<Id, Id>, pending: seq<Id>, done: set<Id>, id: Id)
    requires Walking(h, key, root, nodes, next, seen, pending, done)
    requires id in h && id !in seen && !Stamped(h, key, id) && !h[id].Buffer? && Reaches(h, key, root, id)
    ensures Walking(h, key, root, nodes, next, seen[id := id], pending + [id], done)
  {
    var seen' := seen[id := id];
    assert forall i | i in pending + [id] :: i in pending || i == id;
    assert pending <= pending + [id] && (pending + [id])[|pending|] == id;
    assert forall i | i in pending :: i in pending + [id];
    assert forall n | n in nodes && n !in h :: exists d :: d in seen' && seen'[d] == n by {
      forall n | n in nodes && n !in h ensures exists d :: d in seen' && seen'[d] == n {
        var d :| d in seen && seen[d] == n;
        assert d in seen' && seen'[d] == n;
      }
    }
  }

  /** A descriptor met for the first time is built. */
  lemma WalkingBuilds(h: Heap, key: string, root: Id,
                      nodes: Heap, next: nat, seen: map<Id, Id>, pending: seq<Id>, done: set<Id>, id: Id)
    requires Walking(h, key, root, nodes, next, seen, pending, done)
    requires id in h && id !in seen && Stamped(h, key, id) && Reaches(h, key, root, id)
    ensures Walking(h, key, root, nodes[next := Instance(BrandOf(h[id], key).value)], next + 1,
                    seen[id := next], pending, done)
  {
    var seen' := seen[id := next];
    var nodes' := nodes[next := Instance(BrandOf(h[id], key).value)];
    assert next !in nodes && next !in h;
    assert StandsIn(h, key, seen', nodes') by {
      forall i | i in seen ensures seen[i] != next { assert seen[i] in nodes; }
    }
    forall n | n in nodes' && n !in h ensures exists d :: d in seen' && seen'[d] == n {
      if n == next {
        assert seen'[id] == n;
      } else {
        var d :| d in seen && seen[d] == n;
        assert d in seen' && seen'[d] == n;
      }
    }
  }

  /** What a visit of slot `v` leaves alone, and what its answer says. */
  ghost predicate Visited(h: Heap, v: Val, nodes: Heap, seen: map<Id, Id>, nodes': Heap, seen': map<Id, Id>,
                          r: Result<Option<Val>, Failure>)
  {
    && Grown(seen, seen')
    && (forall id | id in nodes :: id in nodes' && nodes'[id] == nodes[id])
    && (r.Ok? ==> Settled(h, seen', v))
    && (r.Ok? ==> if r.value.Some? then r.value.value == StandIn(seen', v) != v else StandIn(seen', v) == v)
  }

  /** The walked heap differs from the original in ways that a visit does not look at. */
  ghost predicate SameKinds(h: Heap, key: string, nodes: Heap)
  {
    forall id | id in h :: id in nodes && BrandOf(nodes[id], key) == BrandOf(h[id], key)
                        && (nodes[id].Buffer? <==> h[id].Buffer?)
                        && (nodes[id].Object? <==> h[id].Object?)
  }

  /** Nothing whose construction fails was built. */
  ghost predicate Sound(h: Heap, key: string, seen: map<Id, Id>, broken: set<Id>)
  {
    forall id | id in seen && Stamped(h, key, id) :: id !in broken
  }

  class Walk {
    var nodes: Heap
    var next: nat
    var seen: map<Id, Id>
    var pending: seq<Id>

    constructor (h: Heap, next: nat)
      ensures nodes == h && this.next == next && seen == map[] && pending == []
    {
      nodes, this.next, seen, pending := h, next, map[], [];
    }

    /**
     * One slot: `Some` is the value to write in its place. A container met for the first
     * time is queued; a descriptor met for the first time is built.
     */
    method Visit(v: Val, key: string, broken: set<Id>, ghost h: Heap, ghost root: Id, ghost done: set<Id>)
        returns (r: Result<Option<Val>, Failure>)
      requires Walking(h, key, root, nodes, next, seen, pending, done) && SameKinds(h, key, nodes)
      requires v.Ref? ==> v.id in h && Reaches(h, key, root, v.id)
      requires Sound(h, key, seen, broken)
      modifies this
      ensures Sound(h, key, seen, broken)
      ensures Walking(h, key, root, nodes, next, seen, pending, done) && SameKinds(h, key, nodes)
      ensures Visited(h, v, old(nodes), old(seen), nodes, seen, r)
      ensures seen.Keys <= old(seen.Keys) + (if v.Ref? then {v.id} else {})
      ensures !v.Ref? ==> pending == old(pending)
      ensures r.Err? ==> r.error == Malformed && v.Ref? && v.id in broken && Stamped(h, key, v.id)
    {
      hide Walking, Reaches;
      if !v.Ref? { return Ok(None); }
      assert StandsIn(h, key, seen, nodes) by { WalkingStandsIn(h, key, root, nodes, next, seen, pending, done); }
      WalkingKeys(h, key, root, nodes, next, seen, pending, done);
      if nodes[v.id].Buffer? { return Ok(None); }
      var id := v.id;
      if id in seen {
        var standIn := seen[id];
        return Ok(if standIn == id then None else Some(Ref(standIn)));
      }
      if !nodes[id].Array? && !nodes[id].MapNode? && !nodes[id].SetNode? {
        var tag := BrandOf(nodes[id], key);
        if tag.Some? {
          if id in broken { return Err(Malformed); }
          WalkingBuilds(h, key, root, nodes, next, seen, pending, done, id);
          var built := next;
          next := next + 1;
          nodes := nodes[built := Instance(tag.value)];
          seen := seen[id := built];
          return Ok(Some(Ref(built)));
        }
      }
      WalkingQueues(h, key, root, nodes, next, seen, pending, done, id);
      seen := seen[id := id];
      pending := pending + [id];
      r := Ok(None);
    }

    ghost predicate MidWalk(h: Heap, key: string, root: Id, done: set<Id>, current: Id)
      reads this
    {
      Mid(h, key, root, nodes, next, seen, pending, done, current)
    }

    /** A slot of the node being walked. */
    method VisitSlot(v: Val, key: string, broken: set<Id>,
                     ghost h: Heap, ghost root: Id, ghost done: set<Id>, ghost current: Id)
        returns (r: Result<Option<Val>, Failure>)
      requires MidWalk(h, key, root, done, current) && v in Slots(h[current])
      requires Sound(h, key, seen, broken)
      modifies this
      ensures Sound(h, key, seen, broken)
      ensures MidWalk(h, key, root, done, current)
      ensures Visited(h, v, old(nodes), old(seen), nodes, seen, r) && Kept(h, old(seen), seen)
      ensures r.Err? ==> Blocked(h, key, root, broken, r.error)
    {
      hide Sound, Walking, Reaches, Slots, Rewrite;
      ghost var nodes0, seen0 := nodes, seen;
      SlotReached(h, key, root, nodes, next, seen, pending, done, current, v);
      r := Visit(v, key, broken, h, root, done);
      MidStable(h, key, root, nodes0, seen0, nodes, next, seen, pending, done, current);
      WalkingStandsIn(h, key, root, nodes, next, seen, pending, done);
      KeptByGrowth(h, key, nodes, seen0, seen);
      if r.Err? { assert v.id in broken && Stamped(h, key, v.id) && Reaches(h, key, root, v.id); }
    }

    method WalkArray(current: Id, key: string, broken: set<Id>, ghost h: Heap, ghost root: Id, ghost done: set<Id>)
        returns (r: Result<(), Failure>)
      requires MidWalk(h, key, root, done, current) && h[current].Array? && nodes[current] == h[current]
      requires Sound(h, key, seen, broken)
      modifies this
      ensures Sound(h, key, seen, broken)
      ensures r.Ok? ==> Walking(h, key, root, nodes, next, seen, pending, done)
      ensures r.Ok? ==> Consistent(h, key, nodes, seen, done)
      ensures Grown(old(seen), seen)
      ensures r.Err? ==> Blocked(h, key, root, broken, r.error)
    {
      hide Sound, Walking, Reaches, Rewrite, WellFormed, SameKinds, DoneOk, RestSame, StandsIn;
      ghost var was := h[current].items;
      var length := |nodes[current].items|;
      for i := 0 to length
        invariant Sound(h, key, seen, broken)
        invariant MidWalk(h, key, root, done, current) && Grown(old(seen), seen)
        invariant nodes[current].Array? && |nodes[current].items| == length == |was|
        invariant forall j :: 0 <= j < i ==> nodes[current].items[j] == StandIn(seen, was[j]) && Settled(h, seen, was[j])
        invariant forall j :: i <= j < length ==> nodes[current].items[j] == was[j]
      {
        var item := nodes[current].items[i];
        var visited := VisitSlot(item, key, broken, h, root, done, current);
        if visited.Err? { return Err(visited.error); }
        if visited.value.Some? {
          var written := Array(nodes[current].items[i := visited.value.value]);
          MidWrite(h, key, root, nodes, next, seen, pending, done, current, written);
          nodes := nodes[current := written];
        }
      }
      ArrayFinished(h[current], nodes[current], seen);
      MidEnds(h, key, root, nodes, next, seen, pending, done, current);
      r := Ok(());
    }

    method WalkObject(current: Id, key: string, broken: set<Id>, ghost h: Heap, ghost root: Id, ghost done: set<Id>)
        returns (r: Result<(), Failure>)
      requires MidWalk(h, key, root, done, current) && h[current].Object? && nodes[current] == h[current]
      requires Sound(h, key, seen, broken)
      modifies this
      ensures Sound(h, key, seen, broken)
      ensures r.Ok? ==> Walking(h, key, root, nodes, next, seen, pending, done)
      ensures r.Ok? ==> Consistent(h, key, nodes, seen, done)
      ensures Grown(old(seen), seen)
      ensures r.Err? ==> Blocked(h, key, root, broken, r.error)
    {
      hide Sound, Walking, Reaches, Rewrite, BrandIn, WellFormed, SameKinds, DoneOk, RestSame, StandsIn;
      ghost var was := h[current].props;
      var length := |nodes[current].props|;
      for i := 0 to length
        invariant Sound(h, key, seen, broken)
        invariant MidWalk(h, key, root, done, current) && Grown(old(seen), seen)
        invariant nodes[current].Object? && |nodes[current].props| == length == |was|
        invariant forall j :: 0 <= j < i ==> nodes[current].props[j] == (was[j].0, StandIn(seen, was[j].1))
        invariant forall j :: 0 <= j < i ==> Settled(h, seen, was[j].1)
        invariant forall j :: i <= j < length ==> nodes[current].props[j] == was[j]
      {
        var item := nodes[current].props[i].1;
        assert Slots(h[current])[i] == item;
        var visited := VisitSlot(item, key, broken, h, root, done, current);
        if visited.Err? { return Err(visited.error); }
        if visited.value.Some? {
          var props := nodes[current].props;
          BrandKept(props, key, i, visited.value.value);
          var written := Object(props[i := (props[i].0, visited.value.value)]);
          MidWrite(h, key, root, nodes, next, seen, pending, done, current, written);
          nodes := nodes[current := written];
        }
      }
      ObjectFinished(h[current], nodes[current], seen);
      MidEnds(h, key, root, nodes, next, seen, pending, done, current);
      r := Ok(());
    }

    method WalkSet(current: Id, key: string, broken: set<Id>, ghost h: Heap, ghost root: Id, ghost done: set<Id>)
        returns (r: Result<(), Failure>)
      requires MidWalk(h, key, root, done, current) && h[current].SetNode? && nodes[current] == h[current]
      requires Sound(h, key, seen, broken)
      modifies this
      ensures Sound(h, key, seen, broken)
      ensures r.Ok? ==> Walking(h, key, root, nodes, next, seen, pending, done)
      ensures r.Ok? ==> Consistent(h, key, nodes, seen, done)
      ensures Grown(old(seen), seen)
      ensures r.Err? ==> Blocked(h, key, root, broken, r.error)
    {
      hide Sound, Walking, Reaches, Rewrite, WellFormed, SameKinds, DoneOk, RestSame, StandsIn;
      var entries := nodes[current].items;
      var items: seq<Val> := [];
      var changed := false;
      for i := 0 to |entries|
        invariant Grown(old(seen), seen)
        invariant Sound(h, key, seen, broken)
        invariant MidWalk(h, key, root, done, current) && nodes[current] == h[current] && |items| == i
        invariant forall j :: 0 <= j < i ==> items[j] == StandIn(seen, entries[j]) && Settled(h, seen, entries[j])
        invariant !changed ==> items == entries[..i]
      {
        var item := entries[i];
        var visited := VisitSlot(item, key, broken, h, root, done, current);
        if visited.Err? { return Err(visited.error); }
        if visited.value.Some? { changed := true; }
        items := items + [if visited.value.Some? then visited.value.value else item];
      }
      if changed {
        SetStandInsDistinct(h, key, root, nodes, next, seen, pending, done, current, items);
        RewriteSet(current, items, h, key, root, done);
      }
      SetFinished(h[current], nodes[current], seen);
      MidEnds(h, key, root, nodes, next, seen, pending, done, current);
      r := Ok(());
    }

    /** Clears the set and adds the items again: nothing merges, nothing moves. */
    method RewriteSet(current: Id, items: seq<Val>, ghost h: Heap, ghost key: string, ghost root: Id, ghost done: set<Id>)
      requires MidWalk(h, key, root, done, current) && nodes[current].SetNode? && Distinct(items)
      modifies this`nodes
      ensures MidWalk(h, key, root, done, current) && nodes[current] == SetNode(items)
    {
      hide Walking, Reaches, Rewrite;
      MidWrite(h, key, root, nodes, next, seen, pending, done, current, SetNode([]));
      nodes := nodes[current := SetNode([])];
      for j := 0 to |items|
        invariant MidWalk(h, key, root, done, current) && nodes[current] == SetNode(items[..j])
      {
        var added := SetNode(SetAdd(nodes[current].items, items[j]));
        MidWrite(h, key, root, nodes, next, seen, pending, done, current, added);
        nodes := nodes[current := added];
      }
    }

    method WalkMap(current: Id, key: string, broken: set<Id>, ghost h: Heap, ghost root: Id, ghost done: set<Id>)
        returns (r: Result<(), Failure>)
      requires MidWalk(h, key, root, done, current) && h[current].MapNode? && nodes[current] == h[current]
      requires Sound(h, key, seen, broken)
      modifies this
      ensures Sound(h, key, seen, broken)
      ensures r.Ok? ==> Walking(h, key, root, nodes, next, seen, pending, done)
      ensures r.Ok? ==> Consistent(h, key, nodes, seen, done)
      ensures Grown(old(seen), seen)
      ensures r.Err? ==> Blocked(h, key, root, broken, r.error)
    {
      hide Sound, Walking, Reaches, Rewrite, WellFormed, SameKinds, DoneOk, RestSame, StandsIn;
      var entries := nodes[current].entries;
      var pairs: seq<(Val, Val)> := [];
      var changed := false;
      for i := 0 to |entries|
        invariant Grown(old(seen), seen)
        invariant Sound(h, key, seen, broken)
        invariant MidWalk(h, key, root, done, current) && nodes[current] == h[current] && |pairs| == i
        invariant forall j :: 0 <= j < i ==>
          && pairs[j] == (StandIn(seen, entries[j].0), StandIn(seen, entries[j].1))
          && Settled(h, seen, entries[j].0) && Settled(h, seen, entries[j].1)
        invariant !changed ==> pairs == entries[..i]
      {
        var (k, v) := entries[i];
        assert k in Slots(h[current]) && v in Slots(h[current]) by {
          assert Flat(entries)[2 * i] == k && Flat(entries)[2 * i + 1] == v;
        }
        var visitedK := VisitSlot(k, key, broken, h, root, done, current);
        if visitedK.Err? { return Err(visitedK.error); }
        var visitedV := VisitSlot(v, key, broken, h, root, done, current);
        if visitedV.Err? { return Err(visitedV.error); }
        if visitedK.value.Some? || visitedV.value.Some? { changed := true; }
        pairs := pairs + [(if visitedK.value.Some? then visitedK.value.value else k,
                           if visitedV.value.Some? then visitedV.value.value else v)];
      }
      if changed {
        MapStandInsDistinct(h, key, root, nodes, next, seen, pending, done, current, pairs);
        RewriteMap(current, pairs, h, key, root, done);
      }
      MapFinished(h[current], nodes[current], seen);
      MapSettled(h, seen, entries);
      MidEnds(h, key, root, nodes, next, seen, pending, done, current);
      r := Ok(());
    }

    /** Clears the map and sets the pairs again: nothing merges, nothing moves. */
    method RewriteMap(current: Id, pairs: seq<(Val, Val)>, ghost h: Heap, ghost key: string, ghost root: Id, ghost done: set<Id>)
      requires MidWalk(h, key, root, done, current) && nodes[current].MapNode?
      requires forall i, j :: 0 <= i < j < |pairs| ==> pairs[i].0 != pairs[j].0
      modifies this`nodes
      ensures MidWalk(h, key, root, done, current) && nodes[current] == MapNode(pairs)
    {
      hide Walking, Reaches, Rewrite;
      MidWrite(h, key, root, nodes, next, seen, pending, done, current, MapNode([]));
      nodes := nodes[current := MapNode([])];
      for j := 0 to |pairs|
        invariant MidWalk(h, key, root, done, current) && nodes[current] == MapNode(pairs[..j])
      {
        PutNew(pairs[..j], pairs[j].0, pairs[j].1);
        var put := MapNode(MapPut(nodes[current].entries, pairs[j].0, pairs[j].1));
        MidWrite(h, key, root, nodes, next, seen, pending, done, current, put);
        nodes := nodes[current := put];
      }
    }

    method WalkOne(current: Id, key: string, broken: set<Id>, ghost h: Heap, ghost root: Id, ghost done: set<Id>)
        returns (r: Result<(), Failure>)
      requires MidWalk(h, key, root, done, current) && nodes[current] == h[current]
      requires Sound(h, key, seen, broken)
      modifies this
      ensures Sound(h, key, seen, broken)
      ensures r.Ok? ==> Walking(h, key, root, nodes, next, seen, pending, done)
      ensures r.Ok? ==> Consistent(h, key, nodes, seen, done)
      ensures Grown(old(seen), seen)
      ensures r.Err? ==> Blocked(h, key, root, broken, r.error)
    {
      hide Sound, Walking, Reaches;
      if nodes[current].MapNode? { r := WalkMap(current, key, broken, h, root, done); return; }
      if nodes[current].SetNode? { r := WalkSet(current, key, broken, h, root, done); return; }
      if nodes[current].Array? { r := WalkArray(current, key, broken, h, root, done); return; }
      if nodes[current].Object? { r := WalkObject(current, key, broken, h, root, done); return; }
      // A buffer is never queued; a host instance has no enumerable properties.
      MidEnds(h, key, root, nodes, next, seen, pending, done, current);
      r := Ok(());
    }

    /**
     * The whole walk over a fresh `Walk`. `broken`: descriptors whose construction fails;
     * `stop(i)`: the isolate is terminating when the i-th queued object comes up.
     */
    method Run(root: Val, key: string, broken: set<Id>, stop: nat -> bool) returns (r: Result<Val, Failure>, ghost walked: seq<Id>)
      requires seen == map[] && pending == []
      requires WellFormed(nodes) && (forall id | id in nodes :: id < next) && (root.Ref? ==> root.id in nodes)
      modifies this
      ensures r.Ok? ==> Rehydrated(old(nodes), key, root, nodes, r.value, seen)
      ensures r.Ok? ==> Distinct(walked)
      ensures r.Ok? ==> forall id :: id in walked <==> id in seen && !Stamped(old(nodes), key, id)
      ensures r.Ok? && root.Ref? ==> !Blocked(old(nodes), key, root.id, broken, Malformed)
      ensures r.Ok? ==> forall i :: 0 <= i < |walked| ==> !stop(i)
      ensures r.Err? && r.error == Malformed ==>
                root.Ref? && Blocked(old(nodes), key, root.id, broken, Malformed)
      ensures r.Err? && r.error == Interrupted ==> stop(|walked|)
    {
      hide Walking, Reaches, WellFormed, Sound, Blocked, Rehydrated, Rewrite, Slots, DoneOk, RestSame, SameKinds, StandsIn, BrandOf;
      ghost var h, done, start := nodes, {}, if root.Ref? then root.id else 0;
      walked := [];
      var turn := 0;
      WalkingStarts(h, key, start, next);
      assert Sound(h, key, seen, broken) by { NothingBuilt(h, key, broken); }
      if root.Ref? { ReachesSelf(h, key, start); }
      var first := Visit(root, key, broken, h, start, done);
      if first.Err? {
        assert Blocked(h, key, start, broken, Malformed) by { RootBlocked(h, key, start, broken); }
        return Err(first.error), walked;
      }
      if first.value.Some? {
        RootReplaced(h, key, root, nodes, next, seen, pending);
        NotBlocked(h, key, root, nodes, first.value.value, seen, broken);
        return Ok(first.value.value), walked;
      }
      NothingDone(h, key, nodes, seen);
      while pending != []
        invariant Walking(h, key, start, nodes, next, seen, pending, done) && Consistent(h, key, nodes, seen, done)
        invariant Sound(h, key, seen, broken) && forall i :: 0 <= i < turn ==> !stop(i)
        invariant turn == |walked| && Settled(h, seen, root) && StandIn(seen, root) == root
        invariant root.Ref? || (seen == map[] && pending == [])
        invariant Distinct(walked) && (forall id :: id in walked <==> id in done) && done <= h.Keys
        decreases h.Keys - done
      {
        var current := pending[|pending| - 1];
        WalkingPops(h, key, start, nodes, next, seen, pending, done);
        pending := pending[..|pending| - 1];
        if stop(turn) { return Err(Interrupted), walked; }
        ghost var before := done;
        done := done + {current};
        walked := walked + [current];
        turn := turn + 1;
        assert done - {current} == before;
        ghost var seen0 := seen;
        MidBegins(h, key, start, nodes, next, seen, pending, done, current);
        var one := WalkOne(current, key, broken, h, start, done);
        if one.Err? {
          OnlyMalformed(h, key, start, broken, one.error);
          return Err(one.error), walked;
        }
        WalkingStandsIn(h, key, start, nodes, next, seen, pending, done);
        KeptByGrowth(h, key, nodes, seen0, seen);
      }
      WalkComplete(h, key, root, nodes, next, seen, done);
      NotBlocked(h, key, root, nodes, root, seen, broken);
      r := Ok(root);
    }
  }

  // ── The result ──────────────────────────────────────────────────────────

  /**
   * The heap `h'` and the value `result` are `h` and `root` with every slot of every
   * container reachable through containers mapped by one stand-in function `m`.
   */
  ghost predicate Rehydrated(h: Heap, key: string, root: Val, h': Heap, result: Val, m: map<Id, Id>)
  {
    && StandsIn(h, key, m, h')
    && (forall id :: id in m <==> id in h && !h[id].Buffer? && root.Ref? && Reaches(h, key, root.id, id))
    && result == StandIn(m, root)
    && (forall id | id in h :: id in h' && h'[id] == if id in m && !Stamped(h, key, id) then Rewrite(h[id], m) else h[id])
    && (forall id | id in h' && id !in h :: exists d :: d in m && m[d] == id)
  }

  lemma NothingDone(h: Heap, key: string, nodes: Heap, seen: map<Id, Id>)
    requires forall id | id in h :: id in nodes && nodes[id] == h[id]
    ensures Consistent(h, key, nodes, seen, {})
  {
  }

  /** A node is taken up: the others stay as they are. */
  lemma MidBegins(h: Heap, key: string, root: Id, nodes: Heap, next: nat, seen: map<Id, Id>, pending: seq<Id>,
                  done: set<Id>, current: Id)
    requires WellFormed(h) && Walking(h, key, root, nodes, next, seen, pending, done)
    requires current in h && current in done && current in nodes && Consistent(h, key, nodes, seen, done - {current})
    ensures Mid(h, key, root, nodes, next, seen, pending, done, current) && nodes[current] == h[current]
  {
    hide Walking, WellFormed, Rewrite, Slots, BrandOf;
  }

  lemma OnlyMalformed(h: Heap, key: string, root: Id, broken: set<Id>, error: Failure)
    ensures Blocked(h, key, root, broken, error) ==> error == Malformed
  {
  }

  lemma NothingBuilt(h: Heap, key: string, broken: set<Id>)
    ensures Sound(h, key, map[], broken)
  {
  }

  lemma RootBlocked(h: Heap, key: string, root: Id, broken: set<Id>)
    requires root in broken && Stamped(h, key, root)
    ensures Blocked(h, key, root, broken, Malformed)
  {
    ReachesSelf(h, key, root);
  }

  /** A walk that ended well met no descriptor that cannot be built, for there is none to meet. */
  lemma NotBlocked(h: Heap, key: string, root: Val, h': Heap, result: Val, m: map<Id, Id>, broken: set<Id>)
    requires Rehydrated(h, key, root, h', result, m) && Sound(h, key, m, broken)
    ensures root.Ref? ==> !Blocked(h, key, root.id, broken, Malformed)
  {
    hide Reaches, Rewrite;
  }

  lemma {:induction false} BrandKept(props: seq<(string, Val)>, key: string, i: nat, v: Val)
    requires i < |props| && props[i].1.Ref? && v.Ref?
    ensures BrandIn(props[i := (props[i].0, v)], key) == BrandIn(props, key)
  {
    var written := props[i := (props[i].0, v)];
    if i > 0 {
      assert written[1..] == props[1..][i - 1 := (props[i].0, v)];
      BrandKept(props[1..], key, i - 1, v);
    } else {
      assert written[1..] == props[1..];
    }
  }

  lemma ObjectFinished(was: Node, now: Node, seen: map<Id, Id>)
    requires was.Object? && now.Object? && |was.props| == |now.props|
    requires forall j :: 0 <= j < |was.props| ==> now.props[j] == (was.props[j].0, StandIn(seen, was.props[j].1))
    ensures now == Rewrite(was, seen)
  {
  }

  lemma SetFinished(was: Node, now: Node, seen: map<Id, Id>)
    requires was.SetNode? && now.SetNode? && |was.items| == |now.items|
    requires forall j :: 0 <= j < |was.items| ==> now.items[j] == StandIn(seen, was.items[j])
    ensures now == Rewrite(was, seen)
  {
  }

  lemma MapFinished(was: Node, now: Node, seen: map<Id, Id>)
    requires was.MapNode? && now.MapNode? && |was.entries| == |now.entries|
    requires forall j :: 0 <= j < |was.entries| ==>
               now.entries[j] == (StandIn(seen, was.entries[j].0), StandIn(seen, was.entries[j].1))
    ensures now == Rewrite(was, seen)
  {
  }

  lemma MapSettled(h: Heap, seen: map<Id, Id>, entries: seq<(Val, Val)>)
    requires forall j :: 0 <= j < |entries| ==> Settled(h, seen, entries[j].0) && Settled(h, seen, entries[j].1)
    ensures forall v | v in Slots(MapNode(entries)) :: Settled(h, seen, v)
  {
    forall v | v in Flat(entries) ensures Settled(h, seen, v) {
      var i :| 0 <= i < |Flat(entries)| && Flat(entries)[i] == v;
      assert v == if i % 2 == 0 then entries[i / 2].0 else entries[i / 2].1 by {
        assert i == 2 * (i / 2) + i % 2;
      }
    }
  }

  lemma SetStandInsDistinct(h: Heap, key: string, root: Id, nodes: Heap, next: nat, seen: map<Id, Id>,
                            pending: seq<Id>, done: set<Id>, current: Id, items: seq<Val>)
    requires Mid(h, key, root, nodes, next, seen, pending, done, current) && h[current].SetNode?
    requires |items| == |h[current].items|
    requires forall j :: 0 <= j < |items| ==> items[j] == StandIn(seen, h[current].items[j])
    ensures Distinct(items)
  {
    hide Reaches;
    var was := h[current].items;
    forall i, j | 0 <= i < j < |items| ensures items[i] != items[j] {
      assert was[i] in Slots(h[current]) && was[j] in Slots(h[current]);
      StandInInjective(h, key, seen, nodes, was[i], was[j]);
    }
  }

  lemma MapStandInsDistinct(h: Heap, key: string, root: Id, nodes: Heap, next: nat, seen: map<Id, Id>,
                            pending: seq<Id>, done: set<Id>, current: Id, pairs: seq<(Val, Val)>)
    requires Mid(h, key, root, nodes, next, seen, pending, done, current) && h[current].MapNode?
    requires |pairs| == |h[current].entries|
    requires forall j :: 0 <= j < |pairs| ==> pairs[j].0 == StandIn(seen, h[current].entries[j].0)
    ensures forall i, j :: 0 <= i < j < |pairs| ==> pairs[i].0 != pairs[j].0
  {
    hide Reaches;
    var was := h[current].entries;
    forall i, j | 0 <= i < j < |pairs| ensures pairs[i].0 != pairs[j].0 {
      assert Flat(was)[2 * i] == was[i].0 && Flat(was)[2 * j] == was[j].0;
      assert was[i].0 in Slots(h[current]) && was[j].0 in Slots(h[current]);
      StandInInjective(h, key, seen, nodes, was[i].0, was[j].0);
    }
  }

  /** Why a walk stops: an interrupted isolate, or a reachable descriptor that cannot be built. */
  ghost predicate Blocked(h: Heap, key: string, root: Id, broken: set<Id>, error: Failure)
  {
    error == Malformed && exists id :: id in broken && Stamped(h, key, id) && Reaches(h, key, root, id)
  }

  ghost predicate Consistent(h: Heap, key: string, nodes: Heap, seen: map<Id, Id>, done: set<Id>)
  {
    SameKinds(h, key, nodes) && DoneOk(h, nodes, seen, done) && RestSame(h, nodes, done)
  }

  /** The invariant with one node, `current`, part way through. */
  ghost predicate Mid(h: Heap, key: string, root: Id, nodes: Heap, next: nat, seen: map<Id, Id>, pending: seq<Id>,
                      done: set<Id>, current: Id)
  {
    && WellFormed(h) && current in h && current in done && current in nodes
    && Walking(h, key, root, nodes, next, seen, pending, done)
    && SameKinds(h, key, nodes) && DoneOk(h, nodes, seen, done - {current}) && RestSame(h, nodes, done)
  }

  lemma SlotReached(h: Heap, key: string, root: Id, nodes: Heap, next: nat, seen: map<Id, Id>, pending: seq<Id>,
                    done: set<Id>, current: Id, v: Val)
    requires Mid(h, key, root, nodes, next, seen, pending, done, current) && v in Slots(h[current])
    ensures v.Ref? ==> v.id in h && Reaches(h, key, root, v.id)
  {
    if v.Ref? {
      assert Edge(h, key, current, v.id);
      ReachesStep(h, key, root, current, v.id);
    }
  }

  lemma MidStable(h: Heap, key: string, root: Id, nodes0: Heap, seen0: map<Id, Id>,
                  nodes: Heap, next: nat, seen: map<Id, Id>, pending: seq<Id>, done: set<Id>, current: Id)
    requires WellFormed(h) && current in h && current in done && current in nodes0
    requires DoneOk(h, nodes0, seen0, done - {current}) && RestSame(h, nodes0, done)
    requires Walking(h, key, root, nodes, next, seen, pending, done) && SameKinds(h, key, nodes)
    requires Grown(seen0, seen) && forall id | id in nodes0 :: id in nodes && nodes[id] == nodes0[id]
    ensures Mid(h, key, root, nodes, next, seen, pending, done, current)
  {
    DoneStable(h, key, nodes0, nodes, seen0, seen, done - {current});
  }

  /** What was settled stays settled, with the same stand-in. */
  ghost predicate Kept(h: Heap, m: map<Id, Id>, m': map<Id, Id>)
  {
    forall v :: Settled(h, m, v) ==> Settled(h, m', v) && StandIn(m', v) == StandIn(m, v)
  }

  lemma KeptByGrowth(h: Heap, key: string, nodes: Heap, m: map<Id, Id>, m': map<Id, Id>)
    requires Grown(m, m') && StandsIn(h, key, m', nodes)
    ensures Kept(h, m, m')
  {
  }

  lemma WalkingWrite(h: Heap, key: string, root: Id, nodes: Heap, next: nat, seen: map<Id, Id>, pending: seq<Id>,
                     done: set<Id>, current: Id, node: Node)
    requires Walking(h, key, root, nodes, next, seen, pending, done) && current in h && current in nodes
    ensures Walking(h, key, root, nodes[current := node], next, seen, pending, done)
  {
    hide Reaches, BrandOf, Distinct;
    var nodes' := nodes[current := node];
    assert nodes'.Keys == nodes.Keys;
    assert StandsIn(h, key, seen, nodes');
  }

  lemma MidWrite(h: Heap, key: string, root: Id, nodes: Heap, next: nat, seen: map<Id, Id>, pending: seq<Id>,
                 done: set<Id>, current: Id, node: Node)
    requires Mid(h, key, root, nodes, next, seen, pending, done, current)
    requires BrandOf(node, key) == BrandOf(nodes[current], key)
    requires (node.Buffer? <==> nodes[current].Buffer?) && (node.Object? <==> nodes[current].Object?)
    ensures Mid(h, key, root, nodes[current := node], next, seen, pending, done, current)
  {
    hide Walking, Reaches, Rewrite, Slots, WellFormed;
    WalkingWrite(h, key, root, nodes, next, seen, pending, done, current, node);
  }

  lemma ArrayFinished(was: Node, now: Node, seen: map<Id, Id>)
    requires was.Array? && now.Array? && |was.items| == |now.items|
    requires forall j :: 0 <= j < |was.items| ==> now.items[j] == StandIn(seen, was.items[j])
    ensures now == Rewrite(was, seen)
  {
  }

  lemma MidEnds(h: Heap, key: string, root: Id, nodes: Heap, next: nat, seen: map<Id, Id>, pending: seq<Id>,
                done: set<Id>, current: Id)
    requires Mid(h, key, root, nodes, next, seen, pending, done, current)
    requires nodes[current] == Rewrite(h[current], seen)
    requires forall v | v in Slots(h[current]) :: Settled(h, seen, v)
    ensures Walking(h, key, root, nodes, next, seen, pending, done)
    ensures Consistent(h, key, nodes, seen, done)
  {
  }

  lemma WalkingStandsIn(h: Heap, key: string, root: Id,
                        nodes: Heap, next: nat, seen: map<Id, Id>, pending: seq<Id>, done: set<Id>)
    requires Walking(h, key, root, nodes, next, seen, pending, done)
    ensures StandsIn(h, key, seen, nodes)
  {
  }

  lemma WalkingKeys(h: Heap, key: string, root: Id,
                    nodes: Heap, next: nat, seen: map<Id, Id>, pending: seq<Id>, done: set<Id>)
    requires Walking(h, key, root, nodes, next, seen, pending, done)
    ensures h.Keys <= nodes.Keys && next !in nodes
  {
  }

  lemma WalkingStarts(h: Heap, key: string, root: Id, next: nat)
    requires forall id | id in h :: id < next
    ensures Walking(h, key, root, h, next, map[], [], {}) && Consistent(h, key, h, map[], {})
  {
  }

  lemma WalkingPops(h: Heap, key: string, root: Id, nodes: Heap, next: nat, seen: map<Id, Id>, pending: seq<Id>,
                    done: set<Id>)
    requires Walking(h, key, root, nodes, next, seen, pending, done) && pending != []
    ensures var current := pending[|pending| - 1];
            && current in h && current in nodes && current !in done
            && Walking(h, key, root, nodes, next, seen, pending[..|pending| - 1], done + {current})
  {
    hide Reaches, BrandOf;
    var rest, current := pending[..|pending| - 1], pending[|pending| - 1];
    assert current in pending;
    assert forall id | id in rest :: id in pending && id != current;
    forall id | id in pending ensures id in rest || id == current {
      var i :| 0 <= i < |pending| && pending[i] == id;
      if i < |rest| { assert rest[i] == id; }
    }
  }

  /** The root itself is a descriptor: it is built, and nothing else happens. */
  lemma RootReplaced(h: Heap, key: string, root: Val, nodes: Heap, next: nat, seen: map<Id, Id>, pending: seq<Id>)
    requires root.Ref? && root.id in h && StandIn(seen, root) != root
    requires Walking(h, key, root.id, nodes, next, seen, pending, {}) && root.id in seen
    requires seen.Keys == {root.id} && forall id | id in h :: nodes[id] == h[id]
    ensures Rehydrated(h, key, root, nodes, StandIn(seen, root), seen)
    ensures forall id | id in seen :: Stamped(h, key, id)
  {
    assert Stamped(h, key, root.id);
    forall id | Reaches(h, key, root.id, id) ensures id == root.id {
      var p :| Path(h, key, p) && p[0] == root.id && p[|p| - 1] == id;
      assert |p| > 1 ==> Edge(h, key, p[0], p[1]);
    }
    ReachesSelf(h, key, root.id);
  }

  /** An empty worklist means everything reachable has been dealt with. */
  lemma WalkComplete(h: Heap, key: string, root: Val, nodes: Heap, next: nat, seen: map<Id, Id>, done: set<Id>)
    requires WellFormed(h) && (root.Ref? ==> root.id in h)
    requires Walking(h, key, if root.Ref? then root.id else 0, nodes, next, seen, [], done)
    requires Consistent(h, key, nodes, seen, done) && Settled(h, seen, root) && StandIn(seen, root) == root
    requires root.Ref? || seen == map[]
    ensures Rehydrated(h, key, root, nodes, root, seen)
    ensures forall id :: id in done <==> id in seen && !Stamped(h, key, id)
  {
    if root.Ref? {
      var known := seen.Keys + set id | id in h && h[id].Buffer?;
      forall a, b | a in known && Edge(h, key, a, b) ensures b in known {
        assert a in done;
        assert Settled(h, seen, Ref(b));
      }
      forall id | Reaches(h, key, root.id, id) ensures id in known {
        var p :| Path(h, key, p) && p[0] == root.id && p[|p| - 1] == id;
        ClosedHolds(h, key, known, p);
      }
    }
  }
}
