// What a rehydrated graph is worth to its reader, and the byte scan that decides whether
// a walk is needed at all.

module RehydrateTheorems {
  import opened Wrappers
  import opened Graph
  import opened Rehydrate

  lemma FlatAt(entries: seq<(Val, Val)>, i: nat)
    requires i < |Flat(entries)|
    ensures i / 2 < |entries|
    ensures i % 2 == 0 ==> Flat(entries)[i] == entries[i / 2].0
    ensures i % 2 == 1 ==> Flat(entries)[i] == entries[i / 2].1
  {
    assert i == 2 * (i / 2) + i % 2;
    assert Flat(entries)[2 * (i / 2)] == entries[i / 2].0 && Flat(entries)[2 * (i / 2) + 1] == entries[i / 2].1;
  }

  lemma FlatRewrite(entries: seq<(Val, Val)>, m: map<Id, Id>, i: nat)
    requires i < |Flat(entries)|
    ensures var now := Rewrite(MapNode(entries), m).entries;
            |Flat(now)| == |Flat(entries)| && Flat(now)[i] == StandIn(m, Flat(entries)[i])
  {
    hide Flat;
    FlatAt(entries, i);
    FlatAt(Rewrite(MapNode(entries), m).entries, i);
  }

  lemma SlotsRewrite(node: Node, m: map<Id, Id>, i: nat)
    requires i < |Slots(node)|
    ensures |Slots(Rewrite(node, m))| == |Slots(node)|
    ensures Slots(Rewrite(node, m))[i] == StandIn(m, Slots(node)[i])
  {
    hide Flat;
    if node.MapNode? { FlatRewrite(node.entries, m, i); }
  }

  /** Every slot of a rewritten node stands in for a slot of the original. */
  lemma SlotOrigin(node: Node, m: map<Id, Id>, w: Val) returns (v: Val)
    requires w in Slots(Rewrite(node, m))
    ensures v in Slots(node) && w == StandIn(m, v)
  {
    var i :| 0 <= i < |Slots(Rewrite(node, m))| && Slots(Rewrite(node, m))[i] == w;
    RewriteSize(node, m);
    SlotsRewrite(node, m, i);
    v := Slots(node)[i];
  }

  lemma RewriteSize(node: Node, m: map<Id, Id>)
    ensures |Slots(Rewrite(node, m))| == |Slots(node)|
  {
  }

  lemma {:induction false} BrandSame(props: seq<(string, Val)>, now: seq<(string, Val)>, m: map<Id, Id>, key: string)
    requires |props| == |now|
    requires forall i :: 0 <= i < |props| ==> now[i] == (props[i].0, StandIn(m, props[i].1))
    ensures BrandIn(now, key) == BrandIn(props, key)
  {
    if props != [] {
      forall i | 0 <= i < |props[1..]| ensures now[1..][i] == (props[1..][i].0, StandIn(m, props[1..][i].1)) {
        assert now[i + 1] == (props[i + 1].0, StandIn(m, props[i + 1].1));
      }
      BrandSame(props[1..], now[1..], m, key);
    }
  }

  /** Rewriting a node never makes or unmakes a descriptor. */
  lemma BrandRewrite(node: Node, m: map<Id, Id>, key: string)
    ensures BrandOf(Rewrite(node, m), key) == BrandOf(node, key)
  {
    if node.Object? { BrandSame(node.props, Rewrite(node, m).props, m, key); }
  }

  /** What the new graph's containers can lead to: old containers, buffers, and built instances. */
  ghost predicate Clean(h: Heap, key: string, h': Heap, m: map<Id, Id>, id: Id)
  {
    id in h' && if id in h then h[id].Buffer? || (id in m && !Stamped(h, key, id)) else h'[id].Instance?
  }

  lemma CleanStep(h: Heap, key: string, root: Val, h': Heap, result: Val, m: map<Id, Id>, a: Id, b: Id)
    requires WellFormed(h) && root.Ref? && Rehydrated(h, key, root, h', result, m)
    requires Clean(h, key, h', m, a) && Edge(h', key, a, b)
    ensures Clean(h, key, h', m, b)
  {
    var v := SlotOrigin(h[a], m, Ref(b));
    assert Edge(h, key, a, v.id);
    ReachesStep(h, key, root.id, a, v.id);
  }

  lemma CleanNotStamped(h: Heap, key: string, root: Val, h': Heap, result: Val, m: map<Id, Id>, id: Id)
    requires Rehydrated(h, key, root, h', result, m) && Clean(h, key, h', m, id)
    ensures !Stamped(h', key, id)
  {
    if id in h && id in m { BrandRewrite(h[id], m, key); }
  }

  /** No stamped descriptor is left anywhere a reader of the result can get to. */
  lemma NothingLeft(h: Heap, key: string, root: Val, h': Heap, result: Val, m: map<Id, Id>)
    requires WellFormed(h) && (root.Ref? ==> root.id in h)
    requires Rehydrated(h, key, root, h', result, m)
    ensures result.Ref? ==> forall id | Reaches(h', key, result.id, id) :: id in h' && !Stamped(h', key, id)
  {
    if result.Ref? {
      ReachesSelf(h, key, root.id);
      var clean := set id | id in h' && Clean(h, key, h', m, id);
      forall a, b | a in clean && Edge(h', key, a, b) ensures b in clean {
        CleanStep(h, key, root, h', result, m, a, b);
      }
      forall id | Reaches(h', key, result.id, id) ensures id in h' && !Stamped(h', key, id) {
        var p :| Path(h', key, p) && p[0] == result.id && p[|p| - 1] == id;
        ClosedHolds(h', key, clean, p);
        CleanNotStamped(h, key, root, h', result, m, id);
      }
    }
  }

  lemma RewriteIdentity(node: Node, m: map<Id, Id>)
    requires forall id | id in m :: m[id] == id
    ensures Rewrite(node, m) == node
  {
    match node
    case Array(items) => assert Rewrite(node, m).items == items;
    case MapNode(entries) => assert Rewrite(node, m).entries == entries;
    case SetNode(items) => assert Rewrite(node, m).items == items;
    case Object(props) => assert Rewrite(node, m).props == props;
    case Buffer =>
    case Instance(_) =>
  }

  /** A graph with no reachable descriptor comes back untouched, down to every identity. */
  lemma NoDescriptorNoChange(h: Heap, key: string, root: Val, h': Heap, result: Val, m: map<Id, Id>)
    requires Rehydrated(h, key, root, h', result, m)
    requires root.Ref? ==> forall id | Reaches(h, key, root.id, id) :: !Stamped(h, key, id)
    ensures h' == h && result == root
  {
    assert forall id | id in m :: m[id] == id;
    forall id | id in h ensures h'[id] == h[id] { RewriteIdentity(h[id], m); }
    assert h'.Keys == h.Keys;
  }

  /** The result is again a deserialized-looking graph: closed, map keys and set items distinct. */
  lemma StaysWellFormed(h: Heap, key: string, root: Val, h': Heap, result: Val, m: map<Id, Id>)
    requires WellFormed(h) && Rehydrated(h, key, root, h', result, m)
    ensures WellFormed(h')
  {
    forall id | id in h'
      ensures forall v | v in Slots(h'[id]) :: v.Ref? ==> v.id in h'
      ensures h'[id].MapNode? ==>
                forall i, j :: 0 <= i < j < |h'[id].entries| ==> h'[id].entries[i].0 != h'[id].entries[j].0
      ensures h'[id].SetNode? ==> Distinct(h'[id].items)
    {
      if id !in h {
        var d :| d in m && m[d] == id;
        assert Stamped(h, key, d);
      } else if id in m && !Stamped(h, key, id) {
        forall w | w in Slots(h'[id]) && w.Ref? ensures w.id in h' {
          var v := SlotOrigin(h[id], m, w);
        }
        KeysStayDistinct(h, key, h', m, id);
      }
    }
  }

  lemma KeysStayDistinct(h: Heap, key: string, h': Heap, m: map<Id, Id>, id: Id)
    requires WellFormed(h) && StandsIn(h, key, m, h') && id in h
    ensures h[id].MapNode? ==> forall i, j :: 0 <= i < j < |h[id].entries| ==>
              Rewrite(h[id], m).entries[i].0 != Rewrite(h[id], m).entries[j].0
    ensures h[id].SetNode? ==> Distinct(Rewrite(h[id], m).items)
  {
    var node := h[id];
    if node.MapNode? {
      forall i, j | 0 <= i < j < |node.entries|
        ensures Rewrite(node, m).entries[i].0 != Rewrite(node, m).entries[j].0
      {
        assert Slots(node)[2 * i] == node.entries[i].0 && Slots(node)[2 * j] == node.entries[j].0;
        assert node.entries[i].0 in Slots(node) && node.entries[j].0 in Slots(node);
        StandInInjective(h, key, m, h', node.entries[i].0, node.entries[j].0);
      }
    }
    if node.SetNode? {
      forall i, j | 0 <= i < j < |node.items| ensures Rewrite(node, m).items[i] != Rewrite(node, m).items[j] {
        assert node.items[i] in Slots(node) && node.items[j] in Slots(node);
        StandInInjective(h, key, m, h', node.items[i], node.items[j]);
      }
    }
  }

  /** A second walk over the result finds nothing to do. */
  lemma Idempotent(h: Heap, key: string, root: Val, h': Heap, result: Val, m: map<Id, Id>,
                   h'': Heap, again: Val, m': map<Id, Id>)
    requires WellFormed(h) && (root.Ref? ==> root.id in h)
    requires Rehydrated(h, key, root, h', result, m) && Rehydrated(h', key, result, h'', again, m')
    ensures h'' == h' && again == result
  {
    NothingLeft(h, key, root, h', result, m);
    NoDescriptorNoChange(h', key, result, h'', again, m');
  }

  // ── What is stamped, and what a reader of the result finds ──────────────

  ghost predicate KeysDistinct(props: seq<(string, Val)>)
  {
    forall i, j :: 0 <= i < j < |props| ==> props[i].0 != props[j].0
  }

  /** An object that carries the type tag `t` as its own property under the brand key. */
  ghost predicate Tagged(node: Node, key: string, t: int)
  {
    node.Object? && 0 <= t < 0x1_0000_0000 && (key, Num(t)) in node.props
  }

  lemma {:induction false} BrandReads(props: seq<(string, Val)>, key: string, t: nat)
    requires KeysDistinct(props)
    ensures BrandIn(props, key) == Some(t) <==> Tagged(Object(props), key, t)
  {
    if props != [] {
      forall i, j | 0 <= i < j < |props[1..]| ensures props[1..][i].0 != props[1..][j].0 {
        assert props[i + 1].0 != props[j + 1].0;
      }
      BrandReads(props[1..], key, t);
      assert props == [props[0]] + props[1..];
    }
  }

  /**
   * An object whose keys are distinct, as a deserialized one's are, is a descriptor exactly
   * if its brand property is a number that fits a u32; that number is the type it stands for.
   */
  lemma StampedExactly(h: Heap, key: string, id: Id)
    requires id in h && (h[id].Object? ==> KeysDistinct(h[id].props))
    ensures Stamped(h, key, id) <==> exists t :: Tagged(h[id], key, t)
    ensures forall t :: Tagged(h[id], key, t) ==> BrandOf(h[id], key) == Some(t)
  {
    var node := h[id];
    if node.Object? {
      if Stamped(h, key, id) { BrandReads(node.props, key, BrandOf(node, key).value); }
      forall t | Tagged(node, key, t) ensures BrandOf(node, key) == Some(t) { BrandReads(node.props, key, t); }
    }
  }

  /** What a reader of the result finds where the graph had `v`. */
  ghost predicate Replaced(h: Heap, key: string, h': Heap, v: Val, w: Val)
  {
    if v.Ref? && v.id in h && exists t :: Tagged(h[v.id], key, t) then
      w.Ref? && w.id !in h && w.id in h' && forall t :: Tagged(h[v.id], key, t) ==> h'[w.id] == Instance(t)
    else w == v
  }

  /** `now` is `was` with every value replaced: same kind, same size, same order, same property names. */
  ghost predicate InPlace(h: Heap, key: string, h': Heap, was: Node, now: Node)
  {
    match was
    case Array(items) =>
      now.Array? && |now.items| == |items|
      && forall i :: 0 <= i < |items| ==> Replaced(h, key, h', items[i], now.items[i])
    case MapNode(entries) =>
      now.MapNode? && |now.entries| == |entries|
      && forall i :: 0 <= i < |entries| ==> Replaced(h, key, h', entries[i].0, now.entries[i].0)
                                            && Replaced(h, key, h', entries[i].1, now.entries[i].1)
    case SetNode(items) =>
      now.SetNode? && |now.items| == |items|
      && forall i :: 0 <= i < |items| ==> Replaced(h, key, h', items[i], now.items[i])
    case Object(props) =>
      now.Object? && |now.props| == |props|
      && forall i :: 0 <= i < |props| ==> now.props[i].0 == props[i].0 && Replaced(h, key, h', props[i].1, now.props[i].1)
    case Buffer => now == was
    case Instance(_) => now == was
  }

  ghost predicate DistinctKeys(h: Heap)
  {
    forall id | id in h :: h[id].Object? ==> KeysDistinct(h[id].props)
  }

  /** The values in a node: a map's keys and values, an object's property values. */
  ghost predicate Holds(node: Node, v: Val)
  {
    match node
    case Array(items) => v in items
    case MapNode(entries) => exists i :: 0 <= i < |entries| && (entries[i].0 == v || entries[i].1 == v)
    case SetNode(items) => v in items
    case Object(props) => exists i :: 0 <= i < |props| && props[i].1 == v
    case Buffer => false
    case Instance(_) => false
  }

  lemma SlotsExact(node: Node, v: Val)
    ensures v in Slots(node) <==> Holds(node, v)
  {
    if node.MapNode? {
      var entries := node.entries;
      if v in Slots(node) {
        var i :| 0 <= i < |Flat(entries)| && Flat(entries)[i] == v;
        FlatAt(entries, i);
      }
      if i :| 0 <= i < |entries| && (entries[i].0 == v || entries[i].1 == v) {
        assert Flat(entries)[2 * i] == entries[i].0 && Flat(entries)[2 * i + 1] == entries[i].1;
      }
    } else if node.Object? {
      assert forall i :: 0 <= i < |node.props| ==> Slots(node)[i] == node.props[i].1;
    }
  }

  /** A value that the graph can lead to stands, in the result, for what it says. */
  lemma StandInReplaces(h: Heap, key: string, root: Val, h': Heap, result: Val, m: map<Id, Id>, v: Val)
    requires DistinctKeys(h) && Rehydrated(h, key, root, h', result, m)
    requires v.Ref? ==> v.id in h && root.Ref? && Reaches(h, key, root.id, v.id)
    ensures Replaced(h, key, h', v, StandIn(m, v))
  {
    hide Reaches, Rewrite, BrandOf, KeysDistinct;
    if v.Ref? { StampedExactly(h, key, v.id); }
  }

  /**
   * What the walk answers, told from the graph alone: every object that can be reached
   * without passing through a descriptor, and is none itself, has each of its values
   * replaced in place; the root value too. A brand property that is a text, a reference, a
   * negative number or one past a u32 leaves its object as it is.
   */
  lemma ReaderFinds(h: Heap, key: string, root: Val, h': Heap, result: Val, m: map<Id, Id>, id: Id)
    requires WellFormed(h) && DistinctKeys(h) && (root.Ref? ==> root.id in h)
    requires Rehydrated(h, key, root, h', result, m)
    ensures Replaced(h, key, h', root, result)
    ensures root.Ref? && Reaches(h, key, root.id, id) && id in h && (forall t :: !Tagged(h[id], key, t)) ==>
              id in h' && InPlace(h, key, h', h[id], h'[id])
  {
    hide Reaches, Rewrite, BrandOf, Tagged, InPlace, Slots, Replaced;
    if root.Ref? { ReachesSelf(h, key, root.id); }
    StandInReplaces(h, key, root, h', result, m, root);
    if root.Ref? && Reaches(h, key, root.id, id) && id in h && forall t :: !Tagged(h[id], key, t) {
      StampedExactly(h, key, id);
      forall v | v in Slots(h[id]) ensures Replaced(h, key, h', v, StandIn(m, v)) {
        if v.Ref? {
          assert Edge(h, key, id, v.id);
          ReachesStep(h, key, root.id, id, v.id);
        }
        StandInReplaces(h, key, root, h', result, m, v);
      }
      RewritesInPlace(h, key, h', m, h[id]);
      if h[id].Buffer? { assert h'[id] == h[id]; BufferSame(m); }
    }
  }

  lemma BufferSame(m: map<Id, Id>)
    ensures Rewrite(Buffer, m) == Buffer
  {
  }

  lemma RewritesInPlace(h: Heap, key: string, h': Heap, m: map<Id, Id>, node: Node)
    requires forall v | v in Slots(node) :: Replaced(h, key, h', v, StandIn(m, v))
    ensures InPlace(h, key, h', node, Rewrite(node, m))
  {
    hide Replaced, StandIn, Slots;
    forall v | Holds(node, v) ensures Replaced(h, key, h', v, StandIn(m, v)) { SlotsExact(node, v); }
    match node
    case Array(items) => assert forall i :: 0 <= i < |items| ==> Holds(node, items[i]);
    case MapNode(entries) =>
      assert forall i :: 0 <= i < |entries| ==> Holds(node, entries[i].0) && Holds(node, entries[i].1);
    case SetNode(items) => assert forall i :: 0 <= i < |items| ==> Holds(node, items[i]);
    case Object(props) => assert forall i :: 0 <= i < |props| ==> Holds(node, props[i].1);
    case Buffer =>
    case Instance(_) =>
  }

  // ── The pre-check ───────────────────────────────────────────────────────

  ghost predicate OccursAt(blob: seq<int>, needle: seq<int>, at: nat)
  {
    at + |needle| <= |blob| && blob[at..at + |needle|] == needle
  }

  lemma OccursParts(blob: seq<int>, needle: seq<int>, at: nat)
    requires needle != []
    ensures OccursAt(blob, needle, at) ==>
              blob[at] == needle[0] && blob[at + 1..at + |needle|] == needle[1..]
  {
    if OccursAt(blob, needle, at) {
      assert blob[at..at + |needle|][0] == needle[0];
      assert blob[at..at + |needle|][1..] == needle[1..];
    }
  }

  /** Scans for the brand key's bytes: exact, so a blob that holds the key is never skipped. */
  method MightContainWebTypes(blob: seq<int>, needle: seq<int>) returns (found: bool)
    ensures found <==> needle != [] && exists at :: OccursAt(blob, needle, at)
  {
    if needle == [] { return false; }
    var first, rest := needle[0], needle[1..];
    if |blob| < |needle| { return false; }
    var lastStart := |blob| - |needle|;
    var from := 0;
    while from < |blob|
      invariant from <= |blob|
      invariant forall at :: 0 <= at < from ==> !OccursAt(blob, needle, at)
    {
      // `position`: the next byte equal to the needle's first.
      var start := from;
      while start < |blob| && blob[start] != first
        invariant from <= start <= |blob|
        invariant forall at :: from <= at < start ==> !OccursAt(blob, needle, at)
      {
        OccursParts(blob, needle, start);
        start := start + 1;
      }
      if start == |blob| { return false; }
      if start > lastStart { return false; }
      if blob[start + 1..start + |needle|] == rest {
        assert blob[start..start + |needle|] == [first] + rest;
        assert OccursAt(blob, needle, start);
        return true;
      }
      OccursParts(blob, needle, start);
      from := start + 1;
    }
    found := false;
  }
}
