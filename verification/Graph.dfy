// The deserialized value graph: a heap of shared, possibly cyclic objects, which of them
// are stamped descriptors, and what replacing every descriptor by its stand-in means.

module Graph {
  import opened Wrappers

  type Id = nat

  /** A slot holds a primitive or a reference. Other primitives than numbers are `Text`. */
  datatype Val = Num(n: int) | Text(s: string) | Ref(id: Id)

  datatype Node =
    | Array(items: seq<Val>)                 // indexed elements only
    | MapNode(entries: seq<(Val, Val)>)      // insertion order
    | SetNode(items: seq<Val>)               // insertion order
    | Object(props: seq<(string, Val)>)      // own enumerable string keys
    | Buffer                                 // ArrayBuffer or a view of one
    | Instance(tag: nat)                     // a host type built from a descriptor

  type Heap = map<Id, Node>

  /** The stamp: an own property named by the brand key whose value is a u32. */
  function BrandIn(props: seq<(string, Val)>, key: string): Option<nat>
  {
    if props == [] then None
    else if props[0].0 == key then
      if props[0].1.Num? && 0 <= props[0].1.n < 0x1_0000_0000 then Some(props[0].1.n) else None
    else BrandIn(props[1..], key)
  }

  function BrandOf(node: Node, key: string): Option<nat>
  {
    if node.Object? then BrandIn(node.props, key) else None
  }

  predicate Stamped(h: Heap, key: string, id: Id)
  {
    id in h && BrandOf(h[id], key).Some?
  }

  function Flat(entries: seq<(Val, Val)>): (vs: seq<Val>)
    ensures |vs| == 2 * |entries|
    ensures forall i :: 0 <= i < |entries| ==> vs[2 * i] == entries[i].0 && vs[2 * i + 1] == entries[i].1
  {
    if entries == [] then [] else [entries[0].0, entries[0].1] + Flat(entries[1..])
  }

  /** The values a node holds, in the order the walk reads them. */
  function Slots(node: Node): seq<Val>
  {
    match node
    case Array(items) => items
    case MapNode(entries) => Flat(entries)
    case SetNode(items) => items
    case Object(props) => seq(|props|, i requires 0 <= i < |props| => props[i].1)
    case Buffer => []
    case Instance(_) => []
  }

  ghost predicate Distinct<T(!new)>(s: seq<T>)
  {
    forall i, j :: 0 <= i < j < |s| ==> s[i] != s[j]
  }

  /** What deserialization guarantees: no dangling reference, no repeated map key or set item. */
  ghost predicate WellFormed(h: Heap)
  {
    forall id | id in h ::
      && (forall v | v in Slots(h[id]) :: v.Ref? ==> v.id in h)
      && (h[id].MapNode? ==>
            forall i, j :: 0 <= i < j < |h[id].entries| ==> h[id].entries[i].0 != h[id].entries[j].0)
      && (h[id].SetNode? ==> Distinct(h[id].items))
  }

  // ── Stand-ins ───────────────────────────────────────────────────────────

  /** Every reference in `m` is read as what stands in for it; everything else stays. */
  function StandIn(m: map<Id, Id>, v: Val): Val
  {
    if v.Ref? && v.id in m then Ref(m[v.id]) else v
  }

  function Rewrite(node: Node, m: map<Id, Id>): Node
  {
    match node
    case Array(items) => Array(seq(|items|, i requires 0 <= i < |items| => StandIn(m, items[i])))
    case MapNode(entries) =>
      MapNode(seq(|entries|, i requires 0 <= i < |entries| =>
        (StandIn(m, entries[i].0), StandIn(m, entries[i].1))))
    case SetNode(items) => SetNode(seq(|items|, i requires 0 <= i < |items| => StandIn(m, items[i])))
    case Object(props) =>
      Object(seq(|props|, i requires 0 <= i < |props| => (props[i].0, StandIn(m, props[i].1))))
    case Buffer => Buffer
    case Instance(tag) => Instance(tag)
  }

  /**
   * `m` stands in for objects of `h`: itself for a container, for a stamped descriptor
   * an instance of its type that is new in `h'` and shared with no other descriptor.
   */
  ghost predicate StandsIn(h: Heap, key: string, m: map<Id, Id>, h': Heap)
  {
    && m.Keys <= h.Keys
    && (forall id | id in m ::
          if Stamped(h, key, id) then
            m[id] !in h && m[id] in h' && h'[m[id]] == Instance(BrandOf(h[id], key).value)
          else m[id] == id && !h[id].Buffer?)
    && (forall i, j | i in m && j in m && m[i] == m[j] :: i == j)
  }

  // ── Reachability through containers ─────────────────────────────────────

  /** A descriptor's own fields are not edges. */
  ghost predicate Edge(h: Heap, key: string, a: Id, b: Id)
  {
    a in h && !Stamped(h, key, a) && Ref(b) in Slots(h[a])
  }

  ghost predicate Path(h: Heap, key: string, p: seq<Id>)
  {
    p != [] && forall i :: 0 <= i < |p| - 1 ==> Edge(h, key, p[i], p[i + 1])
  }

  ghost predicate Reaches(h: Heap, key: string, a: Id, b: Id)
  {
    exists p :: Path(h, key, p) && p[0] == a && p[|p| - 1] == b
  }

  lemma ReachesSelf(h: Heap, key: string, a: Id)
    ensures Reaches(h, key, a, a)
  {
    assert Path(h, key, [a]);
  }

  lemma ReachesStep(h: Heap, key: string, a: Id, b: Id, c: Id)
    requires Reaches(h, key, a, b) && Edge(h, key, b, c)
    ensures Reaches(h, key, a, c)
  {
    var p :| Path(h, key, p) && p[0] == a && p[|p| - 1] == b;
    var q := p + [c];
    assert Path(h, key, q);
    assert q[0] == a && q[|q| - 1] == c;
  }

  /** A set closed under edges holds whatever a member reaches. */
  lemma {:induction false} ClosedHolds(h: Heap, key: string, s: set<Id>, p: seq<Id>)
    requires Path(h, key, p) && p[0] in s
    requires forall a, b :: a in s && Edge(h, key, a, b) ==> b in s
    ensures p[|p| - 1] in s
    decreases |p|
  {
    if |p| > 1 {
      assert Edge(h, key, p[0], p[1]);
      forall i | 0 <= i < |p[1..]| - 1 ensures Edge(h, key, p[1..][i], p[1..][i + 1]) {
        assert Edge(h, key, p[i + 1], p[i + 2]);
      }
      ClosedHolds(h, key, s, p[1..]);
    }
  }
}
