// Import rebinds, checked twice: by the client, which walks a run's overrides along the
// declared shape, and by the runtime, which resolves every location it is sent.

module ImportShapes {
  import opened Wrappers
  import opened Bytes

  /**
   * One node of a declared host module. Keys and other text are client strings or wire
   * bytes; a data leaf is the serializer's bytes.
   */
  datatype Node<K> = Function | Data(blob: seq<byte>) | Object(entries: seq<Entry<K>>)

  datatype Entry<K> = Entry(key: K, node: Node<K>)

  datatype Module<K> = Source(text: K) | Host(exports: seq<Entry<K>>)

  datatype Binding<K> = Binding(specifier: K, body: Module<K>)

  function Lookup<K(==)>(entries: seq<Entry<K>>, key: K): Option<Node<K>>
  {
    if entries == [] then None
    else if entries[0].key == key then Some(entries[0].node)
    else Lookup(entries[1..], key)
  }

  function BindingFor<K(==)>(declared: seq<Binding<K>>, specifier: K): Option<Binding<K>>
  {
    if declared == [] then None
    else if declared[0].specifier == specifier then Some(declared[0])
    else BindingFor(declared[1..], specifier)
  }

  /** Deepest host-module node, as a path length from a top-level export: a rule of the wire. */
  const MAX_HOST_MODULE_DEPTH := 64

  /** Levels of nodes below this one. */
  function Below<K>(n: Node<K>): nat
  {
    if n.Object? then BelowAll(n.entries) else 0
  }

  /** Levels of nodes in a list of children: the longest path to any of them, in keys. */
  function BelowAll<K>(es: seq<Entry<K>>): nat
  {
    if es == [] then 0 else Max(1 + BelowEntry(es[0]), BelowAll(es[1..]))
  }

  function BelowEntry<K>(e: Entry<K>): nat { Below(e.node) }

  function Max(a: nat, b: nat): nat { if a > b then a else b }

  /** A location or a declared thing is refused with this code. */
  datatype Code = Undeclared | Frozen | InvalidRebind | IllFormed

  datatype Refusal<K> = Refusal(code: Code, specifier: K, path: seq<K>)
}

module RuntimeCheck {
  import opened Wrappers
  import opened ImportShapes

  datatype Location<K> = Location(specifier: K, path: seq<K>)

  /** The node at a path; an error carries the length of the path up to the segment not found. */
  function Find<K(==)>(entries: seq<Entry<K>>, path: seq<K>): Result<Node<K>, nat>
    decreases |path|
  {
    if path == [] then Err(0)
    else
      match Lookup(entries, path[0])
      case None => Err(1)
      case Some(n) =>
        if |path| == 1 then Ok(n)
        else if !n.Object? then Err(|path|)
        else
          match Find(n.entries, path[1..])
          case Ok(m) => Ok(m)
          case Err(d) => Err(d + 1)
  }

  method FindHostNode<K(==)>(exports: seq<Entry<K>>, path: seq<K>) returns (r: Result<Node<K>, nat>)
    ensures r == Find(exports, path)
  {
    var entries := exports;
    var node: Option<Node<K>> := None;
    for i := 0 to |path|
      invariant i == 0 ==> node == None && entries == exports
      invariant 0 < i == |path| ==> node.Some? && Find(exports, path) == Ok(node.value)
      invariant i < |path| ==>
                  Find(exports, path) == match Find(entries, path[i..]) case Ok(m) => Ok(m) case Err(d) => Err(d + i)
    {
      var found := Lookup(entries, path[i]);
      assert path[i..][0] == path[i] && path[i..][1..] == path[i + 1..];
      if found.None? { return Err(i + 1); }
      if found.value.Object? {
        entries := found.value.entries;
      } else if i + 1 < |path| {
        return Err(|path|);
      }
      node := found;
    }
    r := if node.Some? then Ok(node.value) else Err(|path|);
  }

  predicate Child<K(==)>(n: Node<K>, key: K, m: Node<K>)
  {
    n.Object? && Lookup(n.entries, key) == Some(m)
  }

  /** The nodes from the top-level export down to the last segment of the path. */
  ghost predicate Resolves<K>(entries: seq<Entry<K>>, path: seq<K>, nodes: seq<Node<K>>)
  {
    && |nodes| == |path| > 0
    && Lookup(entries, path[0]) == Some(nodes[0])
    && forall k :: 0 <= k < |nodes| - 1 ==> Child(nodes[k], path[k + 1], nodes[k + 1])
  }

  lemma {:induction false} FoundResolves<K>(entries: seq<Entry<K>>, path: seq<K>) returns (nodes: seq<Node<K>>)
    requires Find(entries, path).Ok?
    ensures Resolves(entries, path, nodes) && nodes[|nodes| - 1] == Find(entries, path).value
    decreases |path|
  {
    var top := Lookup(entries, path[0]).value;
    nodes := [top];
    if |path| > 1 {
      var below := FoundResolves(top.entries, path[1..]);
      nodes := [top] + below;
      forall k | 0 <= k < |nodes| - 1 ensures Child(nodes[k], path[k + 1], nodes[k + 1]) {
        if k > 0 { assert Child(below[k - 1], path[1..][k], below[k]); }
      }
    }
  }

  lemma {:induction false} ResolvesFound<K>(entries: seq<Entry<K>>, path: seq<K>, nodes: seq<Node<K>>)
    requires Resolves(entries, path, nodes)
    ensures Find(entries, path) == Ok(nodes[|nodes| - 1])
    decreases |path|
  {
    if |path| > 1 {
      assert Child(nodes[0], path[0 + 1], nodes[0 + 1]);
      forall k | 0 <= k < |nodes| - 2 ensures Child(nodes[1..][k], path[1..][k + 1], nodes[1..][k + 1]) {
        assert Child(nodes[k + 1], path[k + 1 + 1], nodes[k + 1 + 1]);
      }
      ResolvesFound(nodes[0].entries, path[1..], nodes[1..]);
    }
  }

  /** The path resolves, segment by segment, to this node. */
  ghost predicate Leads<K(!new)>(exports: seq<Entry<K>>, path: seq<K>, n: Node<K>)
  {
    exists nodes :: Resolves(exports, path, nodes) && nodes[|nodes| - 1] == n
  }

  /** A node is found exactly at the non-empty paths that resolve segment by segment, and it is the last one. */
  lemma FindResolves<K(!new)>(entries: seq<Entry<K>>, path: seq<K>, n: Node<K>)
    ensures Find(entries, path) == Ok(n) <==> Leads(entries, path, n)
  {
    hide Find;
    if Find(entries, path) == Ok(n) {
      var nodes := FoundResolves(entries, path);
      assert Resolves(entries, path, nodes) && nodes[|nodes| - 1] == n;
    }
    if Leads(entries, path, n) {
      var nodes :| Resolves(entries, path, nodes) && nodes[|nodes| - 1] == n;
      ResolvesFound(entries, path, nodes);
    }
  }

  /** A leaf is found before the path ends. */
  ghost predicate LeafInTheWay<K>(entries: seq<Entry<K>>, path: seq<K>)
  {
    exists k :: 0 < k < |path| && Find(entries, path[..k]).Ok? && !Find(entries, path[..k]).value.Object?
  }

  /** The first `d` segments lead to objects but for the last, which is missing there. */
  ghost predicate FirstMissing<K>(entries: seq<Entry<K>>, path: seq<K>, d: nat)
  {
    && 0 < d <= |path| && Find(entries, path[..d]).Err?
    && forall k :: 0 < k < d ==> Find(entries, path[..k]).Ok? && Find(entries, path[..k]).value.Object?
  }

  /**
   * Why a path fails, and with which length: an empty path with 0, a leaf in the way with
   * the whole length, and otherwise the first missing segment with its own.
   */
  lemma {:induction false} FindFails<K>(entries: seq<Entry<K>>, path: seq<K>)
    requires Find(entries, path).Err?
    ensures var d := Find(entries, path).error;
            && (path == [] <==> d == 0)
            && (LeafInTheWay(entries, path) ==> d == |path|)
            && (path != [] && !LeafInTheWay(entries, path) ==> FirstMissing(entries, path, d))
    ensures Find(entries, path).error <= |path|
    decreases |path|
  {
    if path != [] {
      assert path[..|path|] == path && path[..1] == [path[0]];
      var top := Lookup(entries, path[0]);
      if top.Some? && |path| > 1 {
        if top.value.Object? {
          FindFails(top.value.entries, path[1..]);
          forall k | 0 < k <= |path| - 1 ensures Find(entries, path[..k + 1]) == Lifted(Find(top.value.entries, path[1..][..k])) {
            assert path[..k + 1][1..] == path[1..][..k];
          }
          FailsBelow(entries, path, top.value);
        } else {
          assert LeafInTheWay(entries, path);
        }
      } else {
        NothingFound(entries, path);
      }
    }
  }

  function Lifted<K>(r: Result<Node<K>, nat>): Result<Node<K>, nat>
  {
    match r case Ok(n) => Ok(n) case Err(d) => Err(d + 1)
  }

  lemma NothingFound<K>(entries: seq<Entry<K>>, path: seq<K>)
    requires path != [] && Lookup(entries, path[0]).None?
    ensures !LeafInTheWay(entries, path)
  {
    forall k | 0 < k < |path| ensures Find(entries, path[..k]).Err? { assert path[..k][0] == path[0]; }
  }

  /** Below an object, the same is in the way and the same is missing. */
  lemma FailsBelow<K>(entries: seq<Entry<K>>, path: seq<K>, top: Node<K>)
    requires |path| > 1 && top.Object? && Find(entries, path[..1]) == Ok(top)
    requires forall k :: 0 < k <= |path| - 1 ==> Find(entries, path[..k + 1]) == Lifted(Find(top.entries, path[1..][..k]))
    ensures LeafInTheWay(entries, path) ==> LeafInTheWay(top.entries, path[1..])
    ensures forall d: nat :: FirstMissing(top.entries, path[1..], d) ==> FirstMissing(entries, path, d + 1)
  {
    hide Find;
    forall k | 0 < k < |path| && Find(entries, path[..k]).Ok? && !Find(entries, path[..k]).value.Object?
      ensures LeafInTheWay(top.entries, path[1..])
    {
      assert k > 1;
      assert Find(entries, path[..(k - 1) + 1]) == Lifted(Find(top.entries, path[1..][..k - 1]));
    }
    forall d: nat | FirstMissing(top.entries, path[1..], d) ensures FirstMissing(entries, path, d + 1) {
      assert Find(entries, path[..d + 1]) == Lifted(Find(top.entries, path[1..][..d]));
      forall k | 0 < k < d + 1 ensures Find(entries, path[..k]).Ok? && Find(entries, path[..k]).value.Object? {
        if k > 1 { assert Find(entries, path[..(k - 1) + 1]) == Lifted(Find(top.entries, path[1..][..k - 1])); }
      }
    }
  }

  function Verdict<K(==)>(l: Location<K>, declared: seq<Binding<K>>): Result<(), Refusal<K>>
  {
    match BindingFor(declared, l.specifier)
    case None => Err(Refusal(Undeclared, l.specifier, []))
    case Some(b) =>
      match b.body
      case Source(_) => Err(Refusal(Frozen, l.specifier, []))
      case Host(exports) =>
        match Find(exports, l.path)
        case Ok(Function) => Ok(())
        case Ok(Data(_)) => Err(Refusal(Frozen, l.specifier, l.path))
        case Ok(Object(_)) => Err(Refusal(Undeclared, l.specifier, l.path))
        case Err(depth) => Err(Refusal(Undeclared, l.specifier, if depth <= |l.path| then l.path[..depth] else l.path))
  }

  /** The first entry of a key, and the first binding of a specifier, is the one that counts. */
  lemma {:induction false} LookupFirst<K>(entries: seq<Entry<K>>, key: K)
    ensures Lookup(entries, key).None? <==> forall k :: 0 <= k < |entries| ==> entries[k].key != key
    ensures forall k :: 0 <= k < |entries| && entries[k].key == key && (forall j :: 0 <= j < k ==> entries[j].key != key) ==>
              Lookup(entries, key) == Some(entries[k].node)
  {
    if entries != [] {
      var rest := entries[1..];
      LookupFirst(rest, key);
      assert forall k :: 0 <= k < |rest| ==> rest[k] == entries[k + 1];
      assert forall k :: 0 < k < |entries| ==> entries[k] == rest[k - 1];
    }
  }

  lemma {:induction false} BindingFirst<K>(declared: seq<Binding<K>>, specifier: K)
    ensures BindingFor(declared, specifier).None? <==> forall k :: 0 <= k < |declared| ==> declared[k].specifier != specifier
    ensures forall k :: 0 <= k < |declared| && declared[k].specifier == specifier && (forall j :: 0 <= j < k ==> declared[j].specifier != specifier) ==>
              BindingFor(declared, specifier) == Some(declared[k])
  {
    if declared != [] {
      var rest := declared[1..];
      BindingFirst(rest, specifier);
      assert forall k :: 0 <= k < |rest| ==> rest[k] == declared[k + 1];
      assert forall k :: 0 < k < |declared| ==> declared[k] == rest[k - 1];
    }
  }

  /**
   * Every verdict, exactly when it is given: a function may be rebound; source text and data
   * are frozen; an object, and whatever does not resolve, is undeclared.
   */
  lemma VerdictExactly<K(!new)>(l: Location<K>, declared: seq<Binding<K>>)
    ensures var (b, v) := (BindingFor(declared, l.specifier), Verdict(l, declared));
            && (b.None? ==> v == Err(Refusal(Undeclared, l.specifier, [])))
            && (b.Some? && b.value.body.Source? ==> v == Err(Refusal(Frozen, l.specifier, [])))
            && (b.Some? && b.value.body.Host? ==>
                  var es := b.value.body.exports;
                  && (v == Ok(()) <==> Leads(es, l.path, Function))
                  && (forall blob :: Leads(es, l.path, Data(blob)) ==> v == Err(Refusal(Frozen, l.specifier, l.path)))
                  && (forall below :: Leads(es, l.path, Object(below)) ==> v == Err(Refusal(Undeclared, l.specifier, l.path)))
                  && ((forall n :: !Leads(es, l.path, n)) ==>
                        && v.Err? && v.error.code == Undeclared && v.error.specifier == l.specifier && v.error.path <= l.path
                        && (LeafInTheWay(es, l.path) ==> v.error.path == l.path)
                        && (l.path != [] && !LeafInTheWay(es, l.path) ==> FirstMissing(es, l.path, |v.error.path|))))
  {
    hide Find, LeafInTheWay, FirstMissing;
    var b := BindingFor(declared, l.specifier);
    if b.Some? && b.value.body.Host? {
      forall n ensures Leads(b.value.body.exports, l.path, n) <==> Find(b.value.body.exports, l.path) == Ok(n) {
        FindResolves(b.value.body.exports, l.path, n);
      }
      var found := Find(b.value.body.exports, l.path);
      if found.Ok? { assert Leads(b.value.body.exports, l.path, found.value); } else { FindFails(b.value.body.exports, l.path); }
    }
  }

  /** The first refused location, in the order sent. */
  function Verdicts<K(==)>(ls: seq<Location<K>>, declared: seq<Binding<K>>): Result<(), Refusal<K>>
  {
    if ls == [] then Ok(())
    else
      match Verdict(ls[0], declared)
      case Err(e) => Err(e)
      case Ok(_) => Verdicts(ls[1..], declared)
  }

  method ValidateImportRebinds<K(==)>(rebinds: seq<Location<K>>, declared: seq<Binding<K>>) returns (r: Result<(), Refusal<K>>)
    ensures r == Verdicts(rebinds, declared)
  {
    for i := 0 to |rebinds|
      invariant Verdicts(rebinds, declared) == Verdicts(rebinds[i..], declared)
    {
      var rb := rebinds[i];
      assert rebinds[i..][0] == rb && rebinds[i..][1..] == rebinds[i + 1..];
      var binding := BindingFor(declared, rb.specifier);
      if binding.None? { return Err(Refusal(Undeclared, rb.specifier, [])); }
      match binding.value.body {
        case Source(_) => return Err(Refusal(Frozen, rb.specifier, []));
        case Host(exports) =>
          var found := FindHostNode(exports, rb.path);
          match found {
            case Ok(Function) =>
            case Ok(Data(_)) => return Err(Refusal(Frozen, rb.specifier, rb.path));
            case Ok(Object(_)) => return Err(Refusal(Undeclared, rb.specifier, rb.path));
            case Err(depth) =>
              FindFails(exports, rb.path);
              return Err(Refusal(Undeclared, rb.specifier, rb.path[..depth]));
          }
      }
    }
    r := Ok(());
  }

  lemma {:induction false} AllAccepted<K>(ls: seq<Location<K>>, declared: seq<Binding<K>>)
    ensures Verdicts(ls, declared).Ok? <==> forall l :: l in ls ==> Verdict(l, declared).Ok?
  {
    if ls != [] {
      AllAccepted(ls[1..], declared);
      assert ls == [ls[0]] + ls[1..];
    }
  }
}

module ClientRebind {
  import opened Wrappers
  import opened ImportShapes
  import opened RuntimeCheck
  import opened Names
  import opened Utf8
  import opened Bytes

  type Shape = seq<Entry<Name>>

  type Handler = nat

  /** A value in an `imports` option; anything without a case of its own is `Other`. */
  datatype Value = Func(handler: Handler) | Plain(entries: seq<Property>) | Text(text: Name) | Undefined | Other(value: nat)

  datatype Property = Property(key: Name, value: Value)

  /** One accepted override. */
  datatype Override = Override(at: Location<Name>, handler: Handler)

  // ── Overrides against the declared shape ────────────────────────────────

  /** Every override under one plain object, in order, or the first refusal. */
  function Walk(specifier: Name, node: seq<Property>, declared: Shape, path: seq<Name>): Result<seq<Override>, Refusal<Name>>
    decreases node
  {
    if node == [] then Ok([])
    else
      match Visit(specifier, node[0].key, node[0].value, declared, path)
      case Err(e) => Err(e)
      case Ok(first) =>
        match Walk(specifier, node[1..], declared, path)
        case Err(e) => Err(e)
        case Ok(rest) => Ok(first + rest)
  }

  function Visit(specifier: Name, key: Name, value: Value, declared: Shape, path: seq<Name>): Result<seq<Override>, Refusal<Name>>
    decreases value
  {
    var here := path + [key];
    if !IsWellFormed(key) then Err(Refusal(IllFormed, specifier, here))
    else
      match Lookup(declared, key)
      case None => Err(Refusal(Undeclared, specifier, here))
      case Some(Data(_)) => Err(Refusal(Frozen, specifier, here))
      case Some(Object(children)) =>
        if value.Plain? then Walk(specifier, value.entries, children, here) else Err(Refusal(InvalidRebind, specifier, here))
      case Some(Function) =>
        if value.Func? then Ok([Override(Location(specifier, here), value.handler)])
        else Err(Refusal(InvalidRebind, specifier, here))
  }

  function MergeOne(specifier: Name, value: Value, declared: seq<Binding<Name>>): Result<seq<Override>, Refusal<Name>>
  {
    if !IsWellFormed(specifier) then Err(Refusal(IllFormed, specifier, []))
    else
      match BindingFor(declared, specifier)
      case None => Err(Refusal(Undeclared, specifier, []))
      case Some(b) =>
        if b.body.Source? then Err(Refusal(Frozen, specifier, []))
        else if !value.Plain? then Err(Refusal(InvalidRebind, specifier, []))
        else Walk(specifier, value.entries, b.body.exports, [])
  }

  /** The whole `imports` option of a run. */
  function Merge(imports: seq<Property>, declared: seq<Binding<Name>>): Result<seq<Override>, Refusal<Name>>
  {
    if imports == [] then Ok([])
    else
      match MergeOne(imports[0].key, imports[0].value, declared)
      case Err(e) => Err(e)
      case Ok(first) =>
        match Merge(imports[1..], declared)
        case Err(e) => Err(e)
        case Ok(rest) => Ok(first + rest)
  }

  type Handlers = map<Location<Name>, Handler>

  function Overlay(m: Handlers, os: seq<Override>): Handlers
    decreases os
  {
    if os == [] then m else Overlay(m[os[0].at := os[0].handler], os[1..])
  }

  function Places(os: seq<Override>): seq<Location<Name>>
  {
    seq(|os|, k requires 0 <= k < |os| => os[k].at)
  }

  /** The map and the list one merge fills. */
  class Merged {
    var handlers: Handlers
    var rebinds: seq<Location<Name>>

    constructor (defaults: Handlers)
      ensures handlers == defaults && rebinds == []
    {
      handlers, rebinds := defaults, [];
    }

    method WalkRebind(specifier: Name, node: seq<Property>, declared: Shape, path: seq<Name>)
      returns (r: Result<(), Refusal<Name>>)
      modifies this
      ensures match Walk(specifier, node, declared, path)
              case Err(e) => r == Err(e)
              case Ok(os) => r == Ok(()) && handlers == Overlay(old(handlers), os) && rebinds == old(rebinds) + Places(os)
      decreases node
    {
      hide Walk;
      ghost var done: seq<Override> := [];
      StartsWhole(Walk(specifier, node, declared, path));
      assert node[0..] == node;
      for i := 0 to |node|
        invariant handlers == Overlay(old(handlers), done) && rebinds == old(rebinds) + Places(done)
        invariant Prefixed(Walk(specifier, node, declared, path), done, Walk(specifier, node[i..], declared, path))
      {
        var key, value := node[i].key, node[i].value;
        var segments := path + [key];
        assert node[i..][0] == node[i] && node[i..][1..] == node[i + 1..];
        PrefixedStep(specifier, node, declared, path, i, done);
        if !IsWellFormed(key) { return Err(Refusal(IllFormed, specifier, segments)); }
        var shape := Lookup(declared, key);
        if shape.None? { return Err(Refusal(Undeclared, specifier, segments)); }
        if shape.value.Data? { return Err(Refusal(Frozen, specifier, segments)); }
        if shape.value.Object? {
          if !value.Plain? { return Err(Refusal(InvalidRebind, specifier, segments)); }
          var inner := WalkRebind(specifier, value.entries, shape.value.entries, segments);
          if inner.Err? { return inner; }
          ghost var more := Walk(specifier, value.entries, shape.value.entries, segments).value;
          OverlayMore(old(handlers), done, more);
          done := done + more;
        } else {
          if !value.Func? { return Err(Refusal(InvalidRebind, specifier, segments)); }
          handlers := handlers[Location(specifier, segments) := value.handler];
          rebinds := rebinds + [Location(specifier, segments)];
          ghost var more := [Override(Location(specifier, segments), value.handler)];
          OverlayMore(old(handlers), done, more);
          done := done + more;
        }
      }
      assert node[|node|..] == [] && done + [] == done;
      WalkNothing(specifier, declared, path);
      r := Ok(());
    }

    method MergeRebindImports(imports: seq<Property>, declared: seq<Binding<Name>>) returns (r: Result<(), Refusal<Name>>)
      modifies this
      ensures match Merge(imports, declared)
              case Err(e) => r == Err(e)
              case Ok(os) => r == Ok(()) && handlers == Overlay(old(handlers), os) && rebinds == old(rebinds) + Places(os)
    {
      hide Merge;
      ghost var done: seq<Override> := [];
      StartsWhole(Merge(imports, declared));
      assert imports[0..] == imports;
      for i := 0 to |imports|
        invariant handlers == Overlay(old(handlers), done) && rebinds == old(rebinds) + Places(done)
        invariant Prefixed(Merge(imports, declared), done, Merge(imports[i..], declared))
      {
        var specifier, value := imports[i].key, imports[i].value;
        assert imports[i..][0] == imports[i] && imports[i..][1..] == imports[i + 1..];
        MergedStep(imports, declared, i, done);
        if !IsWellFormed(specifier) { return Err(Refusal(IllFormed, specifier, [])); }
        var binding := BindingFor(declared, specifier);
        if binding.None? { return Err(Refusal(Undeclared, specifier, [])); }
        if binding.value.body.Source? { return Err(Refusal(Frozen, specifier, [])); }
        if !value.Plain? { return Err(Refusal(InvalidRebind, specifier, [])); }
        var walked := WalkRebind(specifier, value.entries, binding.value.body.exports, []);
        if walked.Err? { return walked; }
        ghost var more := Walk(specifier, value.entries, binding.value.body.exports, []).value;
        OverlayMore(old(handlers), done, more);
        done := done + more;
      }
      assert imports[|imports|..] == [] && done + [] == done;
      MergeNothing(declared);
      r := Ok(());
    }
  }

  /** `all` is `done`, then whatever the rest comes to. */
  ghost predicate Prefixed(all: Result<seq<Override>, Refusal<Name>>, done: seq<Override>, rest: Result<seq<Override>, Refusal<Name>>)
  {
    match rest
    case Err(e) => all == Err(e)
    case Ok(os) => all == Ok(done + os)
  }

  lemma WalkNothing(specifier: Name, declared: Shape, path: seq<Name>)
    ensures Walk(specifier, [], declared, path) == Ok([])
  {
  }

  lemma MergeNothing(declared: seq<Binding<Name>>)
    ensures Merge([], declared) == Ok([])
  {
  }

  lemma StartsWhole(all: Result<seq<Override>, Refusal<Name>>)
    ensures Prefixed(all, [], all)
  {
    if all.Ok? { assert [] + all.value == all.value; }
  }

  lemma PrefixedStep(specifier: Name, node: seq<Property>, declared: Shape, path: seq<Name>, i: nat, done: seq<Override>)
    requires i < |node| && Prefixed(Walk(specifier, node, declared, path), done, Walk(specifier, node[i..], declared, path))
    ensures match Visit(specifier, node[i].key, node[i].value, declared, path)
            case Err(e) => Walk(specifier, node, declared, path) == Err(e)
            case Ok(first) => Prefixed(Walk(specifier, node, declared, path), done + first, Walk(specifier, node[i + 1..], declared, path))
  {
    assert node[i..][0] == node[i] && node[i..][1..] == node[i + 1..];
    var first, rest := Visit(specifier, node[i].key, node[i].value, declared, path), Walk(specifier, node[i + 1..], declared, path);
    if first.Ok? && rest.Ok? { assert done + (first.value + rest.value) == (done + first.value) + rest.value; }
  }

  lemma MergedStep(imports: seq<Property>, declared: seq<Binding<Name>>, i: nat, done: seq<Override>)
    requires i < |imports| && Prefixed(Merge(imports, declared), done, Merge(imports[i..], declared))
    ensures match MergeOne(imports[i].key, imports[i].value, declared)
            case Err(e) => Merge(imports, declared) == Err(e)
            case Ok(first) => Prefixed(Merge(imports, declared), done + first, Merge(imports[i + 1..], declared))
  {
    assert imports[i..][0] == imports[i] && imports[i..][1..] == imports[i + 1..];
    var first, rest := MergeOne(imports[i].key, imports[i].value, declared), Merge(imports[i + 1..], declared);
    if first.Ok? && rest.Ok? { assert done + (first.value + rest.value) == (done + first.value) + rest.value; }
  }

  lemma {:induction false} OverlayMore(m: Handlers, a: seq<Override>, b: seq<Override>)
    ensures Overlay(Overlay(m, a), b) == Overlay(m, a + b)
    ensures Places(a + b) == Places(a) + Places(b)
    decreases a
  {
    if a == [] {
      assert a + b == b;
    } else {
      OverlayMore(m[a[0].at := a[0].handler], a[1..], b);
      assert (a + b)[1..] == a[1..] + b;
    }
  }
}
