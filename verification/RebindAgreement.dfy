// The client's walk and the runtime's check are two programs about one shape. What the
// client accepts the runtime accepts, and what the client refuses as undeclared or frozen
// the runtime refuses at the same place.

module RebindAgreement {
  import opened Wrappers
  import opened Bytes
  import opened Utf8
  import opened Names
  import opened ImportShapes
  import opened RuntimeCheck
  import opened ClientRebind

  // ── What the wire carries ───────────────────────────────────────────────

  function WireNode(n: Node<Name>): Node<seq<byte>>
  {
    match n
    case Function => Function
    case Data(v) => Data(v)
    case Object(es) => Object(WireEntries(es))
  }

  function WireEntries(es: Shape): seq<Entry<seq<byte>>>
  {
    if es == [] then [] else [WireEntry(es[0])] + WireEntries(es[1..])
  }

  function WireEntry(e: Entry<Name>): Entry<seq<byte>>
  {
    Entry(Encoded(e.key), WireNode(e.node))
  }

  function WireBindings(bs: seq<Binding<Name>>): seq<Binding<seq<byte>>>
  {
    if bs == [] then []
    else
      [Binding(Encoded(bs[0].specifier),
               match bs[0].body case Source(t) => Source(Encoded(t)) case Host(es) => Host(WireEntries(es)))]
      + WireBindings(bs[1..])
  }

  function WirePath(p: seq<Name>): (w: seq<seq<byte>>)
    ensures |w| == |p|
  {
    seq(|p|, k requires 0 <= k < |p| => Encoded(p[k]))
  }

  function WireAt(l: Location<Name>): Location<seq<byte>>
  {
    Location(Encoded(l.specifier), WirePath(l.path))
  }

  function WireRefusal(r: Refusal<Name>): Refusal<seq<byte>>
  {
    Refusal(r.code, Encoded(r.specifier), WirePath(r.path))
  }

  function WirePlaces(ls: seq<Location<Name>>): seq<Location<seq<byte>>>
  {
    seq(|ls|, k requires 0 <= k < |ls| => WireAt(ls[k]))
  }

  /** Every key of a declared shape is a well-formed string; `prepare` refuses any other. */
  predicate KeysOk(es: Shape)
  {
    forall e | e in es :: EntryOk(e)
  }

  predicate EntryOk(e: Entry<Name>)
  {
    IsWellFormed(e.key) && NodeOk(e.node)
  }

  predicate NodeOk(n: Node<Name>)
  {
    n.Object? ==> KeysOk(n.entries)
  }

  predicate DeclaredOk(bs: seq<Binding<Name>>)
  {
    forall b | b in bs :: IsWellFormed(b.specifier) && (b.body.Host? ==> KeysOk(b.body.exports))
  }

  predicate PathOk(p: seq<Name>)
  {
    forall k :: 0 <= k < |p| ==> IsWellFormed(p[k])
  }

  function WireFound(r: Result<Node<Name>, nat>): Result<Node<seq<byte>>, nat>
  {
    match r case Ok(n) => Ok(WireNode(n)) case Err(d) => Err(d)
  }

  // ── The wire changes no verdict ─────────────────────────────────────────

  lemma {:induction false} LookupWire(es: Shape, key: Name)
    requires KeysOk(es) && IsWellFormed(key)
    ensures Lookup(WireEntries(es), Encoded(key)) == match Lookup(es, key) case None => None case Some(n) => Some(WireNode(n))
    ensures Lookup(es, key).Some? ==> NodeOk(Lookup(es, key).value)
  {
    hide Encoded, IsWellFormed;
    if es != [] {
      assert es[0] in es && EntryOk(es[0]);
      SameOnTheWire(es[0].key, key);
      LookupWire(es[1..], key);
    }
  }

  lemma {:induction false} FindWire(es: Shape, path: seq<Name>)
    requires KeysOk(es) && PathOk(path)
    ensures Find(WireEntries(es), WirePath(path)) == WireFound(Find(es, path))
    decreases |path|
  {
    hide Encoded, IsWellFormed, KeysOk;
    if path != [] {
      LookupWire(es, path[0]);
      assert WirePath(path)[1..] == WirePath(path[1..]);
      var n := Lookup(es, path[0]);
      if n.Some? && n.value.Object? { FindWire(n.value.entries, path[1..]); }
    }
  }

  lemma {:induction false} BindingWire(bs: seq<Binding<Name>>, specifier: Name)
    requires DeclaredOk(bs) && IsWellFormed(specifier)
    ensures var b, w := BindingFor(bs, specifier), BindingFor(WireBindings(bs), Encoded(specifier));
            if b.None? then w.None?
            else
              && b.value in bs && w.Some?
              && w.value.body == (match b.value.body case Source(t) => Source(Encoded(t)) case Host(es) => Host(WireEntries(es)))
  {
    hide Encoded, IsWellFormed, KeysOk;
    if bs != [] {
      assert bs[0] in bs;
      SameOnTheWire(bs[0].specifier, specifier);
      BindingWire(bs[1..], specifier);
    }
  }

  /** For well-formed names, the runtime's verdict on the wire is its verdict on the client's own shape. */
  lemma VerdictWire(l: Location<Name>, declared: seq<Binding<Name>>)
    requires DeclaredOk(declared) && IsWellFormed(l.specifier) && PathOk(l.path)
    ensures Verdict(WireAt(l), WireBindings(declared))
         == match Verdict(l, declared) case Ok(_) => Ok(()) case Err(e) => Err(WireRefusal(e))
  {
    hide Encoded, IsWellFormed;
    BindingWire(declared, l.specifier);
    var b := BindingFor(declared, l.specifier);
    if b.Some? && b.value.body.Host? {
      FindWire(b.value.body.exports, l.path);
      var found := Find(b.value.body.exports, l.path);
      if found.Err? && found.error <= |l.path| { assert WirePath(l.path)[..found.error] == WirePath(l.path[..found.error]); }
    }
  }

  // ── The walk finds what the runtime finds ───────────────────────────────

  /** `declared` are the children of the node at `path` of the module `top`. */
  ghost predicate Under(top: Shape, path: seq<Name>, declared: Shape)
  {
    if path == [] then declared == top else Find(top, path) == Ok(Object(declared))
  }

  lemma {:induction false} FindSnoc(top: Shape, path: seq<Name>, declared: Shape, key: Name)
    requires Under(top, path, declared)
    ensures Find(top, path + [key]) == match Lookup(declared, key) case None => Err(|path| + 1) case Some(n) => Ok(n)
    decreases |path|
  {
    if path != [] {
      assert (path + [key])[1..] == path[1..] + [key];
      var n := Lookup(top, path[0]).value;
      FindSnoc(n.entries, path[1..], declared, key);
    }
  }

  /** The function leaves of a run's overrides, in order, with no look at what is declared. */
  function Leaves(specifier: Name, node: seq<Property>, path: seq<Name>): seq<Override>
    decreases node
  {
    if node == [] then [] else LeavesAt(specifier, node[0].value, path + [node[0].key]) + Leaves(specifier, node[1..], path)
  }

  function LeavesAt(specifier: Name, value: Value, here: seq<Name>): seq<Override>
    decreases value
  {
    match value
    case Func(h) => [Override(Location(specifier, here), h)]
    case Plain(es) => Leaves(specifier, es, here)
    case _ => []
  }

  /** Every key is well formed, every function is where a function is declared, every object where an object is. */
  predicate Fits(node: seq<Property>, top: Shape, path: seq<Name>)
    decreases node
  {
    node == []
    || (IsWellFormed(node[0].key) && FitsAt(node[0].value, top, path + [node[0].key]) && Fits(node[1..], top, path))
  }

  predicate FitsAt(value: Value, top: Shape, here: seq<Name>)
    decreases value
  {
    match value
    case Func(_) => Find(top, here) == Ok(Function)
    case Plain(es) => Find(top, here).Ok? && Find(top, here).value.Object? && Fits(es, top, here)
    case _ => false
  }

  /** A refusal of the walk, by what is declared at its place. */
  ghost predicate Justified(e: Refusal<Name>, specifier: Name, top: Shape)
  {
    && e.specifier == specifier && e.path != []
    && PathOk(e.path[..|e.path| - 1])
    && (e.code.IllFormed? <==> !IsWellFormed(e.path[|e.path| - 1]))
    && (e.code.Undeclared? ==> Find(top, e.path) == Err(|e.path|))
    && (e.code.Frozen? ==> Find(top, e.path).Ok? && Find(top, e.path).value.Data?)
    && (e.code.InvalidRebind? ==> Find(top, e.path).Ok? && !Find(top, e.path).value.Data?)
  }

  ghost predicate WalkOk(r: Result<seq<Override>, Refusal<Name>>, specifier: Name, leaves: seq<Override>, fits: bool, top: Shape)
  {
    match r
    case Ok(os) => fits && os == leaves && forall o | o in os :: PathOk(o.at.path) && Find(top, o.at.path) == Ok(Function)
    case Err(e) => !fits && Justified(e, specifier, top)
  }

  lemma {:induction false} WalkExact(specifier: Name, node: seq<Property>, declared: Shape, path: seq<Name>, top: Shape)
    requires Under(top, path, declared) && PathOk(path)
    ensures WalkOk(Walk(specifier, node, declared, path), specifier, Leaves(specifier, node, path), Fits(node, top, path), top)
    decreases node
  {
    hide Justified, IsWellFormed, Under, Find;
    if node != [] {
      VisitExact(specifier, node[0].key, node[0].value, declared, path, top);
      WalkExact(specifier, node[1..], declared, path, top);
    }
  }

  lemma {:induction false} VisitExact(specifier: Name, key: Name, value: Value, declared: Shape, path: seq<Name>, top: Shape)
    requires Under(top, path, declared) && PathOk(path)
    ensures WalkOk(Visit(specifier, key, value, declared, path), specifier, LeavesAt(specifier, value, path + [key]),
                   IsWellFormed(key) && FitsAt(value, top, path + [key]), top)
    decreases value
  {
    hide IsWellFormed, Find, Lookup, Walk, Fits, Leaves, Justified, PathOk, Under;
    var here := path + [key];
    FindSnoc(top, path, declared, key);
    Refused(specifier, key, top, path);
    var n := Lookup(declared, key);
    if IsWellFormed(key) && n.Some? && n.value.Object? && value.Plain? {
      PathSnoc(path, key);
      UnderSnoc(top, here, n.value.entries);
      WalkExact(specifier, value.entries, n.value.entries, here, top);
    }
    if IsWellFormed(key) { PathSnoc(path, key); }
  }

  lemma PathSnoc(path: seq<Name>, key: Name)
    requires PathOk(path) && IsWellFormed(key)
    ensures PathOk(path + [key])
  {
    hide IsWellFormed;
  }

  lemma UnderSnoc(top: Shape, here: seq<Name>, children: Shape)
    requires here != [] && Find(top, here) == Ok(Object(children))
    ensures Under(top, here, children)
  {
  }

  /** What is found at a place justifies its refusal. */
  lemma Refused(specifier: Name, key: Name, top: Shape, path: seq<Name>)
    requires PathOk(path)
    ensures var here := path + [key];
            && (!IsWellFormed(key) ==> Justified(Refusal(IllFormed, specifier, here), specifier, top))
            && (IsWellFormed(key) && Find(top, here) == Err(|here|) ==> Justified(Refusal(Undeclared, specifier, here), specifier, top))
            && (IsWellFormed(key) && Find(top, here).Ok? ==>
                  if Find(top, here).value.Data? then Justified(Refusal(Frozen, specifier, here), specifier, top)
                  else Justified(Refusal(InvalidRebind, specifier, here), specifier, top))
  {
    hide IsWellFormed, Find, PathOk;
    var here := path + [key];
    assert here[..|here| - 1] == path;
  }

  /**
   * The client accepts a run's overrides of one host module exactly if they fit its shape,
   * and then sends every function leaf of them, in order.
   */
  lemma AcceptsExactly(specifier: Name, node: seq<Property>, top: Shape)
    ensures Walk(specifier, node, top, []).Ok? <==> Fits(node, top, [])
    ensures Walk(specifier, node, top, []).Ok? ==> Walk(specifier, node, top, []).value == Leaves(specifier, node, [])
  {
    WalkExact(specifier, node, top, [], top);
  }

  lemma MergeOneAccepted(specifier: Name, value: Value, declared: seq<Binding<Name>>)
    requires MergeOne(specifier, value, declared).Ok?
    ensures forall o | o in MergeOne(specifier, value, declared).value ::
              IsWellFormed(o.at.specifier) && PathOk(o.at.path) && Verdict(o.at, declared).Ok?
  {
    hide Walk, Find, IsWellFormed;
    var top := BindingFor(declared, specifier).value.body.exports;
    WalkExact(specifier, value.entries, top, [], top);
    LeavesAbove(specifier, value.entries, []);
  }

  lemma {:induction false} LeavesAbove(specifier: Name, node: seq<Property>, path: seq<Name>)
    ensures forall o | o in Leaves(specifier, node, path) :: o.at.specifier == specifier
    decreases node
  {
    if node != [] {
      if node[0].value.Plain? { LeavesAbove(specifier, node[0].value.entries, path + [node[0].key]); }
      LeavesAbove(specifier, node[1..], path);
    }
  }

  lemma {:induction false} MergeAccepted(imports: seq<Property>, declared: seq<Binding<Name>>)
    requires Merge(imports, declared).Ok?
    ensures forall o | o in Merge(imports, declared).value ::
              IsWellFormed(o.at.specifier) && PathOk(o.at.path) && Verdict(o.at, declared).Ok?
  {
    hide MergeOne, Verdict, IsWellFormed;
    if imports != [] {
      MergeOneAccepted(imports[0].key, imports[0].value, declared);
      MergeAccepted(imports[1..], declared);
    }
  }

  /** Every rebind list the client's merge produces passes the runtime's check against the same declared shape. */
  lemma ClientOkRuntimeOk(imports: seq<Property>, declared: seq<Binding<Name>>)
    requires DeclaredOk(declared) && Merge(imports, declared).Ok?
    ensures Verdicts(WirePlaces(Places(Merge(imports, declared).value)), WireBindings(declared)) == Ok(())
  {
    hide Merge, Verdict, IsWellFormed, WireAt, WireBindings;
    var os := Merge(imports, declared).value;
    var ls := WirePlaces(Places(os));
    MergeAccepted(imports, declared);
    forall l | l in ls ensures Verdict(l, WireBindings(declared)).Ok? {
      var k :| 0 <= k < |ls| && ls[k] == l;
      assert os[k] in os;
      VerdictWire(os[k].at, declared);
    }
    AllAccepted(ls, WireBindings(declared));
    assert Verdicts(ls, WireBindings(declared)).value == ();
  }

  lemma MergeOneRefused(specifier: Name, value: Value, declared: seq<Binding<Name>>)
    requires MergeOne(specifier, value, declared).Err?
    ensures var e := MergeOne(specifier, value, declared).error;
            && (e.code.Undeclared? || e.code.Frozen? ==>
                  IsWellFormed(e.specifier) && PathOk(e.path) && Verdict(Location(e.specifier, e.path), declared) == Err(e))
            && (e.code.InvalidRebind? ==>
                  BindingFor(declared, e.specifier).Some? && BindingFor(declared, e.specifier).value.body.Host?
                  && (e.path != [] ==> Find(BindingFor(declared, e.specifier).value.body.exports, e.path).Ok?))
  {
    hide Walk, Find, IsWellFormed;
    var b := BindingFor(declared, specifier);
    if IsWellFormed(specifier) && b.Some? && b.value.body.Host? && value.Plain? {
      var top := b.value.body.exports;
      WalkExact(specifier, value.entries, top, [], top);
      var e := MergeOne(specifier, value, declared).error;
      assert e.path == e.path[..|e.path| - 1] + [e.path[|e.path| - 1]];
      assert e.path[..|e.path|] == e.path;
    }
  }

  /**
   * A location the client refuses as undeclared or frozen is one the runtime would refuse
   * with the same code at the same place; a value of the wrong kind is refused only where
   * something is declared.
   */
  lemma {:induction false} RefusalsAgree(imports: seq<Property>, declared: seq<Binding<Name>>)
    requires DeclaredOk(declared) && Merge(imports, declared).Err?
    ensures var e := Merge(imports, declared).error;
            && (e.code.Undeclared? || e.code.Frozen? ==>
                  Verdict(WireAt(Location(e.specifier, e.path)), WireBindings(declared)) == Err(WireRefusal(e)))
            && (e.code.InvalidRebind? ==>
                  BindingFor(declared, e.specifier).Some? && BindingFor(declared, e.specifier).value.body.Host?
                  && (e.path != [] ==> Find(BindingFor(declared, e.specifier).value.body.exports, e.path).Ok?))
  {
    hide MergeOne, Verdict, IsWellFormed, WireAt, WireBindings, WireRefusal, DeclaredOk, Find, BindingFor;
    var first := MergeOne(imports[0].key, imports[0].value, declared);
    if first.Err? {
      var e := first.error;
      MergeOneRefused(imports[0].key, imports[0].value, declared);
      if e.code.Undeclared? || e.code.Frozen? { VerdictWire(Location(e.specifier, e.path), declared); }
    } else {
      RefusalsAgree(imports[1..], declared);
    }
  }

  // ── The shape a prefix keeps ────────────────────────────────────────────

  function StripNode(n: Node<Name>): Node<Name>
  {
    match n
    case Function => Function
    case Data(_) => Data([])
    case Object(es) => Object(Strip(es))
  }

  function Strip(es: Shape): Shape
  {
    if es == [] then [] else [StripEntry(es[0])] + Strip(es[1..])
  }

  function StripEntry(e: Entry<Name>): Entry<Name>
  {
    Entry(e.key, StripNode(e.node))
  }

  function DeclaredImportShape(bs: seq<Binding<Name>>): seq<Binding<Name>>
  {
    if bs == [] then []
    else
      [Binding(bs[0].specifier, match bs[0].body case Source(_) => Source([]) case Host(es) => Host(Strip(es)))]
      + DeclaredImportShape(bs[1..])
  }

  lemma {:induction false} LookupStrip(es: Shape, key: Name)
    ensures Lookup(Strip(es), key) == match Lookup(es, key) case None => None case Some(n) => Some(StripNode(n))
  {
    if es != [] { LookupStrip(es[1..], key); }
  }

  lemma {:induction false} WalkStrip(specifier: Name, node: seq<Property>, declared: Shape, path: seq<Name>)
    ensures Walk(specifier, node, Strip(declared), path) == Walk(specifier, node, declared, path)
    decreases node
  {
    if node != [] {
      LookupStrip(declared, node[0].key);
      var n := Lookup(declared, node[0].key);
      if n.Some? && n.value.Object? && node[0].value.Plain? {
        WalkStrip(specifier, node[0].value.entries, n.value.entries, path + [node[0].key]);
      }
      WalkStrip(specifier, node[1..], declared, path);
    }
  }

  lemma {:induction false} BindingStrip(bs: seq<Binding<Name>>, specifier: Name)
    ensures var b, t := BindingFor(bs, specifier), BindingFor(DeclaredImportShape(bs), specifier);
            if b.None? then t.None?
            else t.Some? && t.value.body == (match b.value.body case Source(_) => Source([]) case Host(es) => Host(Strip(es)))
  {
    if bs != [] { BindingStrip(bs[1..], specifier); }
  }

  /** Dropping data values and source text from the kept shape changes no merge. */
  lemma {:induction false} ShapeIsEnough(imports: seq<Property>, declared: seq<Binding<Name>>)
    ensures Merge(imports, DeclaredImportShape(declared)) == Merge(imports, declared)
  {
    hide Walk, Lookup, BindingFor, Strip, DeclaredImportShape;
    if imports != [] {
      var specifier, value := imports[0].key, imports[0].value;
      BindingStrip(declared, specifier);
      var b := BindingFor(declared, specifier);
      if b.Some? && b.value.body.Host? && value.Plain? { WalkStrip(specifier, value.entries, b.value.body.exports, []); }
      ShapeIsEnough(imports[1..], declared);
    }
  }
}
