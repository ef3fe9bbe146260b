// How `prepare` turns an `imports` option into declared bindings and default handlers.

module ImportLowering {
  import opened Wrappers
  import opened Bytes
  import opened Utf8
  import opened Names
  import opened ImportShapes
  import opened RuntimeCheck
  import opened ClientRebind
  import opened RebindAgreement

  datatype LowerError = TooDeep | IllFormedKey | BadExport | NotAModule | IllFormedSpecifier

  /** The value serializer, as it is. */
  type Serializer = Value -> seq<byte>

  /** One node; `length` is its path length from the top-level export. */
  function Lower(v: Value, length: nat, blob: Serializer): Result<Node<Name>, LowerError>
    decreases v
  {
    if length > MAX_HOST_MODULE_DEPTH then Err(TooDeep)
    else
      match v
      case Func(_) => Ok(Function)
      case Plain(es) => (match LowerAll(es, length + 1, blob) case Err(e) => Err(e) case Ok(ns) => Ok(Object(ns)))
      case _ => Ok(Data(blob(v)))
  }

  function LowerAll(es: seq<Property>, length: nat, blob: Serializer): Result<seq<Entry<Name>>, LowerError>
    decreases es
  {
    if es == [] then Ok([])
    else if es[0].value.Undefined? then LowerAll(es[1..], length, blob)
    else
      match LowerOne(es[0], length, blob)
      case Err(e) => Err(e)
      case Ok(n) => match LowerAll(es[1..], length, blob) case Err(e) => Err(e) case Ok(ns) => Ok([n] + ns)
  }

  function LowerOne(p: Property, length: nat, blob: Serializer): Result<Entry<Name>, LowerError>
    decreases p
  {
    if !IsWellFormed(p.key) then Err(IllFormedKey)
    else match Lower(p.value, length, blob) case Err(e) => Err(e) case Ok(n) => Ok(Entry(p.key, n))
  }

  /** A top-level key must be a valid export name, besides. */
  predicate ExportsValid(es: seq<Property>, valid: Name -> bool)
  {
    forall p | p in es && !p.value.Undefined? :: valid(p.key)
  }

  /** Keys of the nodes that are there, and how deep the tree goes. */
  predicate PresentKeysOk(es: seq<Property>)
    decreases es
  {
    es == [] || (PresentKeyOk(es[0]) && PresentKeysOk(es[1..]))
  }

  predicate PresentKeyOk(p: Property)
    decreases p
  {
    p.value.Undefined? || (IsWellFormed(p.key) && (p.value.Plain? ==> PresentKeysOk(p.value.entries)))
  }

  function Levels(es: seq<Property>): nat
    decreases es
  {
    if es == [] then 0 else Max(LevelsOf(es[0]), Levels(es[1..]))
  }

  function LevelsOf(p: Property): nat
    decreases p
  {
    if p.value.Undefined? then 0 else if p.value.Plain? then 1 + Levels(p.value.entries) else 1
  }

  /** Lowering succeeds exactly on trees with well-formed keys within the depth limit, and keeps the depth. */
  lemma {:induction false} LowersExactly(es: seq<Property>, length: nat, blob: Serializer)
    requires length <= MAX_HOST_MODULE_DEPTH + 1
    ensures LowerAll(es, length, blob).Ok? <==> PresentKeysOk(es) && length + Levels(es) <= MAX_HOST_MODULE_DEPTH + 1
    ensures LowerAll(es, length, blob).Ok? ==> KeysOk(LowerAll(es, length, blob).value) && BelowAll(LowerAll(es, length, blob).value) == Levels(es)
    decreases es, 0
  {
    hide IsWellFormed, KeysOk, LowerOne;
    if es == [] {
      NoKeys();
    } else {
      LowersExactly(es[1..], length, blob);
      if es[0].value.Undefined? {
        assert PresentKeyOk(es[0]) && LevelsOf(es[0]) == 0;
      } else {
        OneLowersExactly(es[0], length, blob);
        if LowerAll(es, length, blob).Ok? {
          KeysFront(LowerOne(es[0], length, blob).value, LowerAll(es[1..], length, blob).value);
        }
      }
    }
  }

  lemma NoKeys()
    ensures KeysOk([])
  {
  }

  lemma KeysFront(e: Entry<Name>, es: seq<Entry<Name>>)
    requires IsWellFormed(e.key) && NodeOk(e.node) && KeysOk(es)
    ensures KeysOk([e] + es) && BelowAll([e] + es) == Max(1 + Below(e.node), BelowAll(es))
  {
    hide IsWellFormed;
    assert ([e] + es)[1..] == es;
    assert EntryOk(e);
  }

  lemma {:induction false} OneLowersExactly(p: Property, length: nat, blob: Serializer)
    requires length <= MAX_HOST_MODULE_DEPTH + 1 && !p.value.Undefined?
    ensures LowerOne(p, length, blob).Ok? <==> PresentKeyOk(p) && length + LevelsOf(p) <= MAX_HOST_MODULE_DEPTH + 1
    ensures LowerOne(p, length, blob).Ok? ==>
              var e := LowerOne(p, length, blob).value;
              e.key == p.key && IsWellFormed(e.key) && NodeOk(e.node) && 1 + Below(e.node) == LevelsOf(p)
    decreases p, 0
  {
    hide IsWellFormed, KeysOk;
    if p.value.Plain? && length <= MAX_HOST_MODULE_DEPTH { LowersExactly(p.value.entries, length + 1, blob); }
  }

  // ── Every function leaf, and only those ─────────────────────────────────

  /** The keys of an object are distinct. */
  predicate DistinctKeys(es: seq<Property>)
    decreases es
  {
    es == [] || ((forall q | q in es[1..] :: q.key != es[0].key) && DistinctBelow(es[0]) && DistinctKeys(es[1..]))
  }

  predicate DistinctBelow(p: Property)
    decreases p
  {
    p.value.Plain? ==> DistinctKeys(p.value.entries)
  }

  /** The function at a path of an option object, if there is one. */
  function FuncAt(es: seq<Property>, path: seq<Name>): Option<Handler>
    decreases |path|, |es|
  {
    if path == [] || es == [] then None
    else if es[0].key != path[0] then FuncAt(es[1..], path)
    else if |path| == 1 then (if es[0].value.Func? then Some(es[0].value.handler) else None)
    else if es[0].value.Plain? then FuncAt(es[0].value.entries, path[1..])
    else None
  }

  lemma {:induction false} AbsentKey(es: seq<Property>, length: nat, blob: Serializer, key: Name)
    requires LowerAll(es, length, blob).Ok? && forall q | q in es :: q.key != key
    ensures Lookup(LowerAll(es, length, blob).value, key) == None
  {
    hide IsWellFormed, Lower;
    if es != [] {
      assert es[0] in es;
      AbsentKey(es[1..], length, blob, key);
    }
  }

  lemma {:induction false} AbsentFunc(es: seq<Property>, path: seq<Name>)
    requires path != [] && forall q | q in es :: q.key != path[0]
    ensures FuncAt(es, path) == None
  {
    if es != [] {
      assert es[0] in es;
      AbsentFunc(es[1..], path);
    }
  }

  /** The declared shape has a function exactly where the option object has one. */
  lemma {:induction false} FunctionsKept(es: seq<Property>, length: nat, blob: Serializer, path: seq<Name>)
    requires LowerAll(es, length, blob).Ok? && DistinctKeys(es)
    ensures Find(LowerAll(es, length, blob).value, path) == Ok(Function) <==> FuncAt(es, path).Some?
    decreases |path|, |es|
  {
    hide IsWellFormed, Lower;
    if path != [] && es != [] {
      var ns := LowerAll(es, length, blob).value;
      FunctionsKept(es[1..], length, blob, path);
      if !es[0].value.Undefined? { assert ns[1..] == LowerAll(es[1..], length, blob).value; }
      if es[0].key == path[0] {
        AbsentKey(es[1..], length, blob, path[0]);
        AbsentFunc(es[1..], path);
        if !es[0].value.Undefined? { FunctionKept(es[0].value, length, blob, ns[0].node, path); }
      } else {
        SameFind(ns, LowerAll(es[1..], length, blob).value, path);
      }
    }
  }

  /** Below one key. */
  lemma {:induction false} FunctionKept(v: Value, length: nat, blob: Serializer, n: Node<Name>, path: seq<Name>)
    requires Lower(v, length, blob) == Ok(n) && path != [] && (v.Plain? ==> DistinctKeys(v.entries))
    ensures n == Function <==> v.Func?
    ensures |path| > 1 && n.Object? ==>
              v.Plain? && (Find(n.entries, path[1..]) == Ok(Function) <==> FuncAt(v.entries, path[1..]).Some?)
    ensures n.Object? <==> v.Plain?
    decreases |path|, 0
  {
    hide IsWellFormed;
    if v.Plain? && |path| > 1 { FunctionsKept(v.entries, length + 1, blob, path[1..]); }
  }

  lemma SameFind(a: seq<Entry<Name>>, b: seq<Entry<Name>>, path: seq<Name>)
    requires path != []
    ensures Lookup(a, path[0]) == Lookup(b, path[0]) ==> Find(a, path) == Find(b, path)
  {
  }

  // ── Whole options ───────────────────────────────────────────────────────

  function ExportOf(p: Property, valid: Name -> bool, blob: Serializer): Result<Entry<Name>, LowerError>
  {
    if !valid(p.key) then Err(BadExport)
    else match Lower(p.value, 1, blob) case Err(e) => Err(e) case Ok(n) => Ok(Entry(p.key, n))
  }

  function ModuleOf(es: seq<Property>, valid: Name -> bool, blob: Serializer): Result<seq<Entry<Name>>, LowerError>
  {
    if es == [] then Ok([])
    else if es[0].value.Undefined? then ModuleOf(es[1..], valid, blob)
    else
      match ExportOf(es[0], valid, blob)
      case Err(e) => Err(e)
      case Ok(n) => match ModuleOf(es[1..], valid, blob) case Err(e) => Err(e) case Ok(ns) => Ok([n] + ns)
  }

  function BindingOf(p: Property, valid: Name -> bool, blob: Serializer): Result<Binding<Name>, LowerError>
  {
    if !IsWellFormed(p.key) then Err(IllFormedSpecifier)
    else if p.value.Text? then Ok(Binding(p.key, Source(p.value.text)))
    else if !p.value.Plain? then Err(NotAModule)
    else match ModuleOf(p.value.entries, valid, blob) case Err(e) => Err(e) case Ok(ns) => Ok(Binding(p.key, Host(ns)))
  }

  function Process(imports: seq<Property>, valid: Name -> bool, blob: Serializer): Result<seq<Binding<Name>>, LowerError>
  {
    if imports == [] then Ok([])
    else
      match BindingOf(imports[0], valid, blob)
      case Err(e) => Err(e)
      case Ok(b) => match Process(imports[1..], valid, blob) case Err(e) => Err(e) case Ok(bs) => Ok([b] + bs)
  }

  /** Handlers of an option object: of its function leaves, specifier by specifier. */
  function DefaultLeaves(imports: seq<Property>): seq<Override>
  {
    if imports == [] then []
    else (if imports[0].value.Plain? then Leaves(imports[0].key, imports[0].value.entries, []) else []) + DefaultLeaves(imports[1..])
  }

  /** Valid export names are identifiers, hence well-formed strings. */
  ghost predicate NamesIdentify(valid: Name -> bool)
  {
    forall n :: valid(n) ==> IsWellFormed(n)
  }

  /** A host module is its lowered tree, if its export names are valid. */
  lemma {:induction false} ModuleIsLowered(es: seq<Property>, valid: Name -> bool, blob: Serializer)
    requires NamesIdentify(valid)
    ensures ModuleOf(es, valid, blob).Ok? <==> ExportsValid(es, valid) && LowerAll(es, 1, blob).Ok?
    ensures ModuleOf(es, valid, blob).Ok? ==> ModuleOf(es, valid, blob) == LowerAll(es, 1, blob)
  {
    hide IsWellFormed, Lower;
    if es != [] {
      ModuleIsLowered(es[1..], valid, blob);
      assert es == [es[0]] + es[1..];
    }
  }

  /** What `prepare` sends is a well-formed shape within the depth the runtime accepts. */
  lemma {:induction false} PreparedOk(imports: seq<Property>, valid: Name -> bool, blob: Serializer)
    requires NamesIdentify(valid) && Process(imports, valid, blob).Ok?
    ensures DeclaredOk(Process(imports, valid, blob).value)
    ensures forall b | b in Process(imports, valid, blob).value :: b.body.Host? ==> BelowAll(b.body.exports) <= MAX_HOST_MODULE_DEPTH
  {
    hide IsWellFormed, ModuleOf, KeysOk, BelowAll;
    if imports != [] {
      PreparedOk(imports[1..], valid, blob);
      if imports[0].value.Plain? {
        ModuleIsLowered(imports[0].value.entries, valid, blob);
        LowersExactly(imports[0].value.entries, 1, blob);
      }
    }
  }

  // ── The walk that fills the handler map ─────────────────────────────────

  /** `all` is `done`, then whatever the rest comes to. */
  ghost predicate Along<T>(all: Result<seq<T>, LowerError>, done: seq<T>, rest: Result<seq<T>, LowerError>)
  {
    match rest case Err(e) => all == Err(e) case Ok(more) => all == Ok(done + more)
  }

  lemma AlongStep<T>(all: Result<seq<T>, LowerError>, done: seq<T>, x: T, rest: Result<seq<T>, LowerError>)
    requires Along(all, done, if rest.Ok? then Ok([x] + rest.value) else rest)
    ensures Along(all, done + [x], rest)
  {
    if rest.Ok? { assert done + ([x] + rest.value) == (done + [x]) + rest.value; }
  }

  lemma AlongEnds<T>(all: Result<seq<T>, LowerError>, done: seq<T>)
    ensures Along(all, done, Ok([])) ==> all == Ok(done)
    ensures Along(all, [], all)
  {
    assert done + [] == done;
    if all.Ok? { assert [] + all.value == all.value; }
  }

  class Lowering {
    const blob: Serializer
    const valid: Name -> bool
    var handlers: Handlers

    constructor (blob: Serializer, valid: Name -> bool)
      ensures handlers == map[] && this.blob == blob && this.valid == valid
    {
      this.blob, this.valid, handlers := blob, valid, map[];
    }

    method LowerNode(specifier: Name, v: Value, path: seq<Name>) returns (r: Result<Node<Name>, LowerError>)
      modifies this
      ensures r == Lower(v, |path|, blob)
      ensures r.Ok? ==> handlers == Overlay(old(handlers), LeavesAt(specifier, v, path))
      decreases v, 0
    {
      if |path| > MAX_HOST_MODULE_DEPTH { return Err(TooDeep); }
      match v {
        case Func(h) =>
          handlers := handlers[Location(specifier, path) := h];
          r := Ok(Function);
        case Plain(es) =>
          var entries :- LowerEntries(specifier, es, path);
          r := Ok(Object(entries));
        case Text(_) => r := Ok(Data(blob(v)));
        case Undefined => r := Ok(Data(blob(v)));
        case Other(_) => r := Ok(Data(blob(v)));
      }
    }

    method LowerEntries(specifier: Name, es: seq<Property>, path: seq<Name>) returns (r: Result<seq<Entry<Name>>, LowerError>)
      modifies this
      ensures r == LowerAll(es, |path| + 1, blob)
      ensures r.Ok? ==> handlers == Overlay(old(handlers), Leaves(specifier, es, path))
      decreases es, 1
    {
      hide Lower, LowerAll, Leaves, LeavesAt, IsWellFormed;
      ghost var all, whole := LowerAll(es, |path| + 1, blob), Leaves(specifier, es, path);
      var entries: seq<Entry<Name>> := [];
      ghost var leaves: seq<Override> := [];
      AlongEnds(all, entries);
      assert es[0..] == es && [] + whole == whole;
      for i := 0 to |es|
        invariant Along(all, entries, LowerAll(es[i..], |path| + 1, blob))
        invariant whole == leaves + Leaves(specifier, es[i..], path) && handlers == Overlay(old(handlers), leaves)
      {
        LoweringStep(specifier, es[i..], path, blob);
        assert es[i..][0] == es[i] && es[i..][1..] == es[i + 1..];
        if !es[i].value.Undefined? {
          if !IsWellFormed(es[i].key) { return Err(IllFormedKey); }
          var node :- LowerNode(specifier, es[i].value, path + [es[i].key]);
          AlongStep(all, entries, Entry(es[i].key, node), LowerAll(es[i + 1..], |path| + 1, blob));
          entries := entries + [Entry(es[i].key, node)];
          OverlayMore(old(handlers), leaves, LeavesAt(specifier, es[i].value, path + [es[i].key]));
          leaves := leaves + LeavesAt(specifier, es[i].value, path + [es[i].key]);
        }
      }
      assert es[|es|..] == [] && leaves + [] == leaves;
      NothingLowered(specifier, path, blob);
      AlongEnds(all, entries);
      r := Ok(entries);
    }

    method LowerModule(specifier: Name, es: seq<Property>) returns (r: Result<seq<Entry<Name>>, LowerError>)
      modifies this
      ensures r == ModuleOf(es, valid, blob)
      ensures r.Ok? ==> handlers == Overlay(old(handlers), Leaves(specifier, es, []))
    {
      hide Lower, ModuleOf, Leaves, LeavesAt, IsWellFormed;
      ghost var all, whole := ModuleOf(es, valid, blob), Leaves(specifier, es, []);
      var entries: seq<Entry<Name>> := [];
      ghost var leaves: seq<Override> := [];
      AlongEnds(all, entries);
      assert es[0..] == es && [] + whole == whole;
      for i := 0 to |es|
        invariant Along(all, entries, ModuleOf(es[i..], valid, blob))
        invariant whole == leaves + Leaves(specifier, es[i..], []) && handlers == Overlay(old(handlers), leaves)
      {
        ModuleStep(specifier, es[i..], valid, blob);
        assert es[i..][0] == es[i] && es[i..][1..] == es[i + 1..];
        if !es[i].value.Undefined? {
          if !valid(es[i].key) { return Err(BadExport); }
          var node :- LowerNode(specifier, es[i].value, [es[i].key]);
          AlongStep(all, entries, Entry(es[i].key, node), ModuleOf(es[i + 1..], valid, blob));
          entries := entries + [Entry(es[i].key, node)];
          OverlayMore(old(handlers), leaves, LeavesAt(specifier, es[i].value, [es[i].key]));
          leaves := leaves + LeavesAt(specifier, es[i].value, [es[i].key]);
        }
      }
      assert es[|es|..] == [] && leaves + [] == leaves;
      NothingLowered(specifier, [], blob);
      NothingExported(valid, blob);
      AlongEnds(all, entries);
      r := Ok(entries);
    }

    /** The bindings to send, and a handler for every function leaf of the option object. */
    method ProcessImports(imports: seq<Property>) returns (r: Result<seq<Binding<Name>>, LowerError>)
      modifies this
      ensures r == Process(imports, valid, blob)
      ensures r.Ok? ==> handlers == Overlay(old(handlers), DefaultLeaves(imports))
    {
      hide Process, DefaultLeaves, ModuleOf, Leaves, IsWellFormed;
      ghost var all, whole := Process(imports, valid, blob), DefaultLeaves(imports);
      var bindings: seq<Binding<Name>> := [];
      ghost var leaves: seq<Override> := [];
      AlongEnds(all, bindings);
      assert imports[0..] == imports && [] + whole == whole;
      for i := 0 to |imports|
        invariant Along(all, bindings, Process(imports[i..], valid, blob))
        invariant whole == leaves + DefaultLeaves(imports[i..]) && handlers == Overlay(old(handlers), leaves)
      {
        ProcessStep(imports[i..], valid, blob);
        var p := imports[i];
        assert imports[i..][0] == p && imports[i..][1..] == imports[i + 1..];
        if !IsWellFormed(p.key) { return Err(IllFormedSpecifier); }
        var b: Binding<Name>;
        if p.value.Text? {
          b := Binding(p.key, Source(p.value.text));
        } else {
          if !p.value.Plain? { return Err(NotAModule); }
          var exports :- LowerModule(p.key, p.value.entries);
          b := Binding(p.key, Host(exports));
          OverlayMore(old(handlers), leaves, Leaves(p.key, p.value.entries, []));
          leaves := leaves + Leaves(p.key, p.value.entries, []);
        }
        AlongStep(all, bindings, b, Process(imports[i + 1..], valid, blob));
        bindings := bindings + [b];
      }
      assert imports[|imports|..] == [] && leaves + [] == leaves;
      NothingProcessed(valid, blob);
      AlongEnds(all, bindings);
      r := Ok(bindings);
    }
  }

  lemma LoweringStep(specifier: Name, es: seq<Property>, path: seq<Name>, blob: Serializer)
    requires es != []
    ensures LeavesAt(specifier, Undefined, path) == []
    ensures Leaves(specifier, es, path) == LeavesAt(specifier, es[0].value, path + [es[0].key]) + Leaves(specifier, es[1..], path)
    ensures es[0].value.Undefined? ==>
              LowerAll(es, |path| + 1, blob) == LowerAll(es[1..], |path| + 1, blob) && LeavesAt(specifier, es[0].value, path + [es[0].key]) == []
    ensures !es[0].value.Undefined? ==>
              LowerAll(es, |path| + 1, blob) ==
                if !IsWellFormed(es[0].key) then Err(IllFormedKey)
                else if Lower(es[0].value, |path + [es[0].key]|, blob).Err? then Err(Lower(es[0].value, |path + [es[0].key]|, blob).error)
                else
                  var rest := LowerAll(es[1..], |path| + 1, blob);
                  if rest.Ok? then Ok([Entry(es[0].key, Lower(es[0].value, |path + [es[0].key]|, blob).value)] + rest.value) else rest
  {
    hide Lower, IsWellFormed;
  }

  lemma ModuleStep(specifier: Name, es: seq<Property>, valid: Name -> bool, blob: Serializer)
    requires es != []
    ensures Leaves(specifier, es, []) == LeavesAt(specifier, es[0].value, [es[0].key]) + Leaves(specifier, es[1..], [])
    ensures es[0].value.Undefined? ==>
              ModuleOf(es, valid, blob) == ModuleOf(es[1..], valid, blob) && LeavesAt(specifier, es[0].value, [es[0].key]) == []
    ensures !es[0].value.Undefined? ==>
              ModuleOf(es, valid, blob) ==
                if !valid(es[0].key) then Err(BadExport)
                else if Lower(es[0].value, 1, blob).Err? then Err(Lower(es[0].value, 1, blob).error)
                else
                  var rest := ModuleOf(es[1..], valid, blob);
                  if rest.Ok? then Ok([Entry(es[0].key, Lower(es[0].value, 1, blob).value)] + rest.value) else rest
  {
    hide Lower;
    assert [] + [es[0].key] == [es[0].key];
  }

  lemma ProcessStep(imports: seq<Property>, valid: Name -> bool, blob: Serializer)
    requires imports != []
    ensures var b, rest := BindingOf(imports[0], valid, blob), Process(imports[1..], valid, blob);
            Process(imports, valid, blob) == if b.Err? then Err(b.error) else if rest.Ok? then Ok([b.value] + rest.value) else rest
    ensures DefaultLeaves(imports) ==
              (if imports[0].value.Plain? then Leaves(imports[0].key, imports[0].value.entries, []) else []) + DefaultLeaves(imports[1..])
  {
    hide BindingOf, Leaves;
  }

  lemma NothingLowered(specifier: Name, path: seq<Name>, blob: Serializer)
    ensures LowerAll([], |path| + 1, blob) == Ok([]) && Leaves(specifier, [], path) == []
  {
  }

  lemma NothingExported(valid: Name -> bool, blob: Serializer)
    ensures ModuleOf([], valid, blob) == Ok([])
  {
  }

  lemma NothingProcessed(valid: Name -> bool, blob: Serializer)
    ensures Process([], valid, blob) == Ok([]) && DefaultLeaves([]) == []
  {
  }
}
