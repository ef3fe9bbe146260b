// Host globals: what `prepare` sends and keeps, what a run re-installs, and the runtime's
// check of it.

module Globals {
  import opened Wrappers
  import opened Bytes
  import opened Utf8
  import opened Names

  type Handler = nat

  /** A declared global by the form its value takes; `Unknown` is a form the client ignores. */
  datatype HostGlobal =
    | Callable(handler: Handler)
    | Source(expr: Name)
    | BridgeForm(handler: Handler, enumerable: Option<bool>)
    | StringForm(expr: Name, enumerable: Option<bool>)
    | DataForm(blob: seq<byte>, enumerable: Option<bool>)
    | ShimForm(shim: Name, handler: Handler, enumerable: Option<bool>)
    | Unknown

  /** The wire's definitions; text is the client's or the wire's, data the serializer's bytes. */
  datatype Def<K> =
    | Bridge(name: K, enumerable: bool)
    | StringExpr(name: K, expr: K, enumerable: bool)
    | Data(name: K, blob: seq<byte>, enumerable: bool)
    | Shim(name: K, shim: K, handlerName: K, enumerable: bool)

  datatype Named<T> = Named(name: Name, value: T)

  /** What a prefix keeps of one declared global. */
  datatype Declared = AsValue | AsBridge(handler: Handler, enumerable: bool) | AsShim(handler: Handler)

  datatype Override = Function(handler: Handler) | NotAFunction

  datatype Refused = ReservedName(name: Name) | IllFormedName(name: Name) | UndeclaredName(name: Name) | FrozenName(name: Name) | InvalidValue(name: Name)

  /** `__iso4_`. */
  const BEFORE: Name := [0x5F, 0x5F, 0x69, 0x73, 0x6F, 0x34, 0x5F]

  /** `_h`. */
  const AFTER: Name := [0x5F, 0x68]

  function ShimHandlerName(n: Name): Name
  {
    BEFORE + n + AFTER
  }

  function OrTrue(b: Option<bool>): bool { if b.Some? then b.value else true }

  // ── prepare ─────────────────────────────────────────────────────────────

  function DefOf(g: Named<HostGlobal>): Option<Def<Name>>
  {
    match g.value
    case Callable(_) => Some(Bridge(g.name, true))
    case Source(e) => Some(StringExpr(g.name, e, true))
    case BridgeForm(_, e) => Some(Bridge(g.name, OrTrue(e)))
    case StringForm(x, e) => Some(StringExpr(g.name, x, OrTrue(e)))
    case DataForm(v, e) => Some(Data(g.name, v, OrTrue(e)))
    case ShimForm(s, _, e) => Some(Shim(g.name, s, ShimHandlerName(g.name), OrTrue(e)))
    case Unknown => None
  }

  function ProcessGlobals(gs: seq<Named<HostGlobal>>, owned: set<Name>): Result<seq<Def<Name>>, Refused>
  {
    if gs == [] then Ok([])
    else if !IsWellFormed(gs[0].name) then Err(IllFormedName(gs[0].name))
    else if gs[0].name in owned then Err(ReservedName(gs[0].name))
    else
      match ProcessGlobals(gs[1..], owned)
      case Err(e) => Err(e)
      case Ok(rest) => Ok((if DefOf(gs[0]).Some? then [DefOf(gs[0]).value] else []) + rest)
  }

  function DeclaredOf(g: HostGlobal): Option<Declared>
  {
    match g
    case Callable(h) => Some(AsBridge(h, true))
    case Source(_) => Some(AsValue)
    case StringForm(_, _) => Some(AsValue)
    case DataForm(_, _) => Some(AsValue)
    case ShimForm(_, h, _) => Some(AsShim(h))
    case BridgeForm(h, e) => Some(AsBridge(h, OrTrue(e)))
    case Unknown => None
  }

  /** The kept shape, in declaration order; an option object has each name once. */
  function DeclareGlobals(gs: seq<Named<HostGlobal>>): seq<Named<Declared>>
  {
    if gs == [] then []
    else (if DeclaredOf(gs[0].value).Some? then [Named(gs[0].name, DeclaredOf(gs[0].value).value)] else []) + DeclareGlobals(gs[1..])
  }

  /** Where calls of the declared globals go by default: a stub's name to its handler. */
  function DefaultDispatch(m: Dispatch, gs: seq<Named<HostGlobal>>): Dispatch
    decreases gs
  {
    if gs == [] then m
    else
      match gs[0].value
      case Callable(h) => DefaultDispatch(m[gs[0].name := h], gs[1..])
      case BridgeForm(h, _) => DefaultDispatch(m[gs[0].name := h], gs[1..])
      case ShimForm(_, h, _) => DefaultDispatch(m[ShimHandlerName(gs[0].name) := h], gs[1..])
      case _ => DefaultDispatch(m, gs[1..])
  }

  method Process(gs: seq<Named<HostGlobal>>, owned: set<Name>) returns (r: Result<(seq<Def<Name>>, Dispatch), Refused>)
    ensures match ProcessGlobals(gs, owned)
            case Err(e) => r == Err(e)
            case Ok(defs) => r == Ok((defs, DefaultDispatch(map[], gs)))
  {
    hide ProcessGlobals;
    var defs: seq<Def<Name>>, dispatch: Dispatch := [], map[];
    assert gs[0..] == gs;
    SofarStart(ProcessGlobals(gs, owned));
    for i := 0 to |gs|
      invariant Sofar(ProcessGlobals(gs, owned), defs, ProcessGlobals(gs[i..], owned))
      invariant DefaultDispatch(map[], gs) == DefaultDispatch(dispatch, gs[i..])
    {
      assert gs[i..][0] == gs[i] && gs[i..][1..] == gs[i + 1..];
      SofarStep(gs, owned, i, defs);
      var name := gs[i].name;
      if !IsWellFormed(name) { return Err(IllFormedName(name)); }
      if name in owned { return Err(ReservedName(name)); }
      match gs[i].value {
        case Callable(h) =>
          defs, dispatch := defs + [Bridge(name, true)], dispatch[name := h];
        case Source(e) =>
          defs := defs + [StringExpr(name, e, true)];
        case BridgeForm(h, e) =>
          defs, dispatch := defs + [Bridge(name, OrTrue(e))], dispatch[name := h];
        case StringForm(x, e) =>
          defs := defs + [StringExpr(name, x, OrTrue(e))];
        case DataForm(v, e) =>
          defs := defs + [Data(name, v, OrTrue(e))];
        case ShimForm(shim, h, e) =>
          var handlerName := ShimHandlerName(name);
          defs, dispatch := defs + [Shim(name, shim, handlerName, OrTrue(e))], dispatch[handlerName := h];
        case Unknown =>
      }
    }
    assert gs[|gs|..] == [] && defs + [] == defs;
    ProcessNothing(owned);
    r := Ok((defs, dispatch));
  }

  /** `all` is `defs`, then whatever the rest comes to. */
  ghost predicate Sofar(all: Result<seq<Def<Name>>, Refused>, defs: seq<Def<Name>>, rest: Result<seq<Def<Name>>, Refused>)
  {
    match rest
    case Err(e) => all == Err(e)
    case Ok(more) => all == Ok(defs + more)
  }

  lemma SofarStart(all: Result<seq<Def<Name>>, Refused>)
    ensures Sofar(all, [], all)
  {
    if all.Ok? { assert [] + all.value == all.value; }
  }

  lemma ProcessNothing(owned: set<Name>)
    ensures ProcessGlobals([], owned) == Ok([])
  {
  }

  lemma SofarStep(gs: seq<Named<HostGlobal>>, owned: set<Name>, i: nat, defs: seq<Def<Name>>)
    requires i < |gs| && Sofar(ProcessGlobals(gs, owned), defs, ProcessGlobals(gs[i..], owned))
    ensures if !IsWellFormed(gs[i].name) then ProcessGlobals(gs, owned) == Err(IllFormedName(gs[i].name))
            else if gs[i].name in owned then ProcessGlobals(gs, owned) == Err(ReservedName(gs[i].name))
            else
              Sofar(ProcessGlobals(gs, owned), if DefOf(gs[i]).Some? then defs + [DefOf(gs[i]).value] else defs,
                    ProcessGlobals(gs[i + 1..], owned))
  {
    hide IsWellFormed, DefOf;
    assert gs[i..][0] == gs[i] && gs[i..][1..] == gs[i + 1..];
    var rest := ProcessGlobals(gs[i + 1..], owned);
    if rest.Ok? {
      var one := if DefOf(gs[i]).Some? then [DefOf(gs[i]).value] else [];
      assert defs + (one + rest.value) == (defs + one) + rest.value && defs + [] == defs;
    }
  }

  method Declare(gs: seq<Named<HostGlobal>>) returns (declared: seq<Named<Declared>>)
    ensures declared == DeclareGlobals(gs)
  {
    hide DeclaredOf, DeclareGlobals;
    declared := [];
    assert gs[0..] == gs && [] + DeclareGlobals(gs) == DeclareGlobals(gs);
    for i := 0 to |gs|
      invariant DeclareGlobals(gs) == declared + DeclareGlobals(gs[i..])
    {
      DeclareStep(gs[i..]);
      assert gs[i..][0] == gs[i] && gs[i..][1..] == gs[i + 1..];
      var kept := DeclaredOf(gs[i].value);
      if kept.Some? { declared := declared + [Named(gs[i].name, kept.value)]; }
    }
    assert gs[|gs|..] == [];
    DeclareNothing();
  }

  lemma DeclareStep(gs: seq<Named<HostGlobal>>)
    requires gs != []
    ensures DeclareGlobals(gs)
         == (if DeclaredOf(gs[0].value).Some? then [Named(gs[0].name, DeclaredOf(gs[0].value).value)] else []) + DeclareGlobals(gs[1..])
  {
  }

  lemma DeclareNothing()
    ensures DeclareGlobals([]) == []
  {
  }

  // ── A run's globals ─────────────────────────────────────────────────────

  function Get<T>(ds: seq<Named<T>>, n: Name): Option<T>
  {
    if ds == [] then None else if ds[0].name == n then Some(ds[0].value) else Get(ds[1..], n)
  }

  function CheckOne(o: Named<Override>, declared: seq<Named<Declared>>): Result<(), Refused>
  {
    if !IsWellFormed(o.name) then Err(IllFormedName(o.name))
    else
      var shape := Get(declared, o.name);
      if shape.None? then Err(UndeclaredName(o.name))
      else if shape.value.AsValue? then Err(FrozenName(o.name))
      else if o.value.Function? then Ok(())
      else Err(InvalidValue(o.name))
  }

  function CheckAll(os: seq<Named<Override>>, declared: seq<Named<Declared>>): Result<(), Refused>
  {
    if os == [] then Ok(())
    else if CheckOne(os[0], declared).Err? then CheckOne(os[0], declared)
    else CheckAll(os[1..], declared)
  }

  function StubName(d: Named<Declared>): Name
  {
    if d.value.AsShim? then ShimHandlerName(d.name) else d.name
  }

  /** Every declared function global is re-installed, as a bridge stub. */
  function RunDefs(declared: seq<Named<Declared>>): seq<Def<Name>>
  {
    if declared == [] then []
    else
      (if declared[0].value.AsValue? then []
       else [Bridge(StubName(declared[0]), declared[0].value.AsShim? || declared[0].value.enumerable)])
      + RunDefs(declared[1..])
  }

  type Dispatch = map<Name, Handler>

  function HandlerFor(d: Named<Declared>, os: seq<Named<Override>>): Handler
    requires !d.value.AsValue?
  {
    var given := Get(os, d.name);
    if given.Some? && given.value.Function? then given.value.handler else d.value.handler
  }

  function RunDispatch(m: Dispatch, declared: seq<Named<Declared>>, os: seq<Named<Override>>): Dispatch
    decreases declared
  {
    if declared == [] then m
    else
      RunDispatch(if declared[0].value.AsValue? then m else m[StubName(declared[0]) := HandlerFor(declared[0], os)],
                  declared[1..], os)
  }

  method ExtractBridgeGlobals(os: seq<Named<Override>>, declared: seq<Named<Declared>>)
    returns (r: Result<(seq<Def<Name>>, Dispatch), Refused>)
    ensures match CheckAll(os, declared)
            case Err(e) => r == Err(e)
            case Ok(_) => r == Ok((RunDefs(declared), RunDispatch(map[], declared, os)))
  {
    for i := 0 to |os|
      invariant CheckAll(os, declared) == CheckAll(os[i..], declared)
    {
      assert os[i..][0] == os[i] && os[i..][1..] == os[i + 1..];
      var name := os[i].name;
      if !IsWellFormed(name) { return Err(IllFormedName(name)); }
      var shape := Get(declared, name);
      if shape.None? { return Err(UndeclaredName(name)); }
      if shape.value.AsValue? { return Err(FrozenName(name)); }
      if !os[i].value.Function? { return Err(InvalidValue(name)); }
    }
    assert os[|os|..] == [];
    var defs, dispatch := Install(os, declared);
    r := Ok((defs, dispatch));
  }

  method Install(os: seq<Named<Override>>, declared: seq<Named<Declared>>) returns (defs: seq<Def<Name>>, dispatch: Dispatch)
    ensures defs == RunDefs(declared) && dispatch == RunDispatch(map[], declared, os)
  {
    defs, dispatch := [], map[];
    assert declared[0..] == declared;
    for i := 0 to |declared|
      invariant RunDefs(declared) == defs + RunDefs(declared[i..])
      invariant RunDispatch(map[], declared, os) == RunDispatch(dispatch, declared[i..], os)
    {
      assert declared[i..][0] == declared[i] && declared[i..][1..] == declared[i + 1..];
      var d := declared[i];
      if !d.value.AsValue? {
        var given := Get(os, d.name);
        var stub := StubName(d);
        defs := defs + [Bridge(stub, d.value.AsShim? || d.value.enumerable)];
        dispatch := dispatch[stub := if given.Some? && given.value.Function? then given.value.handler else d.value.handler];
      }
    }
    assert declared[|declared|..] == [];
  }

  // ── The runtime's check ─────────────────────────────────────────────────

  datatype Verdict<K> = Frozen(name: K) | Undeclared(name: K)

  function StubOf<K>(d: Def<K>): Option<K>
  {
    match d
    case Bridge(n, _) => Some(n)
    case Shim(_, _, h, _) => Some(h)
    case _ => None
  }

  function Stubs<K>(ds: seq<Def<K>>): seq<K>
  {
    if ds == [] then [] else (if StubOf(ds[0]).Some? then [StubOf(ds[0]).value] else []) + Stubs(ds[1..])
  }

  predicate IsValue<K>(d: Def<K>) { d.StringExpr? || d.Data? }

  function Judge<K(==)>(d: Def<K>, stubs: seq<K>, declared: seq<Def<K>>): Result<(), Verdict<K>>
  {
    if d.Bridge? && d.name in stubs then Ok(())
    else if exists v :: v in declared && IsValue(v) && v.name == d.name then Err(Frozen(d.name))
    else Err(Undeclared(d.name))
  }

  /** The first refused definition, in order. */
  function JudgeAll<K(==)>(ds: seq<Def<K>>, stubs: seq<K>, declared: seq<Def<K>>): Result<(), Verdict<K>>
  {
    if ds == [] then Ok(())
    else if Judge(ds[0], stubs, declared).Err? then Judge(ds[0], stubs, declared)
    else JudgeAll(ds[1..], stubs, declared)
  }

  method ValidateGlobalRebinds<K(==)>(globals: seq<Def<K>>, stubs: seq<K>, declared: seq<Def<K>>) returns (r: Result<(), Verdict<K>>)
    ensures r == JudgeAll(globals, stubs, declared)
  {
    for i := 0 to |globals|
      invariant JudgeAll(globals, stubs, declared) == JudgeAll(globals[i..], stubs, declared)
    {
      assert globals[i..][0] == globals[i] && globals[i..][1..] == globals[i + 1..];
      var def := globals[i];
      if !(def.Bridge? && def.name in stubs) {
        var frozen := exists v :: v in declared && IsValue(v) && v.name == def.name;
        return Err(if frozen then Frozen(def.name) else Undeclared(def.name));
      }
    }
    r := Ok(());
  }

  // ── On the wire ─────────────────────────────────────────────────────────

  function WireDef(d: Def<Name>): Def<seq<byte>>
  {
    match d
    case Bridge(n, e) => Bridge(Encoded(n), e)
    case StringExpr(n, x, e) => StringExpr(Encoded(n), Encoded(x), e)
    case Data(n, v, e) => Data(Encoded(n), v, e)
    case Shim(n, s, h, e) => Shim(Encoded(n), Encoded(s), Encoded(h), e)
  }

  function WireDefs(ds: seq<Def<Name>>): seq<Def<seq<byte>>>
  {
    if ds == [] then [] else [WireDef(ds[0])] + WireDefs(ds[1..])
  }

  predicate UniqueNames<T>(gs: seq<Named<T>>)
  {
    forall i, j :: 0 <= i < j < |gs| ==> gs[i].name != gs[j].name
  }

  // ── Agreement ───────────────────────────────────────────────────────────

  lemma WellFormedStub(n: Name)
    requires IsWellFormed(n)
    ensures IsWellFormed(ShimHandlerName(n))
  {
    WrappedWellFormed(BEFORE, n, AFTER);
  }

  lemma {:induction false} StubsWire(ds: seq<Def<Name>>)
    ensures Stubs(WireDefs(ds)) == seq(|Stubs(ds)|, k requires 0 <= k < |Stubs(ds)| => Encoded(Stubs(ds)[k]))
  {
    if ds != [] { StubsWire(ds[1..]); }
  }

  lemma StubsFront<K>(d: Option<Def<K>>, ds: seq<Def<K>>)
    ensures var all := (if d.Some? then [d.value] else []) + ds;
            && Stubs(all) == (if d.Some? && StubOf(d.value).Some? then [StubOf(d.value).value] else []) + Stubs(ds)
            && (forall v :: v in all <==> v in ds || d == Some(v))
  {
    var all := (if d.Some? then [d.value] else []) + ds;
    if d.Some? { assert all[1..] == ds; } else { assert all == ds; }
  }

  /** The definition of one global, on the client's side and as a run re-installs it. */
  function RunDefOf(g: Named<HostGlobal>): Option<Def<Name>>
  {
    var d := DeclaredOf(g.value);
    if d.None? || d.value.AsValue? then None
    else Some(Bridge(StubName(Named(g.name, d.value)), d.value.AsShim? || d.value.enumerable))
  }

  lemma {:induction false} RunDefsOf(gs: seq<Named<HostGlobal>>)
    requires gs != []
    ensures RunDefs(DeclareGlobals(gs)) == (if RunDefOf(gs[0]).Some? then [RunDefOf(gs[0]).value] else []) + RunDefs(DeclareGlobals(gs[1..]))
  {
    var d := DeclaredOf(gs[0].value);
    if d.Some? {
      assert DeclareGlobals(gs)[0] == Named(gs[0].name, d.value) && DeclareGlobals(gs)[1..] == DeclareGlobals(gs[1..]);
    } else {
      assert DeclareGlobals(gs) == DeclareGlobals(gs[1..]);
    }
  }

  /** The stubs a run re-installs are the stubs the prefix declared, all of them, in the same order. */
  lemma {:induction false} RunStubs(gs: seq<Named<HostGlobal>>, owned: set<Name>)
    requires ProcessGlobals(gs, owned).Ok?
    ensures Stubs(RunDefs(DeclareGlobals(gs))) == Stubs(ProcessGlobals(gs, owned).value)
    ensures forall d | d in RunDefs(DeclareGlobals(gs)) :: d.Bridge? && d.name in Stubs(ProcessGlobals(gs, owned).value)
  {
    hide IsWellFormed, ShimHandlerName;
    if gs != [] {
      RunStubs(gs[1..], owned);
      RunDefsOf(gs);
      StubsFront(RunDefOf(gs[0]), RunDefs(DeclareGlobals(gs[1..])));
      StubsFront(DefOf(gs[0]), ProcessGlobals(gs[1..], owned).value);
    }
  }

  /** Every name on the wire is well formed. */
  predicate NamesOk(ds: seq<Def<Name>>)
  {
    forall d | d in ds :: IsWellFormed(d.name) && (d.Shim? ==> IsWellFormed(d.handlerName))
  }

  lemma {:induction false} ProcessedNames(gs: seq<Named<HostGlobal>>, owned: set<Name>)
    requires ProcessGlobals(gs, owned).Ok?
    ensures NamesOk(ProcessGlobals(gs, owned).value)
  {
    hide IsWellFormed, ShimHandlerName;
    if gs != [] {
      ProcessedNames(gs[1..], owned);
      WellFormedStub(gs[0].name);
      StubsFront(DefOf(gs[0]), ProcessGlobals(gs[1..], owned).value);
    }
  }

  lemma {:induction false} InStubsWire(ds: seq<Def<Name>>, n: Name)
    requires NamesOk(ds) && IsWellFormed(n)
    ensures Encoded(n) in Stubs(WireDefs(ds)) <==> n in Stubs(ds)
    ensures (exists v :: v in WireDefs(ds) && IsValue(v) && v.name == Encoded(n)) <==> (exists v :: v in ds && IsValue(v) && v.name == n)
  {
    hide Encoded, IsWellFormed;
    if ds != [] {
      assert ds[0] in ds;
      InStubsWire(ds[1..], n);
      SameOnTheWire(ds[0].name, n);
      if ds[0].Shim? { SameOnTheWire(ds[0].handlerName, n); }
      assert ds == [ds[0]] + ds[1..];
    }
  }

  /** For well-formed names the runtime's verdict on the wire is its verdict on the client's own definitions. */
  lemma JudgeWire(n: Name, e: bool, ds: seq<Def<Name>>)
    requires NamesOk(ds) && IsWellFormed(n)
    ensures Judge(WireDef(Bridge(n, e)), Stubs(WireDefs(ds)), WireDefs(ds))
         == match Judge(Bridge(n, e), Stubs(ds), ds)
            case Ok(_) => Ok(()) case Err(Frozen(m)) => Err(Frozen(Encoded(m))) case Err(Undeclared(m)) => Err(Undeclared(Encoded(m)))
  {
    hide Encoded, IsWellFormed;
    InStubsWire(ds, n);
  }

  /** Whatever a run overrides, the definitions the client then sends pass the runtime's check. */
  lemma RunPassesTheCheck(gs: seq<Named<HostGlobal>>, owned: set<Name>)
    requires ProcessGlobals(gs, owned).Ok?
    ensures var sent, kept := WireDefs(RunDefs(DeclareGlobals(gs))), WireDefs(ProcessGlobals(gs, owned).value);
            JudgeAll(sent, Stubs(kept), kept) == Ok(())
  {
    RunStubs(gs, owned);
    ProcessedNames(gs, owned);
    Passes(RunDefs(DeclareGlobals(gs)), ProcessGlobals(gs, owned).value);
  }

  lemma {:induction false} Passes(sent: seq<Def<Name>>, kept: seq<Def<Name>>)
    requires NamesOk(kept) && forall d | d in sent :: d.Bridge? && d.name in Stubs(kept)
    ensures JudgeAll(WireDefs(sent), Stubs(WireDefs(kept)), WireDefs(kept)) == Ok(())
  {
    hide Encoded, IsWellFormed, Judge;
    if sent != [] {
      assert sent[0] in sent;
      StubWellFormed(kept, sent[0].name);
      StubJudged(sent[0], kept);
      Passes(sent[1..], kept);
    }
  }

  lemma StubJudged(d: Def<Name>, kept: seq<Def<Name>>)
    requires NamesOk(kept) && d.Bridge? && d.name in Stubs(kept) && IsWellFormed(d.name)
    ensures Judge(WireDef(d), Stubs(WireDefs(kept)), WireDefs(kept)) == Ok(())
  {
    hide Encoded, IsWellFormed;
    InStubsWire(kept, d.name);
  }

  lemma {:induction false} StubWellFormed(ds: seq<Def<Name>>, n: Name)
    requires NamesOk(ds) && n in Stubs(ds)
    ensures IsWellFormed(n)
  {
    hide IsWellFormed;
    assert ds[0] in ds;
    if ds != [] && !(StubOf(ds[0]) == Some(n)) { StubWellFormed(ds[1..], n); }
  }

  // ── Refusals ────────────────────────────────────────────────────────────

  /** `n` is the private name of a declared shim's handler. */
  ghost predicate PrivateStub(gs: seq<Named<HostGlobal>>, n: Name)
  {
    exists g :: g in gs && g.value.ShimForm? && ShimHandlerName(g.name) == n
  }

  /** A value global is kept as one exactly if a value definition of its name was sent. */
  lemma {:induction false} DeclaredValues(gs: seq<Named<HostGlobal>>, owned: set<Name>, n: Name)
    requires ProcessGlobals(gs, owned).Ok? && UniqueNames(gs)
    ensures Get(DeclareGlobals(gs), n) == Some(AsValue) <==>
              exists v :: v in ProcessGlobals(gs, owned).value && IsValue(v) && v.name == n
    ensures (forall g | g in gs :: g.name != n) ==> Get(DeclareGlobals(gs), n) == None
  {
    hide IsWellFormed, ShimHandlerName, Stubs;
    if gs != [] {
      UniqueRest(gs);
      DeclaredValues(gs[1..], owned, n);
      StubsFront(DefOf(gs[0]), ProcessGlobals(gs[1..], owned).value);
      GetDeclared(gs, n);
      assert gs == [gs[0]] + gs[1..];
      if gs[0].name == n {
        DeclaredValueThere(gs[1..], owned, n);
      }
    }
  }

  lemma {:induction false} DeclaredValueThere(gs: seq<Named<HostGlobal>>, owned: set<Name>, n: Name)
    requires ProcessGlobals(gs, owned).Ok? && forall g | g in gs :: g.name != n
    ensures forall v | v in ProcessGlobals(gs, owned).value :: v.name != n
  {
    hide IsWellFormed, ShimHandlerName, Stubs;
    if gs != [] {
      assert gs[0] in gs;
      DeclaredValueThere(gs[1..], owned, n);
      StubsFront(DefOf(gs[0]), ProcessGlobals(gs[1..], owned).value);
    }
  }

  lemma UniqueRest(gs: seq<Named<HostGlobal>>)
    requires UniqueNames(gs) && gs != []
    ensures UniqueNames(gs[1..]) && forall g | g in gs[1..] :: g.name != gs[0].name
  {
    var rest := gs[1..];
    forall i, j | 0 <= i < j < |rest| ensures rest[i].name != rest[j].name { assert gs[i + 1].name != gs[j + 1].name; }
    forall g | g in rest ensures g.name != gs[0].name { var k :| 0 <= k < |rest| && rest[k] == g; assert gs[k + 1] == g; }
  }

  /** The stubs sent are the plain function globals' names and the private names. */
  lemma {:induction false} DeclaredStubs(gs: seq<Named<HostGlobal>>, owned: set<Name>, n: Name)
    requires ProcessGlobals(gs, owned).Ok? && UniqueNames(gs)
    ensures n in Stubs(ProcessGlobals(gs, owned).value) <==>
              PrivateStub(gs, n) || (Get(DeclareGlobals(gs), n).Some? && Get(DeclareGlobals(gs), n).value.AsBridge?)
  {
    hide IsWellFormed, ShimHandlerName, PrivateStub, UniqueNames, Get, DeclareGlobals, Stubs, StubOf, DefOf, DeclaredOf;
    PrivateFront(gs, n);
    if gs != [] {
      UniqueRest(gs);
      DeclaredStubs(gs[1..], owned, n);
      StubsFront(DefOf(gs[0]), ProcessGlobals(gs[1..], owned).value);
      StubOfFront(gs[0], n);
      GetDeclared(gs, n);
      DeclaredValues(gs[1..], owned, n);
    } else {
      NoStubs(n);
    }
  }

  lemma NoStubs(n: Name)
    ensures Stubs<Name>([]) == [] && Get(DeclareGlobals([]), n) == None
  {
  }

  lemma StubOfFront(g: Named<HostGlobal>, n: Name)
    ensures (DefOf(g).Some? && StubOf(DefOf(g).value) == Some(n)) <==>
              || (g.value.ShimForm? && ShimHandlerName(g.name) == n)
              || (g.name == n && DeclaredOf(g.value).Some? && DeclaredOf(g.value).value.AsBridge?)
  {
    hide ShimHandlerName;
  }

  lemma PrivateFront(gs: seq<Named<HostGlobal>>, n: Name)
    ensures PrivateStub(gs, n) <==>
              gs != [] && (PrivateStub(gs[1..], n) || (gs[0].value.ShimForm? && ShimHandlerName(gs[0].name) == n))
  {
    hide ShimHandlerName;
    if gs != [] { assert gs == [gs[0]] + gs[1..]; }
  }

  lemma GetDeclared(gs: seq<Named<HostGlobal>>, n: Name)
    requires gs != []
    ensures Get(DeclareGlobals(gs), n)
         == if gs[0].name == n && DeclaredOf(gs[0].value).Some? then DeclaredOf(gs[0].value) else Get(DeclareGlobals(gs[1..]), n)
  {
    var d := DeclaredOf(gs[0].value);
    if d.Some? {
      assert DeclareGlobals(gs)[0] == Named(gs[0].name, d.value) && DeclareGlobals(gs)[1..] == DeclareGlobals(gs[1..]);
    } else {
      assert DeclareGlobals(gs) == DeclareGlobals(gs[1..]);
    }
  }

  /**
   * A name the client refuses as undeclared or frozen the runtime refuses alike, except
   * exactly when it is the private name of a shim's handler, which the runtime admits.
   */
  lemma RefusalsAgree(gs: seq<Named<HostGlobal>>, owned: set<Name>, o: Named<Override>, e: bool)
    requires ProcessGlobals(gs, owned).Ok? && UniqueNames(gs)
    ensures var kept := WireDefs(ProcessGlobals(gs, owned).value);
            var verdict := Judge(WireDef(Bridge(o.name, e)), Stubs(kept), kept);
            match CheckOne(o, DeclareGlobals(gs))
            case Err(UndeclaredName(n)) => verdict == (if PrivateStub(gs, n) then Ok(()) else Err(Undeclared(Encoded(n))))
            case Err(FrozenName(n)) => verdict == (if PrivateStub(gs, n) then Ok(()) else Err(Frozen(Encoded(n))))
            case _ => true
  {
    hide Encoded, IsWellFormed, PrivateStub;
    ProcessedNames(gs, owned);
    if IsWellFormed(o.name) {
      DeclaredValues(gs, owned, o.name);
      DeclaredStubs(gs, owned, o.name);
      JudgeWire(o.name, e, ProcessGlobals(gs, owned).value);
    }
  }

  // ── Dispatch ────────────────────────────────────────────────────────────

  lemma StubOfShim(a: Name, b: Name)
    ensures ShimHandlerName(a) == ShimHandlerName(b) <==> a == b
  {
    assert ShimHandlerName(a)[|BEFORE|..|BEFORE| + |a|] == a;
    assert ShimHandlerName(b)[|BEFORE|..|BEFORE| + |b|] == b;
    if ShimHandlerName(a) == ShimHandlerName(b) { assert |a| == |b|; }
  }

  /** Two function globals share a stub exactly if one is plain and carries the other's private name. */
  lemma StubClash(d: Named<Declared>, e: Named<Declared>)
    requires d.name != e.name
    ensures StubName(d) == StubName(e) <==>
              || (d.value.AsShim? && !e.value.AsShim? && e.name == ShimHandlerName(d.name))
              || (e.value.AsShim? && !d.value.AsShim? && d.name == ShimHandlerName(e.name))
  {
    StubOfShim(d.name, e.name);
  }

  /** A later function global takes the same stub. */
  predicate Shadowed(declared: seq<Named<Declared>>, k: nat)
    requires k < |declared|
  {
    exists j :: k < j < |declared| && !declared[j].value.AsValue? && StubName(declared[j]) == StubName(declared[k])
  }

  lemma ShadowedBelow(declared: seq<Named<Declared>>, k: nat)
    requires 0 < k < |declared|
    ensures Shadowed(declared[1..], k - 1) ==> Shadowed(declared, k)
  {
    var rest := declared[1..];
    if j :| k - 1 < j < |rest| && !rest[j].value.AsValue? && StubName(rest[j]) == StubName(rest[k - 1]) {
      assert declared[j + 1] == rest[j];
    }
  }

  lemma {:induction false} KeepsOther(m: Dispatch, declared: seq<Named<Declared>>, os: seq<Named<Override>>, stub: Name)
    requires stub in m && forall j :: 0 <= j < |declared| && !declared[j].value.AsValue? ==> StubName(declared[j]) != stub
    ensures stub in RunDispatch(m, declared, os) && RunDispatch(m, declared, os)[stub] == m[stub]
    decreases declared
  {
    hide StubName;
    if declared != [] {
      var d := declared[0];
      KeepsOther(if d.value.AsValue? then m else m[StubName(d) := HandlerFor(d, os)], declared[1..], os, stub);
    }
  }

  /** Each declared function is reached at its stub, by its override if it has one, unless a later one takes the stub. */
  lemma {:induction false} Dispatched(m: Dispatch, declared: seq<Named<Declared>>, os: seq<Named<Override>>, k: nat)
    requires k < |declared| && !declared[k].value.AsValue? && !Shadowed(declared, k)
    ensures StubName(declared[k]) in RunDispatch(m, declared, os)
    ensures RunDispatch(m, declared, os)[StubName(declared[k])] == HandlerFor(declared[k], os)
    decreases declared
  {
    hide StubName, HandlerFor;
    var d := declared[0];
    var m' := if d.value.AsValue? then m else m[StubName(d) := HandlerFor(d, os)];
    if k == 0 {
      forall j | 0 <= j < |declared[1..]| && !declared[1..][j].value.AsValue? ensures StubName(declared[1..][j]) != StubName(d) {
        assert declared[1..][j] == declared[j + 1];
      }
      KeepsOther(m', declared[1..], os, StubName(d));
    } else {
      ShadowedBelow(declared, k);
      Dispatched(m', declared[1..], os, k - 1);
    }
  }

  /** A run that overrides nothing dispatches as the prefix was prepared to. */
  lemma {:induction false} NothingOverridden(m: Dispatch, gs: seq<Named<HostGlobal>>)
    ensures RunDispatch(m, DeclareGlobals(gs), []) == DefaultDispatch(m, gs)
    decreases gs
  {
    hide ShimHandlerName;
    if gs != [] {
      var d := DeclaredOf(gs[0].value);
      if d.Some? {
        var all := DeclareGlobals(gs);
        assert all[0] == Named(gs[0].name, d.value) && all[1..] == DeclareGlobals(gs[1..]);
        var m' := if d.value.AsValue? then m else m[StubName(all[0]) := d.value.handler];
        NothingOverridden(m', gs[1..]);
      } else {
        assert DeclareGlobals(gs) == DeclareGlobals(gs[1..]);
        NothingOverridden(m, gs[1..]);
      }
    }
  }

  /** `j` is the last function global that takes the stub of the `k`-th. */
  predicate LastTaker(declared: seq<Named<Declared>>, k: nat, j: nat)
    requires k < |declared|
  {
    && k <= j < |declared| && !declared[j].value.AsValue? && StubName(declared[j]) == StubName(declared[k])
    && !Shadowed(declared, j)
  }

  lemma {:induction false} LastTakerThere(declared: seq<Named<Declared>>, k: nat) returns (j: nat)
    requires k < |declared| && !declared[k].value.AsValue?
    ensures LastTaker(declared, k, j) && (j == k <==> !Shadowed(declared, k))
    ensures forall i :: LastTaker(declared, k, i) ==> i == j
    decreases |declared| - k
  {
    hide StubName;
    if Shadowed(declared, k) {
      var next :| k < next < |declared| && !declared[next].value.AsValue? && StubName(declared[next]) == StubName(declared[k]);
      j := LastTakerThere(declared, next);
    } else {
      j := k;
    }
  }

  /**
   * A declared function's stub always reaches the last global that takes it, by that one's
   * override if it has one: the function itself exactly if nothing shadows it.
   */
  lemma DispatchedExactly(declared: seq<Named<Declared>>, os: seq<Named<Override>>, k: nat) returns (j: nat)
    requires k < |declared| && !declared[k].value.AsValue?
    ensures LastTaker(declared, k, j) && (j == k <==> !Shadowed(declared, k))
    ensures var dispatch := RunDispatch(map[], declared, os);
            StubName(declared[k]) in dispatch && dispatch[StubName(declared[k])] == HandlerFor(declared[j], os)
  {
    hide StubName, HandlerFor;
    j := LastTakerThere(declared, k);
    Dispatched(map[], declared, os, j);
  }

  /** Of distinctly named globals, one is shadowed exactly by a later one that shares a private name with it. */
  lemma ShadowedByName(declared: seq<Named<Declared>>, k: nat)
    requires UniqueNames(declared) && k < |declared| && !declared[k].value.AsValue?
    ensures Shadowed(declared, k) <==>
              exists j :: k < j < |declared| && Crosses(declared[k], declared[j])
  {
    hide StubName;
    forall j | k < j < |declared|
      ensures Crosses(declared[k], declared[j]) <==> !declared[j].value.AsValue? && StubName(declared[j]) == StubName(declared[k])
    {
      StubClash(declared[k], declared[j]);
    }
  }

  /** A shim and a plain function global, the one carrying the other's private name. */
  predicate Crosses(d: Named<Declared>, e: Named<Declared>)
  {
    || (d.value.AsShim? && e.value.AsBridge? && e.name == ShimHandlerName(d.name))
    || (e.value.AsShim? && d.value.AsBridge? && d.name == ShimHandlerName(e.name))
  }

  // ── Where the two sides and the two names part ──────────────────────────

  /** Two globals `prepare` accepts: a shim, and a function under the shim's private name. */
  function ShimAndPlain(x: Name, shim: Name, h: Handler, g: Handler): seq<Named<HostGlobal>>
  {
    [Named(x, ShimForm(shim, h, None)), Named(ShimHandlerName(x), Callable(g))]
  }

  lemma ShimAndPlainDeclared(x: Name, shim: Name, h: Handler, g: Handler, owned: set<Name>)
    requires IsWellFormed(x) && x !in owned && ShimHandlerName(x) !in owned
    ensures var gs := ShimAndPlain(x, shim, h, g);
            && ProcessGlobals(gs, owned).Ok? && UniqueNames(gs)
            && DeclareGlobals(gs) == [Named(x, AsShim(h)), Named(ShimHandlerName(x), AsBridge(g, true))]
  {
    hide IsWellFormed;
    var gs := ShimAndPlain(x, shim, h, g);
    WellFormedStub(x);
    assert |ShimHandlerName(x)| > |x|;
    assert gs[1..] == [gs[1]] && gs[1..][1..] == [];
    assert DeclareGlobals([]) == [];
    assert DeclareGlobals([gs[1]]) == [Named(ShimHandlerName(x), AsBridge(g, true))];
    assert ProcessGlobals([], owned) == Ok([]);
    assert ProcessGlobals([gs[1]], owned).Ok?;
  }

  /** Prepared together, the plain global takes the shim's calls, in the prefix's dispatch and in any run's that overrides neither. */
  lemma PlainTakesTheShim(x: Name, shim: Name, h: Handler, g: Handler, owned: set<Name>)
    requires IsWellFormed(x) && x !in owned && ShimHandlerName(x) !in owned && h != g
    ensures var gs := ShimAndPlain(x, shim, h, g);
            var dispatch := RunDispatch(map[], DeclareGlobals(gs), []);
            && ProcessGlobals(gs, owned).Ok? && UniqueNames(gs) && dispatch == DefaultDispatch(map[], gs)
            && StubName(DeclareGlobals(gs)[0]) in dispatch
            && dispatch[StubName(DeclareGlobals(gs)[0])] == g != HandlerFor(DeclareGlobals(gs)[0], [])
  {
    hide IsWellFormed;
    var gs := ShimAndPlain(x, shim, h, g);
    ShimAndPlainDeclared(x, shim, h, g, owned);
    NothingOverridden(map[], gs);
    var declared := DeclareGlobals(gs);
    assert !Shadowed(declared, 1);
    Dispatched(map[], declared, [], 1);
  }

  /** With one shim prepared, its private name is undeclared to the client and accepted by the runtime. */
  lemma PrivateNameAdmitted(x: Name, shim: Name, h: Handler, g: Handler, owned: set<Name>, e: bool)
    requires IsWellFormed(x) && x !in owned
    ensures var gs := [Named(x, ShimForm(shim, h, None))];
            && ProcessGlobals(gs, owned).Ok? && UniqueNames(gs)
            && CheckOne(Named(ShimHandlerName(x), Function(g)), DeclareGlobals(gs)) == Err(UndeclaredName(ShimHandlerName(x)))
            && var kept := WireDefs(ProcessGlobals(gs, owned).value);
               Judge(WireDef(Bridge(ShimHandlerName(x), e)), Stubs(kept), kept) == Ok(())
  {
    hide IsWellFormed, Encoded;
    var gs := [Named(x, ShimForm(shim, h, None))];
    var o: Named<Override> := Named(ShimHandlerName(x), Function(g));
    WellFormedStub(x);
    assert |ShimHandlerName(x)| > |x|;
    assert gs[1..] == [] && ProcessGlobals([], owned) == Ok([]) && DeclareGlobals([]) == [];
    var declared := DeclareGlobals(gs);
    assert declared == [Named(x, AsShim(h))] && declared[1..] == [];
    assert Get(declared[1..], o.name) == None && declared[0].name != o.name;
    assert Get(declared, o.name) == None;
    assert gs[0] in gs && PrivateStub(gs, o.name);
    RefusalsAgree(gs, owned, o, e);
  }
}
