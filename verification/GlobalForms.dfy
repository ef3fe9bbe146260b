// What `prepare` and a run send of the declared globals, and which overrides a run may give,
// told from the declarations themselves.

module GlobalForms {
  import opened Wrappers
  import opened Utf8
  import opened Names
  import opened Globals

  /** The flag given with a global, if its form has one. */
  function Flag(g: HostGlobal): Option<bool>
  {
    match g
    case BridgeForm(_, e) => e
    case StringForm(_, e) => e
    case DataForm(_, e) => e
    case ShimForm(_, _, e) => e
    case _ => None
  }

  predicate IsFunction(g: HostGlobal) { g.Callable? || g.BridgeForm? || g.ShimForm? }

  predicate IsConstant(g: HostGlobal) { g.Source? || g.StringForm? || g.DataForm? }

  /** The globals of a known form, in order, and of these the functions. */
  function Known(gs: seq<Named<HostGlobal>>): seq<Named<HostGlobal>>
  {
    if gs == [] then [] else (if gs[0].value.Unknown? then [] else [gs[0]]) + Known(gs[1..])
  }

  function Functions(gs: seq<Named<HostGlobal>>): seq<Named<HostGlobal>>
  {
    if gs == [] then [] else (if IsFunction(gs[0].value) then [gs[0]] else []) + Functions(gs[1..])
  }

  /** `__iso4_`, the name, `_h`. */
  function Private(n: Name): Name
  {
    [0x5F, 0x5F, 0x69, 0x73, 0x6F, 0x34, 0x5F] + n + [0x5F, 0x68]
  }

  /**
   * What is sent of a global: its name, its flag, hidden only if hidden outright, and its
   * text or blob as it is; a shim with the private name of its handler.
   */
  ghost predicate SentAs(g: Named<HostGlobal>, d: Def<Name>)
  {
    && d.name == g.name && (d.enumerable <==> Flag(g.value) != Some(false))
    && (d.Bridge? <==> g.value.Callable? || g.value.BridgeForm?)
    && (g.value.Source? ==> d.StringExpr? && d.expr == g.value.expr)
    && (g.value.StringForm? ==> d.StringExpr? && d.expr == g.value.expr)
    && (g.value.DataForm? ==> d.Data? && d.blob == g.value.blob)
    && (g.value.ShimForm? ==> d.Shim? && d.shim == g.value.shim && d.handlerName == Private(g.name))
  }

  /** `prepare` takes exactly the globals whose names are well formed and not its own, and sends each that has a known form. */
  lemma {:induction false} PrepareSendsGlobals(gs: seq<Named<HostGlobal>>, owned: set<Name>)
    ensures var r := ProcessGlobals(gs, owned);
            && (r.Ok? <==> forall g :: g in gs ==> IsWellFormed(g.name) && g.name !in owned)
            && (r.Ok? ==> |r.value| == |Known(gs)| && forall k :: 0 <= k < |r.value| ==> SentAs(Known(gs)[k], r.value[k]))
  {
    hide IsWellFormed;
    if gs != [] {
      assert gs == [gs[0]] + gs[1..];
      PrepareSendsGlobals(gs[1..], owned);
    }
  }

  /** Refused is the first global that is to be refused, for what is wrong with it. */
  lemma {:induction false} PrepareRefuses(gs: seq<Named<HostGlobal>>, owned: set<Name>)
    requires ProcessGlobals(gs, owned).Err?
    ensures exists k :: 0 <= k < |gs| && (forall j :: 0 <= j < k ==> IsWellFormed(gs[j].name) && gs[j].name !in owned)
                        && ProcessGlobals(gs, owned) == Err(if IsWellFormed(gs[k].name) then ReservedName(gs[k].name) else IllFormedName(gs[k].name))
                        && (IsWellFormed(gs[k].name) ==> gs[k].name in owned)
  {
    hide IsWellFormed;
    if !IsWellFormed(gs[0].name) || gs[0].name in owned {
      assert ProcessGlobals(gs, owned) == Err(if IsWellFormed(gs[0].name) then ReservedName(gs[0].name) else IllFormedName(gs[0].name));
    } else {
      PrepareRefuses(gs[1..], owned);
      var k :| 0 <= k < |gs[1..]| && (forall j :: 0 <= j < k ==> IsWellFormed(gs[1..][j].name) && gs[1..][j].name !in owned)
               && ProcessGlobals(gs[1..], owned) == Err(if IsWellFormed(gs[1..][k].name) then ReservedName(gs[1..][k].name) else IllFormedName(gs[1..][k].name))
               && (IsWellFormed(gs[1..][k].name) ==> gs[1..][k].name in owned);
      forall j | 0 <= j < k + 1 ensures IsWellFormed(gs[j].name) && gs[j].name !in owned {
        if j > 0 { assert gs[1..][j - 1] == gs[j]; }
      }
      assert gs[k + 1] == gs[1..][k];
    }
  }

  /** A run sends a stub for every function: under its name with its flag, a shim's under the private name, never hidden. */
  ghost predicate StubFor(g: Named<HostGlobal>, d: Def<Name>)
  {
    d == Bridge(if g.value.ShimForm? then Private(g.name) else g.name, g.value.ShimForm? || Flag(g.value) != Some(false))
  }

  lemma {:induction false} RunSendsGlobals(gs: seq<Named<HostGlobal>>)
    ensures var defs := RunDefs(DeclareGlobals(gs));
            |defs| == |Functions(gs)| && forall k :: 0 <= k < |defs| ==> StubFor(Functions(gs)[k], defs[k])
  {
    if gs != [] {
      RunDefsOf(gs);
      RunSendsGlobals(gs[1..]);
    }
  }

  // ── Overrides ───────────────────────────────────────────────────────────

  lemma {:induction false} GetExactly<T(!new)>(ds: seq<Named<T>>, n: Name)
    requires UniqueNames(ds)
    ensures forall v :: Get(ds, n) == Some(v) <==> Named(n, v) in ds
  {
    if ds != [] {
      var rest := ds[1..];
      forall i, j | 0 <= i < j < |rest| ensures rest[i].name != rest[j].name { assert ds[i + 1].name != ds[j + 1].name; }
      GetExactly(rest, n);
      assert ds == [ds[0]] + rest;
      forall v | Named(n, v) in rest ensures ds[0].name != n {
        var k :| 0 <= k < |rest| && rest[k] == Named(n, v);
        assert ds[k + 1] == Named(n, v);
      }
    }
  }

  /** The kept shape has the function globals with their handlers, the constants without their values, and nothing else. */
  lemma {:induction false} KeptShape(gs: seq<Named<HostGlobal>>, n: Name)
    requires UniqueNames(gs)
    ensures Get(DeclareGlobals(gs), n).None? <==> forall g :: g in gs && g.name == n ==> g.value.Unknown?
    ensures forall g :: g in gs && g.name == n ==>
              && (IsConstant(g.value) <==> Get(DeclareGlobals(gs), n) == Some(AsValue))
              && (IsFunction(g.value) ==> Get(DeclareGlobals(gs), n).Some? && !Get(DeclareGlobals(gs), n).value.AsValue?
                                          && Get(DeclareGlobals(gs), n).value.handler == g.value.handler)
  {
    hide Get;
    if gs == [] {
      DeclareNothing();
      NoneKept(n);
    } else {
      UniqueRest(gs);
      KeptShape(gs[1..], n);
      GetDeclared(gs, n);
      assert gs == [gs[0]] + gs[1..];
    }
  }

  lemma NoneKept(n: Name)
    ensures Get<Declared>([], n) == None
  {
  }

  /** Why an override is refused, or that it is not, by what is declared under its name. */
  lemma OverrideJudged(gs: seq<Named<HostGlobal>>, o: Named<Override>)
    requires UniqueNames(gs)
    ensures var r := CheckOne(o, DeclareGlobals(gs));
            if !IsWellFormed(o.name) then r == Err(IllFormedName(o.name))
            else if g :| g in gs && g.name == o.name && !g.value.Unknown? then
              r == if IsConstant(g.value) then Err(FrozenName(o.name))
                   else if o.value.Function? then Ok(()) else Err(InvalidValue(o.name))
            else r == Err(UndeclaredName(o.name))
  {
    hide IsWellFormed, Get, DeclareGlobals;
    KeptShape(gs, o.name);
  }

  /** Refused is the first override that is to be refused; without one, all are accepted. */
  lemma {:induction false} FirstRefused(os: seq<Named<Override>>, declared: seq<Named<Declared>>)
    ensures CheckAll(os, declared).Ok? <==> forall o :: o in os ==> CheckOne(o, declared).Ok?
    ensures forall k :: 0 <= k < |os| && (forall j :: 0 <= j < k ==> CheckOne(os[j], declared).Ok?) && CheckOne(os[k], declared).Err? ==>
              CheckAll(os, declared) == CheckOne(os[k], declared)
  {
    hide CheckOne;
    if os != [] {
      FirstRefused(os[1..], declared);
      assert os == [os[0]] + os[1..];
      forall k | 0 <= k < |os| && (forall j :: 0 <= j < k ==> CheckOne(os[j], declared).Ok?) && CheckOne(os[k], declared).Err?
        ensures CheckAll(os, declared) == CheckOne(os[k], declared)
      {
        if k > 0 {
          assert os[1..][k - 1] == os[k];
          forall j | 0 <= j < k - 1 ensures CheckOne(os[1..][j], declared).Ok? { assert os[1..][j] == os[j + 1]; }
        }
      }
    }
  }

  /**
   * The stub of a declared function answers as the last function that takes the stub: by the
   * run's function of that name if the run gives one, else by the function it was prepared with.
   */
  lemma RunAnswers(declared: seq<Named<Declared>>, os: seq<Named<Override>>, k: nat) returns (j: nat)
    requires UniqueNames(os) && k < |declared| && !declared[k].value.AsValue?
    ensures LastTaker(declared, k, j) && (j == k <==> !Shadowed(declared, k))
    ensures var dispatch := RunDispatch(map[], declared, os);
            && StubName(declared[k]) in dispatch
            && (forall h :: Named(declared[j].name, Function(h)) in os ==> dispatch[StubName(declared[k])] == h)
            && ((forall h :: Named(declared[j].name, Function(h)) !in os) ==> dispatch[StubName(declared[k])] == declared[j].value.handler)
  {
    hide StubName, Get, UniqueNames, RunDispatch, Shadowed;
    j := DispatchedExactly(declared, os, k);
    GetExactly(os, declared[j].name);
  }
}
