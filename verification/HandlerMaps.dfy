// What `prepare` and a run make of an `imports` option, told from the option itself: which
// values are accepted, the node each one becomes, and the handler that answers each location.

module HandlerMaps {
  import opened Wrappers
  import opened Utf8
  import opened Names
  import opened ImportShapes
  import opened RuntimeCheck
  import opened ClientRebind
  import opened RebindAgreement
  import opened ImportLowering

  // ── Values by path ──────────────────────────────────────────────────────

  /** The option object has the value `v` at the path. */
  ghost predicate ValueAt(es: seq<Property>, path: seq<Name>, v: Value)
    decreases |path|, 1
  {
    path != [] && exists p :: p in es && p.key == path[0] && LeadsTo(p, path, v)
  }

  ghost predicate LeadsTo(p: Property, path: seq<Name>, v: Value)
    requires path != []
    decreases |path|, 0
  {
    if |path| == 1 then p.value == v else p.value.Plain? && ValueAt(p.value.entries, path[1..], v)
  }

  lemma ValueAtCons(es: seq<Property>, path: seq<Name>, v: Value)
    requires path != [] && es != []
    ensures ValueAt(es, path, v) <==> (es[0].key == path[0] && LeadsTo(es[0], path, v)) || ValueAt(es[1..], path, v)
  {
    hide LeadsTo;
    assert es == [es[0]] + es[1..];
  }

  /** Distinct keys leave one value at a path. */
  lemma {:induction false} OneValue(es: seq<Property>, path: seq<Name>, v: Value, w: Value)
    requires DistinctKeys(es) && ValueAt(es, path, v) && ValueAt(es, path, w)
    ensures v == w
    decreases |path|, |es|
  {
    hide ValueAt, LeadsTo;
    if es == [] {
      NothingThere(path, v);
    } else {
      assert path != [] by { PathThere(es, path, v); }
      ValueAtCons(es, path, v);
      ValueAtCons(es, path, w);
      if ValueAt(es[1..], path, v) { KeyThere(es[1..], path, v); }
      if ValueAt(es[1..], path, w) { KeyThere(es[1..], path, w); }
      if ValueAt(es[1..], path, v) && ValueAt(es[1..], path, w) {
        OneValue(es[1..], path, v, w);
      } else {
        BelowIs(es[0], path, v);
        BelowIs(es[0], path, w);
        if |path| > 1 { OneValue(es[0].value.entries, path[1..], v, w); }
      }
    }
  }

  lemma NothingThere(path: seq<Name>, v: Value)
    ensures !ValueAt([], path, v)
  {
  }

  lemma PathThere(es: seq<Property>, path: seq<Name>, v: Value)
    ensures ValueAt(es, path, v) ==> path != []
  {
  }

  lemma KeyThere(es: seq<Property>, path: seq<Name>, v: Value)
    ensures ValueAt(es, path, v) ==> path != [] && exists q :: q in es && q.key == path[0]
  {
  }

  lemma BelowIs(p: Property, path: seq<Name>, v: Value)
    requires path != []
    ensures LeadsTo(p, path, v) <==> if |path| == 1 then p.value == v else p.value.Plain? && ValueAt(p.value.entries, path[1..], v)
  {
    hide ValueAt;
  }

  // ── Leaves are the functions ────────────────────────────────────────────

  /** `path` goes on from `here`. */
  ghost predicate From(here: seq<Name>, path: seq<Name>)
  {
    |path| >= |here| && path[..|here|] == here
  }

  lemma {:induction false} LeavesAreFunctions(specifier: Name, es: seq<Property>, here: seq<Name>, l: Location<Name>, h: Handler)
    ensures Override(l, h) in Leaves(specifier, es, here) <==>
              l.specifier == specifier && From(here, l.path) && ValueAt(es, l.path[|here|..], Func(h))
    decreases es
  {
    hide ValueAt, LeadsTo, LeavesAt;
    if es == [] {
      if From(here, l.path) { NothingThere(l.path[|here|..], Func(h)); }
    } else {
      LeavesAreFunctions(specifier, es[1..], here, l, h);
      LeafIsFunction(specifier, es[0], here, l, h);
      if From(here, l.path) {
        var rest := l.path[|here|..];
        if rest != [] { ValueAtCons(es, rest, Func(h)); }
        PathThere(es, rest, Func(h));
        PathThere(es[1..], rest, Func(h));
      }
    }
  }

  lemma {:induction false} LeafIsFunction(specifier: Name, p: Property, here: seq<Name>, l: Location<Name>, h: Handler)
    ensures Override(l, h) in LeavesAt(specifier, p.value, here + [p.key]) <==>
              && l.specifier == specifier && From(here, l.path) && l.path != here
              && p.key == l.path[|here|] && LeadsTo(p, l.path[|here|..], Func(h))
    decreases p
  {
    hide ValueAt, LeadsTo, Leaves;
    var at := here + [p.key];
    if From(here, l.path) && l.path != here {
      BelowIs(p, l.path[|here|..], Func(h));
      assert l.path[|here|..][1..] == l.path[|at|..];
      assert l.path[..|at|] == l.path[..|here|] + [l.path[|here|]];
      if |l.path| == |at| { assert l.path[..|at|] == l.path; }
    }
    if From(at, l.path) {
      assert l.path[..|here|] == l.path[..|at|][..|here|];
      assert l.path[|here|] == l.path[..|at|][|here|];
    }
    if p.value.Plain? {
      LeavesAreFunctions(specifier, p.value.entries, at, l, h);
      if From(at, l.path) { PathThere(p.value.entries, l.path[|at|..], Func(h)); }
    }
  }

  /** A function of the whole option, by specifier and path. */
  ghost predicate FunctionAt(imports: seq<Property>, l: Location<Name>, h: Handler)
  {
    exists p :: p in imports && p.key == l.specifier && p.value.Plain? && ValueAt(p.value.entries, l.path, Func(h))
  }

  lemma {:induction false} OptionLeaves(imports: seq<Property>, l: Location<Name>, h: Handler)
    ensures Override(l, h) in DefaultLeaves(imports) <==> FunctionAt(imports, l, h)
  {
    hide ValueAt, Leaves;
    if imports != [] {
      var p := imports[0];
      OptionLeaves(imports[1..], l, h);
      assert imports == [p] + imports[1..];
      if p.value.Plain? {
        LeavesAreFunctions(p.key, p.value.entries, [], l, h);
        assert l.path[..0] == [] && l.path[0..] == l.path;
      }
    }
  }

  lemma {:induction false} OneFunction(imports: seq<Property>, l: Location<Name>, h: Handler, g: Handler)
    requires DistinctKeys(imports) && FunctionAt(imports, l, h) && FunctionAt(imports, l, g)
    ensures h == g
  {
    hide ValueAt;
    if imports != [] {
      var p := imports[0];
      assert imports == [p] + imports[1..];
      if p.key == l.specifier {
        OneValue(p.value.entries, l.path, Func(h), Func(g));
      } else {
        OneFunction(imports[1..], l, h, g);
      }
    }
  }

  // ── The handler map ─────────────────────────────────────────────────────

  ghost predicate LastAt(os: seq<Override>, l: Location<Name>, h: Handler)
  {
    exists k :: 0 <= k < |os| && os[k] == Override(l, h) && forall j :: k < j < |os| ==> os[j].at != l
  }

  ghost predicate Named(os: seq<Override>, l: Location<Name>)
  {
    exists k :: 0 <= k < |os| && os[k].at == l
  }

  /** A location is answered by the last override of it, and without one by the default. */
  lemma {:induction false} LastWins(m: Handlers, os: seq<Override>, l: Location<Name>)
    ensures l in Overlay(m, os) <==> l in m || Named(os, l)
    ensures forall h :: LastAt(os, l, h) ==> l in Overlay(m, os) && Overlay(m, os)[l] == h
    ensures l in m && !Named(os, l) ==> Overlay(m, os)[l] == m[l]
    ensures Named(os, l) ==> exists h :: LastAt(os, l, h)
    decreases |os|
  {
    hide Named, LastAt;
    if os == [] {
      NoneNamed(l);
    } else {
      var front, last := os[..|os| - 1], os[|os| - 1];
      assert os == front + [last];
      LastWins(m, front, l);
      OverlayMore(m, front, [last]);
      assert Overlay(Overlay(m, front), [last]) == Overlay(m, front)[last.at := last.handler];
      NamedSnoc(front, last, l);
      if last.at == l {
        assert LastAt(os, l, last.handler);
      } else if Named(os, l) {
        var h :| LastAt(front, l, h);
        assert LastAt(os, l, h);
      }
    }
  }

  lemma NoneNamed(l: Location<Name>)
    ensures !Named([], l) && forall h :: !LastAt([], l, h)
  {
  }

  lemma NamedSnoc(front: seq<Override>, last: Override, l: Location<Name>)
    ensures Named(front + [last], l) <==> last.at == l || Named(front, l)
    ensures forall h :: LastAt(front + [last], l, h) <==> if last.at == l then last.handler == h else LastAt(front, l, h)
  {
    var os := front + [last];
    assert os[|front|] == last;
    assert forall k :: 0 <= k < |front| ==> os[k] == front[k];
    if Named(front, l) {
      var k :| 0 <= k < |front| && front[k].at == l;
      assert os[k].at == l;
    }
    forall h ensures LastAt(os, l, h) <==> if last.at == l then last.handler == h else LastAt(front, l, h) {
      if last.at != l && LastAt(front, l, h) {
        var k :| 0 <= k < |front| && front[k] == Override(l, h) && forall j :: k < j < |front| ==> front[j].at != l;
        assert os[k] == Override(l, h);
      }
      if LastAt(os, l, h) {
        var k :| 0 <= k < |os| && os[k] == Override(l, h) && forall j :: k < j < |os| ==> os[j].at != l;
        if k < |front| { assert front[k] == Override(l, h); }
      }
    }
  }

  /**
   * A map overlaid with the leaves of an option: its function where it has one at the
   * location, and elsewhere what the map had.
   */
  ghost predicate AnswersAs(h': Handlers, h: Handlers, imports: seq<Property>, l: Location<Name>)
  {
    && (forall f :: FunctionAt(imports, l, f) ==> l in h' && h'[l] == f)
    && ((forall f :: !FunctionAt(imports, l, f)) ==> (l in h' <==> l in h) && (l in h ==> h'[l] == h[l]))
  }

  lemma OverlaidOption(m: Handlers, imports: seq<Property>, l: Location<Name>)
    requires DistinctKeys(imports)
    ensures AnswersAs(Overlay(m, DefaultLeaves(imports)), m, imports, l)
  {
    hide FunctionAt, DefaultLeaves, LastAt, Overlay, DistinctKeys;
    var os := DefaultLeaves(imports);
    LastWins(m, os, l);
    if Named(os, l) {
      var g :| LastAt(os, l, g);
      LastIsIn(os, l, g);
      OptionLeaves(imports, l, g);
      forall f | FunctionAt(imports, l, f) ensures f == g { OneFunction(imports, l, f, g); }
    } else {
      forall f ensures !FunctionAt(imports, l, f) { OptionLeaves(imports, l, f); }
    }
  }

  lemma LastIsIn(os: seq<Override>, l: Location<Name>, h: Handler)
    ensures LastAt(os, l, h) ==> Override(l, h) in os
  {
  }

  lemma {:induction false} MergeSends(imports: seq<Property>, declared: seq<Binding<Name>>)
    ensures Merge(imports, declared).Ok? ==> Merge(imports, declared).value == DefaultLeaves(imports)
    ensures Merge(imports, declared).Ok? <==> forall p :: p in imports ==> MergeOne(p.key, p.value, declared).Ok?
  {
    hide Walk, IsWellFormed, Leaves, BindingFor;
    if imports != [] {
      var p := imports[0];
      assert imports == [p] + imports[1..];
      MergeSends(imports[1..], declared);
      var b := BindingFor(declared, p.key);
      if b.Some? && b.value.body.Host? && p.value.Plain? { AcceptsExactly(p.key, p.value.entries, b.value.body.exports); }
    }
  }

  /** After `prepare`, a location answers exactly if its option has a function there: that function. */
  lemma PreparedHandlers(imports: seq<Property>, l: Location<Name>)
    requires DistinctKeys(imports)
    ensures AnswersAs(Overlay(map[], DefaultLeaves(imports)), map[], imports, l)
  {
    OverlaidOption(map[], imports, l);
  }

  /** After an accepted run's merge: the run's function where it gives one, the prefix's everywhere else. */
  lemma RunHandlers(defaults: Handlers, imports: seq<Property>, declared: seq<Binding<Name>>, l: Location<Name>)
    requires DistinctKeys(imports) && Merge(imports, declared).Ok?
    ensures AnswersAs(Overlay(defaults, Merge(imports, declared).value), defaults, imports, l)
  {
    hide AnswersAs, DistinctKeys, Merge, Overlay;
    MergeSends(imports, declared);
    OverlaidOption(defaults, imports, l);
  }

  // ── What a run may override ─────────────────────────────────────────────

  /** A value of an override is of the declared kind: a function for a function, an object for an object. */
  ghost predicate SameKind(v: Value, declared: Result<Node<Name>, nat>)
  {
    declared.Ok? && ((v.Func? && declared.value.Function?) || (v.Plain? && declared.value.Object?))
  }

  ghost predicate AllFit(es: seq<Property>, top: Shape, here: seq<Name>)
  {
    forall path, v :: ValueAt(es, path, v) ==> PathOk(path) && SameKind(v, Find(top, here + path))
  }

  lemma {:induction false} FitsEverywhere(es: seq<Property>, top: Shape, here: seq<Name>)
    ensures Fits(es, top, here) <==> AllFit(es, top, here)
    decreases es
  {
    hide ValueAt, LeadsTo, Find, IsWellFormed, PathOk, SameKind, FitsAt;
    if es == [] {
      forall path, v ensures !ValueAt([], path, v) { NothingThere(path, v); }
    } else {
      FitsEverywhere(es[1..], top, here);
      FitsBelow(es[0], top, here);
      forall path, v | ValueAt(es[1..], path, v) ensures ValueAt(es, path, v) {
        PathThere(es[1..], path, v);
        ValueAtCons(es, path, v);
      }
      forall path, v | path != [] && path[0] == es[0].key && LeadsTo(es[0], path, v) ensures ValueAt(es, path, v) {
        ValueAtCons(es, path, v);
      }
      forall path, v | ValueAt(es, path, v)
        ensures ValueAt(es[1..], path, v) || (path != [] && path[0] == es[0].key && LeadsTo(es[0], path, v))
      {
        PathThere(es, path, v);
        ValueAtCons(es, path, v);
      }
    }
  }

  ghost predicate AllFitBelow(p: Property, top: Shape, here: seq<Name>)
  {
    forall path, v :: path != [] && path[0] == p.key && LeadsTo(p, path, v) ==> PathOk(path) && SameKind(v, Find(top, here + path))
  }

  lemma {:induction false} FitsBelow(p: Property, top: Shape, here: seq<Name>)
    ensures IsWellFormed(p.key) && FitsAt(p.value, top, here + [p.key]) <==> AllFitBelow(p, top, here)
    decreases p
  {
    hide ValueAt, LeadsTo, Find, IsWellFormed, Fits;
    var at := here + [p.key];
    BelowIs(p, [p.key], p.value);
    if p.value.Plain? { FitsEverywhere(p.value.entries, top, at); }
    if IsWellFormed(p.key) && FitsAt(p.value, top, at) {
      forall path, v | path != [] && path[0] == p.key && LeadsTo(p, path, v)
        ensures PathOk(path) && SameKind(v, Find(top, here + path))
      {
        BelowIs(p, path, v);
        assert at + path[1..] == here + path;
        if |path| == 1 { assert path == [p.key]; }
        assert path == [p.key] + path[1..];
      }
    }
    if AllFitBelow(p, top, here) {
      assert PathOk([p.key]) && SameKind(p.value, Find(top, at));
      if p.value.Plain? {
        forall path, v | ValueAt(p.value.entries, path, v) ensures PathOk(path) && SameKind(v, Find(top, at + path)) {
          var all := [p.key] + path;
          PathThere(p.value.entries, path, v);
          assert all[1..] == path && here + all == at + path;
          BelowIs(p, all, v);
          assert PathOk(all);
          forall k | 0 <= k < |path| ensures IsWellFormed(path[k]) { assert all[k + 1] == path[k]; }
        }
      }
      assert [p.key][0] == p.key;
    }
  }

  /** An override of one host module is accepted if the module is declared and everything in it is of the declared kind. */
  ghost predicate OverrideFits(p: Property, declared: seq<Binding<Name>>)
  {
    var b := BindingFor(declared, p.key);
    && IsWellFormed(p.key) && b.Some? && b.value.body.Host? && p.value.Plain?
    && forall path, v :: ValueAt(p.value.entries, path, v) ==> PathOk(path) && SameKind(v, Find(b.value.body.exports, path))
  }

  lemma OneFits(p: Property, declared: seq<Binding<Name>>)
    ensures MergeOne(p.key, p.value, declared).Ok? <==> OverrideFits(p, declared)
  {
    hide Walk, IsWellFormed, BindingFor, Find, ValueAt, SameKind, PathOk, Fits;
    var b := BindingFor(declared, p.key);
    if b.Some? && b.value.body.Host? && p.value.Plain? {
      AcceptsExactly(p.key, p.value.entries, b.value.body.exports);
      FitsEverywhere(p.value.entries, b.value.body.exports, []);
      forall path: seq<Name> ensures [] + path == path {}
    }
  }

  /** A run's whole option is accepted exactly if each of its modules is, and then every function of it is sent. */
  lemma MergeExactly(imports: seq<Property>, declared: seq<Binding<Name>>)
    ensures Merge(imports, declared).Ok? <==> forall p :: p in imports ==> OverrideFits(p, declared)
    ensures Merge(imports, declared).Ok? ==>
              forall l, h :: Override(l, h) in Merge(imports, declared).value <==> FunctionAt(imports, l, h)
  {
    hide Merge, MergeOne, OverrideFits, FunctionAt, DefaultLeaves;
    MergeSends(imports, declared);
    forall p | p in imports ensures MergeOne(p.key, p.value, declared).Ok? <==> OverrideFits(p, declared) { OneFits(p, declared); }
    forall l, h ensures Override(l, h) in DefaultLeaves(imports) <==> FunctionAt(imports, l, h) { OptionLeaves(imports, l, h); }
  }

  /** The refusal one module's override earns, or some place in it does, by what is declared there. */
  ghost predicate RefusedFor(p: Property, declared: seq<Binding<Name>>, e: Refusal<Name>)
  {
    var b := BindingFor(declared, p.key);
    if !IsWellFormed(p.key) then e == Refusal(IllFormed, p.key, [])
    else if b.None? then e == Refusal(Undeclared, p.key, [])
    else if b.value.body.Source? then e == Refusal(Frozen, p.key, [])
    else if !p.value.Plain? then e == Refusal(InvalidRebind, p.key, [])
    else Justified(e, p.key, b.value.body.exports)
  }

  lemma OneRefused(p: Property, declared: seq<Binding<Name>>)
    requires MergeOne(p.key, p.value, declared).Err?
    ensures RefusedFor(p, declared, MergeOne(p.key, p.value, declared).error)
  {
    hide Walk, IsWellFormed, BindingFor, Find, Fits, Justified, Leaves;
    var b := BindingFor(declared, p.key);
    if b.Some? && b.value.body.Host? && p.value.Plain? {
      WalkExact(p.key, p.value.entries, b.value.body.exports, [], b.value.body.exports);
    }
  }

  /** A run's option is refused for its first module that does not fit, with a refusal that it earns. */
  lemma {:induction false} MergeRefuses(imports: seq<Property>, declared: seq<Binding<Name>>)
    requires Merge(imports, declared).Err?
    ensures exists k :: 0 <= k < |imports| && !OverrideFits(imports[k], declared)
                     && RefusedFor(imports[k], declared, Merge(imports, declared).error)
                     && forall j :: 0 <= j < k ==> OverrideFits(imports[j], declared)
  {
    hide MergeOne, OverrideFits, RefusedFor;
    OneFits(imports[0], declared);
    if MergeOne(imports[0].key, imports[0].value, declared).Err? {
      OneRefused(imports[0], declared);
      assert RefusedFor(imports[0], declared, Merge(imports, declared).error);
    } else {
      MergeRefuses(imports[1..], declared);
      var k :| 0 <= k < |imports[1..]| && !OverrideFits(imports[1..][k], declared)
               && RefusedFor(imports[1..][k], declared, Merge(imports[1..], declared).error)
               && forall j :: 0 <= j < k ==> OverrideFits(imports[1..][j], declared);
      assert imports[k + 1] == imports[1..][k];
      forall j | 0 <= j < k + 1 ensures OverrideFits(imports[j], declared) {
        if j > 0 { assert imports[1..][j - 1] == imports[j]; }
      }
    }
  }

  // ── What `prepare` accepts, and the node each value becomes ─────────────

  /** Every value that is there has well-formed keys on its path, which has at most `n` of them. */
  ghost predicate AllWithin(es: seq<Property>, n: int)
  {
    forall path, v :: ValueAt(es, path, v) && !v.Undefined? ==> PathOk(path) && |path| <= n
  }

  lemma {:induction false} WithinExactly(es: seq<Property>, n: int)
    requires n >= 0
    ensures PresentKeysOk(es) && Levels(es) <= n <==> AllWithin(es, n)
    decreases es
  {
    hide ValueAt, LeadsTo, PathOk, PresentKeyOk, LevelsOf;
    if es == [] {
      forall path, v ensures !ValueAt([], path, v) { NothingThere(path, v); }
    } else {
      WithinExactly(es[1..], n);
      WithinBelow(es[0], n);
      forall path, v | ValueAt(es[1..], path, v) ensures ValueAt(es, path, v) {
        PathThere(es[1..], path, v);
        ValueAtCons(es, path, v);
      }
      forall path, v | path != [] && path[0] == es[0].key && LeadsTo(es[0], path, v) ensures ValueAt(es, path, v) {
        ValueAtCons(es, path, v);
      }
      forall path, v | ValueAt(es, path, v)
        ensures ValueAt(es[1..], path, v) || (path != [] && path[0] == es[0].key && LeadsTo(es[0], path, v))
      {
        PathThere(es, path, v);
        ValueAtCons(es, path, v);
      }
    }
  }

  ghost predicate AllWithinBelow(p: Property, n: int)
  {
    forall path, v :: path != [] && path[0] == p.key && LeadsTo(p, path, v) && !v.Undefined? ==> PathOk(path) && |path| <= n
  }

  lemma {:induction false} WithinBelow(p: Property, n: int)
    requires n >= 0
    ensures PresentKeyOk(p) && LevelsOf(p) <= n <==> AllWithinBelow(p, n)
    decreases p
  {
    hide ValueAt, LeadsTo, IsWellFormed, PresentKeysOk, Levels;
    BelowIs(p, [p.key], p.value);
    assert [p.key][0] == p.key;
    if p.value.Plain? && n > 0 { WithinExactly(p.value.entries, n - 1); }
    if PresentKeyOk(p) && LevelsOf(p) <= n {
      forall path, v | path != [] && path[0] == p.key && LeadsTo(p, path, v) && !v.Undefined?
        ensures PathOk(path) && |path| <= n
      {
        BelowIs(p, path, v);
        assert path == [p.key] + path[1..];
      }
    }
    if AllWithinBelow(p, n) && !p.value.Undefined? {
      assert PathOk([p.key]) && n > 0;
      if p.value.Plain? {
        forall path, v | ValueAt(p.value.entries, path, v) && !v.Undefined? ensures PathOk(path) && |path| <= n - 1 {
          var all := [p.key] + path;
          PathThere(p.value.entries, path, v);
          assert all[1..] == path;
          BelowIs(p, all, v);
          assert PathOk(all);
          forall k | 0 <= k < |path| ensures IsWellFormed(path[k]) { assert all[k + 1] == path[k]; }
        }
      }
    }
  }

  /** What makes a specifier's value a module: source text, or an object with valid exports that goes at most 64 keys deep. */
  ghost predicate ModuleFits(p: Property, valid: Name -> bool)
  {
    && IsWellFormed(p.key)
    && (p.value.Text?
        || (p.value.Plain?
            && (forall e | e in p.value.entries :: !e.value.Undefined? ==> valid(e.key))
            && forall path, v :: ValueAt(p.value.entries, path, v) && !v.Undefined? ==> PathOk(path) && |path| <= 64))
  }

  lemma ModuleFitsExactly(p: Property, valid: Name -> bool, blob: Serializer)
    requires NamesIdentify(valid)
    ensures BindingOf(p, valid, blob).Ok? <==> ModuleFits(p, valid)
  {
    hide ModuleOf, IsWellFormed, ValueAt, PathOk, LowerAll, PresentKeysOk, Levels;
    if p.value.Plain? {
      ModuleIsLowered(p.value.entries, valid, blob);
      LowersExactly(p.value.entries, 1, blob);
      WithinExactly(p.value.entries, 64);
    }
  }

  /** `prepare` accepts exactly the options each of whose modules fits. */
  lemma {:induction false} PrepareAccepts(imports: seq<Property>, valid: Name -> bool, blob: Serializer)
    requires NamesIdentify(valid)
    ensures Process(imports, valid, blob).Ok? <==> forall p :: p in imports ==> ModuleFits(p, valid)
  {
    hide BindingOf, ModuleFits, NamesIdentify;
    if imports != [] {
      assert imports == [imports[0]] + imports[1..];
      PrepareAccepts(imports[1..], valid, blob);
      ModuleFitsExactly(imports[0], valid, blob);
    }
  }

  // ── Why `prepare` refuses ───────────────────────────────────────────────

  /** Something in the tree has a path longer than `n`, or a key that is not well formed. */
  ghost predicate TooLong(es: seq<Property>, n: int)
  {
    exists path, v :: ValueAt(es, path, v) && !v.Undefined? && |path| > n
  }

  ghost predicate BadKey(es: seq<Property>)
  {
    exists path, v :: ValueAt(es, path, v) && !v.Undefined? && !PathOk(path)
  }

  ghost predicate LowerFails(es: seq<Property>, length: nat, e: LowerError)
  {
    match e
    case TooDeep => TooLong(es, 65 - length)
    case IllFormedKey => BadKey(es)
    case _ => false
  }

  lemma {:induction false} LowerRefuses(es: seq<Property>, length: nat, blob: Serializer)
    requires length <= 65
    ensures LowerAll(es, length, blob).Err? ==> LowerFails(es, length, LowerAll(es, length, blob).error)
    decreases es
  {
    hide IsWellFormed, ValueAt, LeadsTo, PathOk, LowerOne;
    if es != [] && LowerAll(es, length, blob).Err? {
      if es[0].value.Undefined? || LowerOne(es[0], length, blob).Ok? {
        LowerRefuses(es[1..], length, blob);
        forall path, v | ValueAt(es[1..], path, v) ensures ValueAt(es, path, v) {
          PathThere(es[1..], path, v);
          ValueAtCons(es, path, v);
        }
      } else {
        var path, v := OneRefuses(es[0], length, blob);
        ValueAtCons(es, path, v);
      }
    }
  }

  /** The value that is refused, in or below one property. */
  lemma {:induction false} OneRefuses(p: Property, length: nat, blob: Serializer) returns (path: seq<Name>, v: Value)
    requires length <= 65 && !p.value.Undefined? && LowerOne(p, length, blob).Err?
    ensures path != [] && path[0] == p.key && LeadsTo(p, path, v) && !v.Undefined?
    ensures match LowerOne(p, length, blob).error
            case TooDeep => |path| > 65 - length
            case IllFormedKey => !PathOk(path)
            case _ => false
    decreases p
  {
    hide IsWellFormed, ValueAt, LeadsTo, LowerAll;
    path, v := [p.key], p.value;
    BelowIs(p, path, v);
    if IsWellFormed(p.key) && length <= 64 {
      LowerRefuses(p.value.entries, length + 1, blob);
      var rest, w := Refused(p.value.entries, length + 1, LowerAll(p.value.entries, length + 1, blob).error);
      PathThere(p.value.entries, rest, w);
      path, v := [p.key] + rest, w;
      assert path[1..] == rest;
      BelowIs(p, path, v);
      if !PathOk(rest) {
        var k :| 0 <= k < |rest| && !IsWellFormed(rest[k]);
        assert path[k + 1] == rest[k];
      }
    }
  }

  lemma Refused(es: seq<Property>, length: nat, e: LowerError) returns (path: seq<Name>, v: Value)
    requires LowerFails(es, length, e)
    ensures ValueAt(es, path, v) && !v.Undefined?
    ensures match e case TooDeep => |path| > 65 - length case IllFormedKey => !PathOk(path) case _ => false
  {
    hide ValueAt, PathOk;
    if e.TooDeep? {
      path, v :| ValueAt(es, path, v) && !v.Undefined? && |path| > 65 - length;
    } else {
      path, v :| ValueAt(es, path, v) && !v.Undefined? && !PathOk(path);
    }
  }

  /** The error that one module is refused with is true of it. */
  ghost predicate Deserved(p: Property, valid: Name -> bool, e: LowerError)
  {
    match e
    case IllFormedSpecifier => !IsWellFormed(p.key)
    case NotAModule => !p.value.Text? && !p.value.Plain?
    case BadExport => p.value.Plain? && exists q :: q in p.value.entries && !q.value.Undefined? && !valid(q.key)
    case TooDeep => p.value.Plain? && TooLong(p.value.entries, 64)
    case IllFormedKey => p.value.Plain? && BadKey(p.value.entries)
  }

  lemma {:induction false} ModuleRefuses(es: seq<Property>, valid: Name -> bool, blob: Serializer)
    requires NamesIdentify(valid)
    ensures ModuleOf(es, valid, blob).Err? ==>
              var e := ModuleOf(es, valid, blob).error;
              if e.BadExport? then exists q :: q in es && !q.value.Undefined? && !valid(q.key) else LowerFails(es, 1, e)
  {
    hide IsWellFormed, ValueAt, LeadsTo, PathOk, LowerOne;
    if es != [] && ModuleOf(es, valid, blob).Err? {
      assert es == [es[0]] + es[1..];
      if es[0].value.Undefined? || ExportOf(es[0], valid, blob).Ok? {
        ModuleRefuses(es[1..], valid, blob);
        forall path, v | ValueAt(es[1..], path, v) ensures ValueAt(es, path, v) {
          PathThere(es[1..], path, v);
          ValueAtCons(es, path, v);
        }
      } else if valid(es[0].key) {
        assert LowerOne(es[0], 1, blob) == ExportOf(es[0], valid, blob) by { ExportIsLowered(es[0], valid, blob); }
        var path, v := OneRefuses(es[0], 1, blob);
        ValueAtCons(es, path, v);
      }
    }
  }

  lemma ExportIsLowered(p: Property, valid: Name -> bool, blob: Serializer)
    requires NamesIdentify(valid) && valid(p.key)
    ensures LowerOne(p, 1, blob) == ExportOf(p, valid, blob)
  {
    hide IsWellFormed, Lower;
  }

  /** `prepare` refuses for the first module that does not fit, with an error that is true of it. */
  lemma {:induction false} PrepareRefusesModule(imports: seq<Property>, valid: Name -> bool, blob: Serializer)
    requires NamesIdentify(valid) && Process(imports, valid, blob).Err?
    ensures exists k :: 0 <= k < |imports| && !ModuleFits(imports[k], valid)
                     && Deserved(imports[k], valid, Process(imports, valid, blob).error)
                     && forall j :: 0 <= j < k ==> ModuleFits(imports[j], valid)
  {
    hide IsWellFormed, ModuleOf, ModuleFits, NamesIdentify, TooLong, BadKey;
    ModuleFitsExactly(imports[0], valid, blob);
    if BindingOf(imports[0], valid, blob).Err? {
      if imports[0].value.Plain? { ModuleRefuses(imports[0].value.entries, valid, blob); }
      assert Deserved(imports[0], valid, Process(imports, valid, blob).error);
    } else {
      PrepareRefusesModule(imports[1..], valid, blob);
      var k :| 0 <= k < |imports[1..]| && !ModuleFits(imports[1..][k], valid)
               && Deserved(imports[1..][k], valid, Process(imports[1..], valid, blob).error)
               && forall j :: 0 <= j < k ==> ModuleFits(imports[1..][j], valid);
      assert imports[k + 1] == imports[1..][k];
      forall j | 0 <= j < k + 1 ensures ModuleFits(imports[j], valid) {
        if j > 0 { assert imports[1..][j - 1] == imports[j]; }
      }
    }
  }

  /** The node that a value becomes. */
  ghost predicate NodeFor(v: Value, n: Node<Name>, blob: Serializer)
  {
    match v
    case Func(_) => n.Function?
    case Plain(_) => n.Object?
    case _ => n == Data(blob(v))
  }

  ghost predicate FoundAs(es: seq<Property>, ns: Shape, path: seq<Name>, blob: Serializer)
  {
    && (forall v :: ValueAt(es, path, v) && !v.Undefined? ==> Find(ns, path).Ok? && NodeFor(v, Find(ns, path).value, blob))
    && (Find(ns, path).Ok? ==> exists v :: ValueAt(es, path, v) && !v.Undefined?)
  }

  lemma {:induction false} LoweredAt(es: seq<Property>, length: nat, blob: Serializer, path: seq<Name>)
    requires LowerAll(es, length, blob).Ok? && DistinctKeys(es)
    ensures FoundAs(es, LowerAll(es, length, blob).value, path, blob)
    decreases |path|, |es|
  {
    hide IsWellFormed, Lower, NodeFor, ValueAt, LeadsTo;
    if path == [] {
      forall v ensures !ValueAt(es, path, v) { PathThere(es, path, v); }
    } else if es == [] {
      forall v ensures !ValueAt(es, path, v) { NothingThere(path, v); }
    } else {
      var ns, rest := LowerAll(es, length, blob).value, LowerAll(es[1..], length, blob).value;
      LoweredAt(es[1..], length, blob, path);
      forall v ensures ValueAt(es, path, v) <==> (es[0].key == path[0] && LeadsTo(es[0], path, v)) || ValueAt(es[1..], path, v) {
        ValueAtCons(es, path, v);
      }
      if !es[0].value.Undefined? { assert ns[0].key == es[0].key && ns[1..] == rest; }
      if es[0].key == path[0] {
        AbsentKey(es[1..], length, blob, path[0]);
        forall v ensures !ValueAt(es[1..], path, v) { KeyThere(es[1..], path, v); }
        OneLoweredAt(es[0], length, blob, path);
      } else {
        SameFind(ns, rest, path);
      }
    }
  }

  /** LeadsTo one key: `n` is what its value becomes. */
  lemma {:induction false} OneLoweredAt(p: Property, length: nat, blob: Serializer, path: seq<Name>)
    requires path != [] && (p.value.Plain? ==> DistinctKeys(p.value.entries))
    ensures p.value.Undefined? ==> forall v :: LeadsTo(p, path, v) ==> v.Undefined?
    ensures Lower(p.value, length, blob).Ok? && !p.value.Undefined? ==>
              var n := Lower(p.value, length, blob).value;
              if |path| == 1 then NodeFor(p.value, n, blob) && forall v :: LeadsTo(p, path, v) <==> v == p.value
              else if !n.Object? then forall v :: !LeadsTo(p, path, v)
              else
                && (forall v :: LeadsTo(p, path, v) && !v.Undefined? ==>
                      Find(n.entries, path[1..]).Ok? && NodeFor(v, Find(n.entries, path[1..]).value, blob))
                && (Find(n.entries, path[1..]).Ok? ==> exists v :: LeadsTo(p, path, v) && !v.Undefined?)
    decreases |path|, 0
  {
    hide IsWellFormed, ValueAt, LeadsTo, LowerAll, Find;
    forall v ensures LeadsTo(p, path, v) <==> if |path| == 1 then p.value == v else p.value.Plain? && ValueAt(p.value.entries, path[1..], v) {
      BelowIs(p, path, v);
    }
    if p.value.Plain? && |path| > 1 && Lower(p.value, length, blob).Ok? {
      LoweredAt(p.value.entries, length + 1, blob, path[1..]);
    }
  }

  /**
   * What `prepare` sends, told from its option: the modules in order, source text as it is,
   * and in a host module a node exactly where the option has a value, of its kind, a plain
   * value as the serializer wrote it.
   */
  ghost predicate SentFor(p: Property, b: Binding<Name>, blob: Serializer)
  {
    && b.specifier == p.key
    && (p.value.Text? ==> b.body == Source(p.value.text))
    && (p.value.Plain? ==> b.body.Host? && forall path :: FoundAs(p.value.entries, b.body.exports, path, blob))
  }

  lemma {:induction false} PrepareSends(imports: seq<Property>, valid: Name -> bool, blob: Serializer)
    requires NamesIdentify(valid) && DistinctKeys(imports) && Process(imports, valid, blob).Ok?
    ensures var bs := Process(imports, valid, blob).value;
            |bs| == |imports| && forall k :: 0 <= k < |imports| ==> SentFor(imports[k], bs[k], blob)
  {
    hide IsWellFormed, ModuleOf, FoundAs, NamesIdentify;
    if imports != [] {
      var p, bs := imports[0], Process(imports, valid, blob).value;
      PrepareSends(imports[1..], valid, blob);
      assert bs == [bs[0]] + Process(imports[1..], valid, blob).value;
      if p.value.Plain? {
        ModuleIsLowered(p.value.entries, valid, blob);
        forall path ensures FoundAs(p.value.entries, bs[0].body.exports, path, blob) {
          LoweredAt(p.value.entries, 1, blob, path);
        }
      }
    }
  }
}
