// From the client's options to the runtime's checks: what `prepare` and a run send is read
// back as sent, and then passes both rebind checks.

module EndToEnd {
  import opened Wrappers
  import opened Bytes
  import opened Utf8
  import opened Names
  import opened ImportShapes
  import opened RuntimeCheck
  import opened ClientRebind
  import opened RebindAgreement
  import opened ImportLowering
  import opened PayloadFormat
  import opened RequestFormat
  import Globals

  // ── A payload that fits its frame has only parts that fit ───────────────

  lemma EncodedFits(n: Name, rest: seq<byte>)
    requires IsU32(|PutStr(Encoded(n), rest)|)
    ensures WfStr(Encoded(n)) && IsU32(|rest|)
  {
    hide Encoded, ValidUtf8;
    StrLonger(Encoded(n), rest);
    EncodedIsFaithful(n, n);
    ValidIsWellFormed(Encoded(n));
  }

  lemma BlobFits(b: seq<byte>, rest: seq<byte>)
    requires IsU32(|PutBlob(b, rest)|)
    ensures IsU32(|b|) && IsU32(|rest|)
  {
  }

  lemma DefFits(d: Globals.Def<Name>, rest: seq<byte>)
    requires IsU32(|PutDef(Globals.WireDef(d), rest)|)
    ensures WfDef(Globals.WireDef(d)) && IsU32(|rest|)
  {
    hide PutStr, PutBlob, WfStr, Encoded;
    match d
    case Bridge(n, e) => EncodedFits(n, PutBool(e, rest));
    case StringExpr(n, x, e) =>
      EncodedFits(n, PutBool(e, PutStr(Encoded(x), rest)));
      EncodedFits(x, rest);
    case Data(n, b, e) =>
      EncodedFits(n, PutBool(e, PutBlob(b, rest)));
      BlobFits(b, rest);
    case Shim(n, s, h, e) =>
      EncodedFits(n, PutBool(e, PutStr(Encoded(s), PutStr(Encoded(h), rest))));
      EncodedFits(s, PutStr(Encoded(h), rest));
      EncodedFits(h, rest);
  }

  lemma {:induction false} DefsFit(ds: seq<Globals.Def<Name>>, rest: seq<byte>)
    requires IsU32(|PutMany(PutDef, Globals.WireDefs(ds), rest)|)
    ensures WfList(WfDef, Globals.WireDefs(ds)) && IsU32(|rest|)
    ensures |PutMany(PutDef, Globals.WireDefs(ds), rest)| >= |ds| + |rest| && |Globals.WireDefs(ds)| == |ds|
    decreases |ds|
  {
    hide PutDef, WfDef, Globals.WireDef;
    if ds != [] {
      var ws := Globals.WireDefs(ds);
      assert ws[1..] == Globals.WireDefs(ds[1..]);
      DefFits(ds[0], PutMany(PutDef, ws[1..], rest));
      DefsFit(ds[1..], rest);
      DefLonger(ws[0], PutMany(PutDef, ws[1..], rest));
    }
  }

  lemma DefLonger(d: GlobalDef, rest: seq<byte>)
    ensures |PutDef(d, rest)| > |rest|
  {
    DefExact();
  }

  lemma {:induction false} PathFits(path: seq<Name>, rest: seq<byte>)
    requires IsU32(|PutMany(PutStr, WirePath(path), rest)|)
    ensures WfList(WfStr, WirePath(path)) && IsU32(|rest|)
    ensures |PutMany(PutStr, WirePath(path), rest)| >= |path| + |rest|
    decreases |path|
  {
    hide PutStr, WfStr, Encoded;
    if path != [] {
      var w := WirePath(path);
      assert w[1..] == WirePath(path[1..]);
      EncodedFits(path[0], PutMany(PutStr, w[1..], rest));
      PathFits(path[1..], rest);
      StrLonger(w[0], PutMany(PutStr, w[1..], rest));
    }
  }

  lemma {:induction false} PlacesFit(ls: seq<Location<Name>>, rest: seq<byte>)
    requires IsU32(|PutMany(PutRebind, WirePlaces(ls), rest)|)
    ensures WfList(WfRebind, WirePlaces(ls)) && IsU32(|rest|)
    ensures |PutMany(PutRebind, WirePlaces(ls), rest)| >= |ls| + |rest|
    decreases |ls|
  {
    hide WfRebind, PutRebind, WireAt;
    if ls != [] {
      var ws := WirePlaces(ls);
      assert ws[1..] == WirePlaces(ls[1..]);
      PlaceFits(ls[0], PutMany(PutRebind, ws[1..], rest));
      PlacesFit(ls[1..], rest);
      RebindLonger(ws[0], PutMany(PutRebind, ws[1..], rest));
    }
  }

  lemma RebindLonger(l: Location<Str>, rest: seq<byte>)
    ensures |PutRebind(l, rest)| > |rest|
  {
    RebindExact();
  }

  lemma PlaceFits(l: Location<Name>, rest: seq<byte>)
    requires IsU32(|PutRebind(WireAt(l), rest)|)
    ensures WfRebind(WireAt(l)) && IsU32(|rest|)
  {
    hide PutStr, WfStr, Encoded, PutMany, PutLength;
    EncodedFits(l.specifier, PutList(PutStr, WirePath(l.path), rest));
    LengthLonger(|WirePath(l.path)|, PutMany(PutStr, WirePath(l.path), rest));
    PathFits(l.path, rest);
  }

  lemma LengthLonger(n: nat, rest: seq<byte>)
    ensures |PutLength(n, rest)| == 4 + |rest|
  {
  }

  lemma {:induction false} NodeFits(n: Node<Name>, rest: seq<byte>)
    requires IsU32(|PutNode(WireNode(n), rest)|)
    ensures WfNode(WireNode(n)) && IsU32(|rest|)
    decreases n, 0
  {
    hide PutStr, WfStr, Encoded, PutBlob, PutLength, PutEntries, WfEntries;
    match n
    case Function =>
    case Data(blob) => BlobFits(blob, rest);
    case Object(es) =>
      LengthLonger(|WireEntries(es)|, PutEntries(WireEntries(es), rest));
      EntriesFit(es, rest);
  }

  lemma {:induction false} EntriesFit(es: seq<Entry<Name>>, rest: seq<byte>)
    requires IsU32(|PutEntries(WireEntries(es), rest)|)
    ensures WfEntries(WireEntries(es)) && |WireEntries(es)| == |es| && IsU32(|rest|)
    ensures |PutEntries(WireEntries(es), rest)| >= |es| + |rest|
    decreases es, 0
  {
    hide PutStr, WfStr, Encoded, PutEntry, WfEntry, WireEntry;
    if es != [] {
      var ws := WireEntries(es);
      assert ws[1..] == WireEntries(es[1..]);
      EntryFits(es[0], PutEntries(ws[1..], rest));
      EntriesFit(es[1..], rest);
    }
  }

  lemma {:induction false} EntryFits(e: Entry<Name>, rest: seq<byte>)
    requires IsU32(|PutEntry(WireEntry(e), rest)|)
    ensures WfEntry(WireEntry(e)) && IsU32(|rest|) && |PutEntry(WireEntry(e), rest)| > |rest|
    decreases e, 0
  {
    hide PutStr, WfStr, Encoded, PutNode, WfNode, WireNode;
    EncodedFits(e.key, PutNode(WireNode(e.node), rest));
    StrLonger(Encoded(e.key), PutNode(WireNode(e.node), rest));
    NodeFits(e.node, rest);
    NodeLonger(WireNode(e.node), rest);
  }

  /** Encoding keys changes no depth. */
  lemma {:induction false} WireBelow(n: Node<Name>)
    ensures Below(WireNode(n)) == Below(n)
    decreases n, 0
  {
    hide Encoded;
    if n.Object? { WireBelowAll(n.entries); }
  }

  lemma {:induction false} WireBelowAll(es: seq<Entry<Name>>)
    ensures BelowAll(WireEntries(es)) == BelowAll(es)
    decreases es, 0
  {
    hide Encoded, WireNode;
    if es != [] {
      WireBelowOne(es[0]);
      WireBelowAll(es[1..]);
    }
  }

  lemma {:induction false} WireBelowOne(e: Entry<Name>)
    ensures BelowEntry(WireEntry(e)) == BelowEntry(e)
    decreases e, 0
  {
    hide Encoded;
    WireBelow(e.node);
  }

  function WireBinding(b: Binding<Name>): Binding<seq<byte>>
  {
    Binding(Encoded(b.specifier), match b.body case Source(t) => Source(Encoded(t)) case Host(es) => Host(WireEntries(es)))
  }

  lemma BindingFits(b: Binding<Name>, rest: seq<byte>)
    requires IsU32(|PutBinding(WireBinding(b), rest)|)
    requires b.body.Host? ==> BelowAll(b.body.exports) <= MAX_HOST_MODULE_DEPTH
    ensures WfBinding(WireBinding(b)) && IsU32(|rest|)
  {
    hide PutStr, WfStr, Encoded, PutEntries, WfEntries, BelowAll, PutLength;
    match b.body
    case Source(t) =>
      EncodedFits(b.specifier, [0] + PutStr(Encoded(t), rest));
      EncodedFits(t, rest);
    case Host(es) =>
      EncodedFits(b.specifier, [1] + PutNodes(WireEntries(es), rest));
      LengthLonger(|WireEntries(es)|, PutEntries(WireEntries(es), rest));
      EntriesFit(es, rest);
      WireBelowAll(es);
  }

  lemma {:induction false} BindingsFit(bs: seq<Binding<Name>>, rest: seq<byte>)
    requires IsU32(|PutMany(PutBinding, WireBindings(bs), rest)|)
    requires forall b | b in bs :: b.body.Host? ==> BelowAll(b.body.exports) <= MAX_HOST_MODULE_DEPTH
    ensures WfList(WfBinding, WireBindings(bs)) && IsU32(|rest|) && |WireBindings(bs)| == |bs|
    ensures |PutMany(PutBinding, WireBindings(bs), rest)| >= |bs| + |rest|
    decreases |bs|
  {
    hide PutBinding, WfBinding, BelowAll, Encoded;
    if bs != [] {
      var ws := WireBindings(bs);
      assert ws[0] == WireBinding(bs[0]) && ws[1..] == WireBindings(bs[1..]);
      assert bs[0] in bs;
      BindingFits(bs[0], PutMany(PutBinding, ws[1..], rest));
      BindingsFit(bs[1..], rest);
      BindingLonger(ws[0], PutMany(PutBinding, ws[1..], rest));
    }
  }

  // ── What the client sends ───────────────────────────────────────────────

  function PrepareRequest(id: u32, code: Name, limits: RawLimits, defs: seq<Globals.Def<Name>>, bindings: seq<Binding<Name>>): Precompile
  {
    Precompile(id, CodeFields(Encoded(code), None, limits, Globals.WireDefs(defs)), WireBindings(bindings))
  }

  /** Any `prepare` whose payload fits a frame's length is read back by the runtime as it was sent. */
  lemma PrepareArrives(id: u32, code: Name, limits: RawLimits, gs: seq<Globals.Named<Globals.HostGlobal>>, owned: set<Name>,
                       imports: seq<Property>, valid: Name -> bool, blob: Serializer)
    requires |limits| == LIMIT_FIELDS && NamesIdentify(valid)
    requires Globals.ProcessGlobals(gs, owned).Ok? && Process(imports, valid, blob).Ok?
    requires var p := PrepareRequest(id, code, limits, Globals.ProcessGlobals(gs, owned).value, Process(imports, valid, blob).value);
             IsU32(|PutPrecompile(p)|)
    ensures var p := PrepareRequest(id, code, limits, Globals.ProcessGlobals(gs, owned).value, Process(imports, valid, blob).value);
            ParsePrecompile(PutPrecompile(p)) == Ok(p)
  {
    hide Process, PutStr, WfStr, Encoded, PutMany, PutLength, WfList, ParsePrecompile, PutLimits, WireBindings;
    var defs, bs := Globals.ProcessGlobals(gs, owned).value, Process(imports, valid, blob).value;
    var p := PrepareRequest(id, code, limits, defs, bs);
    PreparedOk(imports, valid, blob);
    var d3 := PutList(PutBinding, p.imports, []);
    var d2 := PutList(PutDef, p.fields.globals, d3);
    var d1 := PutLimits(limits, d2);
    U32Longer(id, PutCodeFields(p.fields, d3));
    EncodedFits(code, PutOpt(PutStr, None, d1));
    LimitsLonger(limits, d2);
    LengthLonger(|p.fields.globals|, PutMany(PutDef, p.fields.globals, d3));
    DefsFit(defs, d3);
    LengthLonger(|p.imports|, PutMany(PutBinding, p.imports, []));
    BindingsFit(bs, []);
    PrecompileExact(PutPrecompile(p), p);
  }

  lemma LimitsLonger(l: RawLimits, rest: seq<byte>)
    ensures |PutLimits(l, rest)| >= |rest|
  {
    hide PutOptU32;
    OptU32Exact();
    ManyLonger(PutOptU32, l, rest);
  }

  function RunRequestOf(id: u32, prefixId: Name, limits: RawLimits, defs: seq<Globals.Def<Name>>, os: seq<Override>, exportPath: Name, args: seq<byte>): PrefixRun
  {
    PrefixRun(id, Encoded(prefixId), limits, Globals.WireDefs(defs), WirePlaces(Places(os)), CallSpec(Encoded(exportPath), args))
  }

  /**
   * A run the client lets through, whatever globals and imports it overrides: the runtime
   * reads back what was sent, and both its checks against what `prepare` declared pass.
   */
  lemma RunArrivesAndPasses(id: u32, prefixId: Name, limits: RawLimits, gs: seq<Globals.Named<Globals.HostGlobal>>, owned: set<Name>,
                            imports: seq<Property>, declared: seq<Binding<Name>>, exportPath: Name, args: seq<byte>)
    requires |limits| == LIMIT_FIELDS && Globals.ProcessGlobals(gs, owned).Ok? && DeclaredOk(declared) && Merge(imports, declared).Ok?
    requires var p := RunRequestOf(id, prefixId, limits, Globals.RunDefs(Globals.DeclareGlobals(gs)), Merge(imports, declared).value, exportPath, args);
             IsU32(|PutPrefixRun(p)|)
    ensures var p := RunRequestOf(id, prefixId, limits, Globals.RunDefs(Globals.DeclareGlobals(gs)), Merge(imports, declared).value, exportPath, args);
            var kept := Globals.WireDefs(Globals.ProcessGlobals(gs, owned).value);
            && ParsePrefixRun(PutPrefixRun(p)) == Ok(p)
            && Globals.JudgeAll(p.globals, Globals.Stubs(kept), kept) == Ok(())
            && Verdicts(p.rebinds, WireBindings(declared)) == Ok(())
  {
    hide Merge, PutStr, WfStr, Encoded, PutMany, PutLength, WfList, ParsePrefixRun, PutLimits, PutBlob, WireBindings, Verdicts, DeclaredOk;
    hide Globals.JudgeAll, Globals.RunDefs, Globals.DeclareGlobals, Globals.ProcessGlobals, Globals.Stubs;
    var defs, os := Globals.RunDefs(Globals.DeclareGlobals(gs)), Merge(imports, declared).value;
    var p := RunRequestOf(id, prefixId, limits, defs, os, exportPath, args);
    Globals.RunPassesTheCheck(gs, owned);
    ClientOkRuntimeOk(imports, declared);
    var d5 := PutCall(p.call, []);
    var d4 := PutPrefixRunTail(p);
    var d3 := PutList(PutDef, p.globals, d4);
    var d2 := PutLimits(limits, d3);
    U32Longer(id, PutStr(p.prefixId, d2));
    EncodedFits(prefixId, d2);
    LimitsLonger(limits, d3);
    LengthLonger(|p.globals|, PutMany(PutDef, p.globals, d4));
    DefsFit(defs, d4);
    LengthLonger(|p.rebinds|, PutMany(PutRebind, p.rebinds, d5));
    PlacesFit(Places(os), d5);
    EncodedFits(exportPath, PutBlob(args, []));
    BlobFits(args, []);
    PrefixRunExact(PutPrefixRun(p), p);
  }

  /** The key a handler is filed under, the wire form of its location, tells all well-formed locations apart. */
  lemma HandlerKeysDiffer(a: Location<Name>, b: Location<Name>)
    requires IsWellFormed(a.specifier) && PathOk(a.path) && IsWellFormed(b.specifier) && PathOk(b.path)
    requires IsU32(|PutRebind(WireAt(a), [])|)
    ensures PutRebind(WireAt(a), []) == PutRebind(WireAt(b), []) <==> a == b
  {
    hide Encoded, IsWellFormed, PutRebind, ParseRebind;
    if PutRebind(WireAt(a), []) == PutRebind(WireAt(b), []) {
      PlaceFits(a, []);
      PlaceFits(b, []);
      RebindExact();
      assert ParseRebind(PutRebind(WireAt(a), [])).value == WireAt(a);
      assert ParseRebind(PutRebind(WireAt(b), [])).value == WireAt(b);
      SameOnTheWire(a.specifier, b.specifier);
      assert |WirePath(a.path)| == |WirePath(b.path)|;
      forall k | 0 <= k < |a.path| ensures a.path[k] == b.path[k] {
        assert WirePath(a.path)[k] == WirePath(b.path)[k];
        SameOnTheWire(a.path[k], b.path[k]);
      }
    }
  }
}
