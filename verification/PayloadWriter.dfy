// The client's writer of one payload: it appends exactly the wire form of what it is given,
// or throws where a length does not fit its word; and the limits, by name, from the
// client's options to the fields the runtime runs under.

module PayloadWriting {
  import opened Wrappers
  import opened Bytes
  import opened Utf8
  import opened Names
  import opened ImportShapes
  import opened RuntimeCheck
  import opened RebindAgreement
  import opened PayloadFormat
  import opened RequestFormat
  import opened PayloadReading
  import opened HeapLines
  import opened EndToEnd
  import Globals

  /** A number that does not fit the word it is written as. */
  datatype OutOfRange = OutOfRange

  type Written = Result<(), OutOfRange>

  /** The limits of a request as the client holds them; what is absent is the runtime's to choose. */
  datatype WireLimits = WireLimits(
    memoryMb: Option<u32>, hardMemoryMb: Option<u32>, cpuTimeMs: Option<u32>, wallTimeMs: Option<u32>,
    maxExportBytes: Option<u32>, maxStdoutBytes: Option<u32>, maxStderrBytes: Option<u32>,
    maxBridgeCallBytes: Option<u32>, maxBridgeCalls: Option<u32>, graceMs: Option<u32>)

  function RawOf(w: WireLimits): RawLimits
  {
    [w.memoryMb, w.cpuTimeMs, w.wallTimeMs, w.maxExportBytes, w.maxStdoutBytes, w.maxStderrBytes, w.maxBridgeCallBytes,
     w.maxBridgeCalls, w.graceMs, w.hardMemoryMb]
  }

  datatype CallPayload = CallPayload(exportPath: Name, argsBlob: seq<byte>)

  function WireCall(c: CallPayload): CallSpec { CallSpec(Encoded(c.exportPath), c.argsBlob) }

  function WireName(n: Option<Name>): Option<Str> { if n.Some? then Some(Encoded(n.value)) else None }

  function Joined(parts: seq<seq<byte>>): seq<byte>
  {
    if parts == [] then [] else Joined(parts[..|parts| - 1]) + parts[|parts| - 1]
  }

  class PayloadWriter {
    var parts: seq<seq<byte>>

    ghost function Bytes(): seq<byte>
      reads this
    {
      Joined(parts)
    }

    constructor ()
      ensures Bytes() == []
    {
      parts := [];
    }

    method WriteBytes(b: seq<byte>)
      modifies this
      ensures forall rest {:trigger b + rest} :: Bytes() + rest == old(Bytes()) + (b + rest)
    {
      parts := parts + [b];
      assert parts[..|parts| - 1] == old(parts);
      forall rest ensures (old(Bytes()) + b) + rest == old(Bytes()) + (b + rest) {}
    }

    method WriteU8(n: byte)
      modifies this
      ensures forall rest {:trigger [n] + rest} :: Bytes() + rest == old(Bytes()) + ([n] + rest)
    {
      WriteBytes([n]);
    }

    method WriteU32(n: nat) returns (r: Written)
      modifies this
      ensures r.Ok? <==> IsU32(n)
      ensures r.Ok? ==> forall rest {:trigger PutU32(n, rest)} :: Bytes() + rest == old(Bytes()) + PutU32(n, rest)
      ensures r.Ok? ==> forall rest {:trigger PutLength(n, rest)} :: PutLength(n, rest) == PutU32(n, rest)
    {
      hide BE32;
      if n >= 0x1_0000_0000 { return Err(OutOfRange); }
      WriteBytes(BE32(n));
      assert n % 0x1_0000_0000 == n;
      r := Ok(());
    }

    method WriteLengthPrefixedBytes(blob: seq<byte>) returns (r: Written)
      modifies this
      ensures r.Ok? <==> IsU32(|blob|)
      ensures r.Ok? ==> forall rest {:trigger PutBlob(blob, rest)} :: Bytes() + rest == old(Bytes()) + PutBlob(blob, rest)
    {
      hide PutU32, PutLength;
      var _ :- WriteU32(|blob|);
      WriteBytes(blob);
      r := Ok(());
    }

    /** A lone surrogate is written as the replacement character. */
    method WriteString(s: Name) returns (r: Written)
      modifies this
      ensures r.Ok? <==> IsU32(|Encoded(s)|)
      ensures r.Ok? ==> forall rest {:trigger PutStr(Encoded(s), rest)} :: Bytes() + rest == old(Bytes()) + PutStr(Encoded(s), rest)
    {
      hide PutU32, PutLength, Encoded;
      var encoded := Encoded(s);
      var _ :- WriteU32(|encoded|);
      WriteBytes(encoded);
      r := Ok(());
    }

    method WriteOptionalString(s: Option<Name>) returns (r: Written)
      modifies this
      ensures r.Err? ==> s.Some? && !WfStr(Encoded(s.value))
      ensures r.Ok? ==> forall rest {:trigger PutOpt(PutStr, WireName(s), rest)} :: Bytes() + rest == old(Bytes()) + PutOpt(PutStr, WireName(s), rest)
    {
      hide PutStr, Encoded, ValidUtf8;
      if s.None? {
        WriteU8(0);
      } else {
        WriteU8(1);
        var _ :- WriteString(s.value);
      }
      r := Ok(());
    }

    method WriteOptionalU32(n: Option<u32>)
      modifies this
      ensures forall rest {:trigger PutOptU32(n, rest)} :: Bytes() + rest == old(Bytes()) + PutOptU32(n, rest)
    {
      hide PutU32, PutLength;
      if n.None? {
        WriteU8(0);
      } else {
        WriteU8(1);
        var r := WriteU32(n.value);
      }
    }

    /** The limits before the k-th are written. */
    ghost predicate UpTo(start: seq<byte>, raw: RawLimits, k: nat)
      requires k <= |raw|
      reads this
    {
      forall rest {:trigger PutMany(PutOptU32, raw[k..], rest)} :: Bytes() + PutMany(PutOptU32, raw[k..], rest) == start + PutLimits(raw, rest)
    }

    method WriteLimit(limit: Option<u32>, ghost start: seq<byte>, ghost raw: RawLimits, ghost k: nat)
      requires k < |raw| && raw[k] == limit && UpTo(start, raw, k)
      modifies this
      ensures UpTo(start, raw, k + 1)
    {
      hide PutOptU32, PutLimits;
      WriteOptionalU32(limit);
      forall rest ensures Bytes() + PutMany(PutOptU32, raw[k + 1..], rest) == start + PutLimits(raw, rest) {
        assert raw[k..][0] == raw[k] && raw[k..][1..] == raw[k + 1..];
        assert PutMany(PutOptU32, raw[k..], rest) == PutOptU32(limit, PutMany(PutOptU32, raw[k + 1..], rest));
      }
    }

    method WriteResourceLimits(limits: WireLimits)
      modifies this
      ensures forall rest {:trigger PutLimits(RawOf(limits), rest)} :: Bytes() + rest == old(Bytes()) + PutLimits(RawOf(limits), rest)
    {
      hide PutOptU32, UpTo;
      ghost var start, raw := Bytes(), RawOf(limits);
      UpToStarts(start, raw);
      WriteLimit(limits.memoryMb, start, raw, 0);
      WriteLimit(limits.cpuTimeMs, start, raw, 1);
      WriteLimit(limits.wallTimeMs, start, raw, 2);
      WriteLimit(limits.maxExportBytes, start, raw, 3);
      WriteLimit(limits.maxStdoutBytes, start, raw, 4);
      WriteLimit(limits.maxStderrBytes, start, raw, 5);
      WriteLimit(limits.maxBridgeCallBytes, start, raw, 6);
      WriteLimit(limits.maxBridgeCalls, start, raw, 7);
      WriteLimit(limits.graceMs, start, raw, 8);
      WriteLimit(limits.hardMemoryMb, start, raw, 9);
      UpToEnds(start, raw);
    }

    lemma UpToStarts(start: seq<byte>, raw: RawLimits)
      requires Bytes() == start
      ensures UpTo(start, raw, 0)
    {
      assert raw[0..] == raw;
    }

    lemma UpToEnds(start: seq<byte>, raw: RawLimits)
      requires UpTo(start, raw, |raw|)
      ensures forall rest :: Bytes() + rest == start + PutLimits(raw, rest)
    {
      hide PutLimits, PutOptU32;
      assert raw[|raw|..] == [];
      forall rest ensures Bytes() + rest == start + PutLimits(raw, rest) {
        assert PutMany(PutOptU32, raw[|raw|..], rest) == rest;
      }
    }

    method WriteGlobalDef(def: Globals.Def<Name>) returns (r: Written)
      modifies this
      ensures r.Err? ==> !WfDef(Globals.WireDef(def))
      ensures r.Ok? ==> forall rest {:trigger PutDef(Globals.WireDef(def), rest)} :: Bytes() + rest == old(Bytes()) + PutDef(Globals.WireDef(def), rest)
    {
      hide PutStr, PutBlob, Encoded, ValidUtf8;
      WriteU8(match def case Bridge(_, _) => 0 case StringExpr(_, _, _) => 1 case Data(_, _, _) => 2 case Shim(_, _, _, _) => 3);
      var _ :- WriteString(def.name);
      WriteU8(if def.enumerable then 1 else 0);
      match def {
        case Bridge(_, _) =>
        case StringExpr(_, expr, _) => var _ :- WriteString(expr);
        case Data(_, blob, _) => var _ :- WriteLengthPrefixedBytes(blob);
        case Shim(_, shim, handlerName, _) =>
          var _ :- WriteString(shim);
          var _ :- WriteString(handlerName);
      }
      r := Ok(());
    }

    method WriteGlobalDefs(defs: seq<Globals.Def<Name>>) returns (r: Written)
      modifies this
      ensures r.Err? ==> !WfList(WfDef, Globals.WireDefs(defs))
      ensures r.Ok? ==> forall rest {:trigger PutList(PutDef, Globals.WireDefs(defs), rest)} :: Bytes() + rest == old(Bytes()) + PutList(PutDef, Globals.WireDefs(defs), rest)
    {
      hide PutDef, WfDef, PutU32, PutLength, Globals.WireDef;
      DefsOneByOne(defs);
      var _ :- WriteU32(|defs|);
      assert defs[0..] == defs;
      for i := 0 to |defs|
        invariant forall rest {:trigger PutMany(PutDef, Globals.WireDefs(defs[i..]), rest)} :: Bytes() + PutMany(PutDef, Globals.WireDefs(defs[i..]), rest) == old(Bytes()) + PutList(PutDef, Globals.WireDefs(defs), rest)
      {
        assert defs[i..][0] == defs[i] && defs[i..][1..] == defs[i + 1..];
        assert Globals.WireDefs(defs[i..])[1..] == Globals.WireDefs(defs[i + 1..]);
        forall rest { ManyStep(PutDef, Globals.WireDefs(defs[i..]), rest); }
        var _ :- WriteGlobalDef(defs[i]);
      }
      forall rest ensures Bytes() + rest == old(Bytes()) + PutList(PutDef, Globals.WireDefs(defs), rest) {
        ManyStep(PutDef, Globals.WireDefs(defs[|defs|..]), rest);
      }
      r := Ok(());
    }

    method WriteHostModuleNode(node: Node<Name>) returns (r: Written)
      modifies this
      ensures r.Err? ==> !WfNode(WireNode(node))
      ensures r.Ok? ==> forall rest {:trigger PutNode(WireNode(node), rest)} :: Bytes() + rest == old(Bytes()) + PutNode(WireNode(node), rest)
      decreases node, 0
    {
      hide PutBlob, PutEntries, WfEntries, WireEntries, PutLength, PutU32;
      match node {
        case Function => WriteU8(0);
        case Data(blob) =>
          WriteU8(1);
          var _ :- WriteLengthPrefixedBytes(blob);
        case Object(entries) =>
          WriteU8(2);
          var _ :- WriteEntries(entries);
          forall rest ensures PutNode(WireNode(node), rest) == [2] + PutNodes(WireEntries(entries), rest) {}
      }
      r := Ok(());
    }

    method WriteEntries(entries: seq<Entry<Name>>) returns (r: Written)
      modifies this
      ensures r.Err? ==> !(IsU32(|WireEntries(entries)|) && WfEntries(WireEntries(entries)))
      ensures r.Ok? ==> forall rest {:trigger PutNodes(WireEntries(entries), rest)} :: Bytes() + rest == old(Bytes()) + PutNodes(WireEntries(entries), rest)
      decreases entries, 1
    {
      hide PutU32, PutLength, PutEntry, WfEntry, WireEntry;
      EntriesOneByOne(entries);
      var _ :- WriteU32(|entries|);
      assert entries[0..] == entries;
      for i := 0 to |entries|
        invariant forall rest {:trigger PutEntries(WireEntries(entries[i..]), rest)} :: Bytes() + PutEntries(WireEntries(entries[i..]), rest) == old(Bytes()) + PutNodes(WireEntries(entries), rest)
        invariant WfEntries(WireEntries(entries)) ==> WfEntries(WireEntries(entries[i..]))
      {
        assert entries[i..][0] == entries[i] && entries[i..][1..] == entries[i + 1..];
        FirstEntry(entries, i);
        forall rest { EntryFirst(WireEntries(entries[i..]), rest); }
        var _ :- WriteEntry(entries[i]);
      }
      forall rest ensures Bytes() + rest == old(Bytes()) + PutNodes(WireEntries(entries), rest) {
        EntryFirst(WireEntries(entries[|entries|..]), rest);
      }
      r := Ok(());
    }

    method WriteEntry(entry: Entry<Name>) returns (r: Written)
      modifies this
      ensures r.Err? ==> !WfEntry(WireEntry(entry))
      ensures r.Ok? ==> forall rest {:trigger PutEntry(WireEntry(entry), rest)} :: Bytes() + rest == old(Bytes()) + PutEntry(WireEntry(entry), rest)
      decreases entry, 0
    {
      hide PutStr, PutNode, WfNode, WireNode, Encoded, ValidUtf8;
      var _ :- WriteString(entry.key);
      var _ :- WriteHostModuleNode(entry.node);
      r := Ok(());
    }

    method WriteImport(binding: Binding<Name>) returns (r: Written)
      modifies this
      ensures r.Err? ==> !WfBinding(WireBinding(binding))
      ensures r.Ok? ==> forall rest {:trigger PutBinding(WireBinding(binding), rest)} :: Bytes() + rest == old(Bytes()) + PutBinding(WireBinding(binding), rest)
    {
      hide PutStr, PutBinding, WfBinding, BodyForm, Encoded, ValidUtf8, WireBinding;
      forall rest { BindingForm(binding, rest); }
      BindingForm(binding, []);
      var _ :- WriteString(binding.specifier);
      var _ :- WriteImportBody(binding);
      r := Ok(());
    }

    method WriteImportBody(binding: Binding<Name>) returns (r: Written)
      modifies this
      ensures r.Err? ==> !WfBinding(WireBinding(binding))
      ensures r.Ok? ==> forall rest {:trigger BodyForm(binding, rest)} :: Bytes() + rest == old(Bytes()) + BodyForm(binding, rest)
    {
      hide PutStr, PutNodes, WfEntries, WireEntries, Encoded, ValidUtf8, BelowAll;
      match binding.body {
        case Source(text) =>
          WriteU8(0);
          var _ :- WriteString(text);
        case Host(exports) =>
          WriteU8(1);
          var _ :- WriteEntries(exports);
      }
      r := Ok(());
    }

    method WriteImports(imports: seq<Binding<Name>>) returns (r: Written)
      modifies this
      ensures r.Err? ==> !WfList(WfBinding, WireBindings(imports))
      ensures r.Ok? ==> forall rest {:trigger PutList(PutBinding, WireBindings(imports), rest)} :: Bytes() + rest == old(Bytes()) + PutList(PutBinding, WireBindings(imports), rest)
    {
      hide PutBinding, WfBinding, PutU32, PutLength, WireBindings;
      BindingsOneByOne(imports);
      var _ :- WriteU32(|imports|);
      assert imports[0..] == imports;
      for i := 0 to |imports|
        invariant forall rest {:trigger PutMany(PutBinding, WireBindings(imports[i..]), rest)} :: Bytes() + PutMany(PutBinding, WireBindings(imports[i..]), rest) == old(Bytes()) + PutList(PutBinding, WireBindings(imports), rest)
      {
        FirstBinding(imports, i);
        forall rest { ManyStep(PutBinding, WireBindings(imports[i..]), rest); }
        var _ :- WriteImport(imports[i]);
      }
      BindingsOneByOne(imports[|imports|..]);
      forall rest ensures Bytes() + rest == old(Bytes()) + PutList(PutBinding, WireBindings(imports), rest) {
        ManyStep(PutBinding, WireBindings(imports[|imports|..]), rest);
      }
      r := Ok(());
    }

    method WriteImportRebind(l: Location<Name>) returns (r: Written)
      modifies this
      ensures r.Err? ==> !WfRebind(WireAt(l))
      ensures r.Ok? ==> forall rest {:trigger PutRebind(WireAt(l), rest)} :: Bytes() + rest == old(Bytes()) + PutRebind(WireAt(l), rest)
    {
      hide PutStr, PutU32, PutLength, Encoded, ValidUtf8, WirePath;
      SegmentsOneByOne(l.path);
      var _ :- WriteString(l.specifier);
      var _ :- WriteU32(|l.path|);
      ghost var begun := Bytes();
      assert l.path[0..] == l.path;
      for i := 0 to |l.path|
        invariant forall rest {:trigger PutMany(PutStr, WirePath(l.path[i..]), rest)} :: Bytes() + PutMany(PutStr, WirePath(l.path[i..]), rest) == begun + PutMany(PutStr, WirePath(l.path), rest)
      {
        FirstSegment(l.path, i);
        forall rest { ManyStep(PutStr, WirePath(l.path[i..]), rest); }
        var _ :- WriteString(l.path[i]);
      }
      SegmentsOneByOne(l.path[|l.path|..]);
      forall rest ensures Bytes() + rest == begun + PutMany(PutStr, WirePath(l.path), rest) {
        ManyStep(PutStr, WirePath(l.path[|l.path|..]), rest);
      }
      r := Ok(());
    }

    method WriteImportRebinds(rebinds: seq<Location<Name>>) returns (r: Written)
      modifies this
      ensures r.Err? ==> !WfList(WfRebind, WirePlaces(rebinds))
      ensures r.Ok? ==> forall rest {:trigger PutList(PutRebind, WirePlaces(rebinds), rest)} :: Bytes() + rest == old(Bytes()) + PutList(PutRebind, WirePlaces(rebinds), rest)
    {
      hide PutRebind, WfRebind, PutU32, PutLength, WirePlaces;
      PlacesOneByOne(rebinds);
      var _ :- WriteU32(|rebinds|);
      assert rebinds[0..] == rebinds;
      for i := 0 to |rebinds|
        invariant forall rest {:trigger PutMany(PutRebind, WirePlaces(rebinds[i..]), rest)} :: Bytes() + PutMany(PutRebind, WirePlaces(rebinds[i..]), rest) == old(Bytes()) + PutList(PutRebind, WirePlaces(rebinds), rest)
      {
        FirstPlace(rebinds, i);
        forall rest { ManyStep(PutRebind, WirePlaces(rebinds[i..]), rest); }
        var _ :- WriteImportRebind(rebinds[i]);
      }
      PlacesOneByOne(rebinds[|rebinds|..]);
      forall rest ensures Bytes() + rest == old(Bytes()) + PutList(PutRebind, WirePlaces(rebinds), rest) {
        ManyStep(PutRebind, WirePlaces(rebinds[|rebinds|..]), rest);
      }
      r := Ok(());
    }

    method WriteCall(call: CallPayload) returns (r: Written)
      modifies this
      ensures r.Err? ==> !WfCall(WireCall(call))
      ensures r.Ok? ==> forall rest {:trigger PutCall(WireCall(call), rest)} :: Bytes() + rest == old(Bytes()) + PutCall(WireCall(call), rest)
    {
      hide PutStr, PutBlob, Encoded, ValidUtf8;
      var _ :- WriteString(call.exportPath);
      var _ :- WriteLengthPrefixedBytes(call.argsBlob);
      r := Ok(());
    }

    method WriteOptionalCall(call: Option<CallPayload>) returns (r: Written)
      modifies this
      ensures r.Err? ==> call.Some? && !WfCall(WireCall(call.value))
      ensures r.Ok? ==> forall rest {:trigger PutOpt(PutCall, WireOptionalCall(call), rest)} :: Bytes() + rest == old(Bytes()) + PutOpt(PutCall, WireOptionalCall(call), rest)
    {
      hide PutCall, WfCall, WireCall;
      if call.None? {
        WriteU8(0);
      } else {
        WriteU8(1);
        var _ :- WriteCall(call.value);
      }
      r := Ok(());
    }

    method ToBuffer() returns (b: seq<byte>)
      ensures b == Bytes()
    {
      b := [];
      for i := 0 to |parts|
        invariant b == Joined(parts[..i])
      {
        assert parts[..i + 1][..i] == parts[..i];
        b := b + parts[i];
      }
      assert parts[..|parts|] == parts;
    }
  }

  function WireOptionalCall(c: Option<CallPayload>): Option<CallSpec> { if c.Some? then Some(WireCall(c.value)) else None }

  lemma SegmentsOneByOne(path: seq<Name>)
    ensures |WirePath(path)| == |path|
    ensures forall k :: 0 <= k < |path| ==> WirePath(path)[k] == Encoded(path[k])
  {
    hide Encoded;
  }

  lemma FirstSegment(path: seq<Name>, i: nat)
    requires i < |path|
    ensures WirePath(path[i..]) == [Encoded(path[i])] + WirePath(path[i + 1..])
    ensures WirePath(path[i..])[1..] == WirePath(path[i + 1..])
  {
    hide Encoded;
  }

  lemma PlacesOneByOne(ls: seq<Location<Name>>)
    ensures |WirePlaces(ls)| == |ls|
    ensures forall k :: 0 <= k < |ls| ==> WirePlaces(ls)[k] == WireAt(ls[k])
  {
  }

  lemma FirstPlace(ls: seq<Location<Name>>, i: nat)
    requires i < |ls|
    ensures WirePlaces(ls[i..]) == [WireAt(ls[i])] + WirePlaces(ls[i + 1..])
    ensures WirePlaces(ls[i..])[1..] == WirePlaces(ls[i + 1..])
  {
  }

  lemma ManyStep<T(!new)>(put: (T, seq<byte>) -> seq<byte>, xs: seq<T>, rest: seq<byte>)
    ensures PutMany(put, xs, rest) == if xs == [] then rest else put(xs[0], PutMany(put, xs[1..], rest))
  {
  }

  lemma EntryFirst(es: seq<Entry<Str>>, rest: seq<byte>)
    ensures PutEntries(es, rest) == if es == [] then rest else PutEntry(es[0], PutEntries(es[1..], rest))
  {
    hide PutEntry;
  }

  function BodyForm(b: Binding<Name>, rest: seq<byte>): seq<byte>
  {
    match b.body
    case Source(text) => [0] + PutStr(Encoded(text), rest)
    case Host(exports) => [1] + PutNodes(WireEntries(exports), rest)
  }

  lemma BindingForm(b: Binding<Name>, rest: seq<byte>)
    ensures PutBinding(WireBinding(b), rest) == PutStr(Encoded(b.specifier), BodyForm(b, rest))
    ensures WfBinding(WireBinding(b)) ==> WfStr(Encoded(b.specifier))
  {
    hide PutStr, Encoded, WfStr, PutNodes;
  }

  lemma {:induction false} DefsOneByOne(ds: seq<Globals.Def<Name>>)
    ensures |Globals.WireDefs(ds)| == |ds|
    ensures forall k :: 0 <= k < |ds| ==> Globals.WireDefs(ds)[k] == Globals.WireDef(ds[k])
  {
    if ds != [] { DefsOneByOne(ds[1..]); }
  }

  lemma {:induction false} EntriesOneByOne(es: seq<Entry<Name>>)
    ensures |WireEntries(es)| == |es|
  {
    if es != [] { EntriesOneByOne(es[1..]); }
  }

  lemma {:induction false} BindingsOneByOne(bs: seq<Binding<Name>>)
    ensures |WireBindings(bs)| == |bs|
    ensures forall k :: 0 <= k < |bs| ==> WireBindings(bs)[k] == WireBinding(bs[k])
  {
    if bs != [] { BindingsOneByOne(bs[1..]); }
  }

  lemma FirstEntry(es: seq<Entry<Name>>, i: nat)
    requires i < |es|
    ensures WireEntries(es[i..]) == [WireEntry(es[i])] + WireEntries(es[i + 1..])
    ensures WireEntries(es[i..])[1..] == WireEntries(es[i + 1..])
  {
    hide WireEntry;
    assert es[i..][0] == es[i] && es[i..][1..] == es[i + 1..];
  }

  lemma FirstBinding(bs: seq<Binding<Name>>, i: nat)
    requires i < |bs|
    ensures WireBindings(bs[i..]) == [WireBinding(bs[i])] + WireBindings(bs[i + 1..])
    ensures WireBindings(bs[i..])[1..] == WireBindings(bs[i + 1..])
  {
    assert bs[i..][0] == bs[i] && bs[i..][1..] == bs[i + 1..];
  }

  // ── Requests ────────────────────────────────────────────────────────────

  datatype CodeOptions = CodeOptions(code: Name, filename: Option<Name>, limits: WireLimits, globals: seq<Globals.Def<Name>>)

  function CodeOf(o: CodeOptions): CodeFields
  {
    CodeFields(Encoded(o.code), WireName(o.filename), RawOf(o.limits), Globals.WireDefs(o.globals))
  }

  function RunOf(runId: u32, o: CodeOptions, imports: seq<Binding<Name>>, call: Option<CallPayload>): Run
  {
    Run(runId, CodeOf(o), WireBindings(imports), WireOptionalCall(call))
  }

  function PrecompileOf(requestId: u32, o: CodeOptions, imports: seq<Binding<Name>>): Precompile
  {
    Precompile(requestId, CodeOf(o), WireBindings(imports))
  }

  datatype PrefixRunOptions = PrefixRunOptions(
    prefixId: Name, limits: WireLimits, globals: seq<Globals.Def<Name>>, importRebinds: seq<Location<Name>>, call: CallPayload)

  function PrefixRunOf(runId: u32, o: PrefixRunOptions): PrefixRun
  {
    PrefixRun(runId, Encoded(o.prefixId), RawOf(o.limits), Globals.WireDefs(o.globals), WirePlaces(o.importRebinds), WireCall(o.call))
  }

  /** The payload is the wire form of the request; encoding throws only for a request that has none. */
  method EncodeRunPayload(runId: u32, o: CodeOptions, imports: seq<Binding<Name>>, call: Option<CallPayload>)
    returns (r: Result<seq<byte>, OutOfRange>)
    ensures r.Err? ==> !WfRun(RunOf(runId, o, imports, call))
    ensures r.Ok? ==> r.value == PutRun(RunOf(runId, o, imports, call))
  {
    hide PutU32, PutLength, PutStr, WfStr, PutOpt, PutLimits, RawOf, PutList, WfList, WfCall, Encoded, ValidUtf8, WireBindings, Globals.WireDefs, WireCall;
    var w := new PayloadWriter();
    var id := w.WriteU32(runId);
    EncodedOk(o.code);
    var _ :- w.WriteString(o.code);
    var _ :- w.WriteOptionalString(o.filename);
    w.WriteResourceLimits(o.limits);
    var _ :- w.WriteGlobalDefs(o.globals);
    var _ :- w.WriteImports(imports);
    var _ :- w.WriteOptionalCall(call);
    ghost var p := PutRun(RunOf(runId, o, imports, call));
    assert w.Bytes() + [] == [] + p;
    assert w.Bytes() + [] == w.Bytes() && [] + p == p;
    var b := w.ToBuffer();
    r := Ok(b);
  }

  method EncodePrecompilePayload(requestId: u32, o: CodeOptions, imports: seq<Binding<Name>>) returns (r: Result<seq<byte>, OutOfRange>)
    ensures r.Err? ==> !WfPrecompile(PrecompileOf(requestId, o, imports))
    ensures r.Ok? ==> r.value == PutPrecompile(PrecompileOf(requestId, o, imports))
  {
    hide PutU32, PutLength, PutStr, WfStr, PutOpt, PutLimits, RawOf, PutList, WfList, Encoded, ValidUtf8, WireBindings, Globals.WireDefs;
    var w := new PayloadWriter();
    var id := w.WriteU32(requestId);
    EncodedOk(o.code);
    var _ :- w.WriteString(o.code);
    var _ :- w.WriteOptionalString(o.filename);
    w.WriteResourceLimits(o.limits);
    var _ :- w.WriteGlobalDefs(o.globals);
    var _ :- w.WriteImports(imports);
    ghost var p := PutPrecompile(PrecompileOf(requestId, o, imports));
    assert w.Bytes() + [] == [] + p;
    assert w.Bytes() + [] == w.Bytes() && [] + p == p;
    var b := w.ToBuffer();
    r := Ok(b);
  }

  method EncodePrefixRunPayload(runId: u32, o: PrefixRunOptions) returns (r: Result<seq<byte>, OutOfRange>)
    ensures r.Err? ==> !WfPrefixRun(PrefixRunOf(runId, o))
    ensures r.Ok? ==> r.value == PutPrefixRun(PrefixRunOf(runId, o))
  {
    hide PutU32, PutLength, PutStr, WfStr, PutLimits, RawOf, PutList, WfList, PutCall, WfCall, Encoded, ValidUtf8, WirePlaces, Globals.WireDefs, WireCall;
    var w := new PayloadWriter();
    var id := w.WriteU32(runId);
    EncodedOk(o.prefixId);
    var _ :- w.WriteString(o.prefixId);
    w.WriteResourceLimits(o.limits);
    var _ :- w.WriteGlobalDefs(o.globals);
    var _ :- w.WriteImportRebinds(o.importRebinds);
    var _ :- w.WriteCall(o.call);
    ghost var p := PutPrefixRun(PrefixRunOf(runId, o));
    assert w.Bytes() + [] == [] + p;
    assert w.Bytes() + [] == w.Bytes() && [] + p == p;
    var b := w.ToBuffer();
    r := Ok(b);
  }

  lemma EncodedOk(n: Name)
    ensures WfStr(Encoded(n)) <==> IsU32(|Encoded(n)|)
  {
    hide Encoded, ValidUtf8;
    EncodedIsFaithful(n, n);
    ValidIsWellFormed(Encoded(n));
  }

  // ── Limits, by name ─────────────────────────────────────────────────────

  /** The limit given, or without one the default. */
  predicate Chosen(given: Option<u32>, default: u32, n: u32)
  {
    n == if given.Some? then given.value else default
  }

  /** What a request runs under, limit by limit, from what its client named. */
  predicate ByName(w: WireLimits, l: ResourceLimits)
  {
    && Chosen(w.cpuTimeMs, 5_000, l.cpuTimeMs)
    && Chosen(w.wallTimeMs, 30_000, l.wallTimeMs)
    && Chosen(w.maxExportBytes, 16_777_216, l.maxExportBytes)
    && Chosen(w.maxStdoutBytes, 1_048_576, l.maxStdoutBytes)
    && Chosen(w.maxStderrBytes, 1_048_576, l.maxStderrBytes)
    && Chosen(w.maxBridgeCallBytes, 16_777_216, l.maxBridgeCallBytes)
    && Chosen(w.maxBridgeCalls, 10, l.maxBridgeCalls)
    && Chosen(w.graceMs, 30_000, l.graceMs)
  }

  lemma LimitsByName(w: WireLimits, band: BandPolicy)
    ensures ByName(w, Resolved(RawOf(w), band))
  {
    hide HeapBandMb, ResolveHeapLines;
  }

  /** The wire's order of the limits. */
  lemma LimitsOrder(w: WireLimits, rest: seq<byte>)
    ensures var tail := PutOptU32(w.maxBridgeCallBytes, PutOptU32(w.maxBridgeCalls, PutOptU32(w.graceMs, PutOptU32(w.hardMemoryMb, rest))));
            PutLimits(RawOf(w), rest) ==
              PutOptU32(w.memoryMb, PutOptU32(w.cpuTimeMs, PutOptU32(w.wallTimeMs, PutOptU32(w.maxExportBytes,
                PutOptU32(w.maxStdoutBytes, PutOptU32(w.maxStderrBytes, tail))))))
  {
    hide PutOptU32;
    var raw := RawOf(w);
    assert raw[0..] == raw && raw[10..] == [];
    Field(raw, 0, rest);
    Field(raw, 1, rest);
    Field(raw, 2, rest);
    Field(raw, 3, rest);
    Field(raw, 4, rest);
    Field(raw, 5, rest);
    Field(raw, 6, rest);
    Field(raw, 7, rest);
    Field(raw, 8, rest);
    Field(raw, 9, rest);
  }

  lemma Field(raw: RawLimits, k: nat, rest: seq<byte>)
    requires k < |raw|
    ensures PutMany(PutOptU32, raw[k..], rest) == PutOptU32(raw[k], PutMany(PutOptU32, raw[k + 1..], rest))
  {
    assert raw[k..][0] == raw[k] && raw[k..][1..] == raw[k + 1..];
    ManyStep(PutOptU32, raw[k..], rest);
  }

  /**
   * The heap lines, from the cap and the override the client named: an override terminates;
   * without one a one-off terminates at the cap and a managed run a band above it; and only
   * a managed run whose cap lies below its hard line is retired at the cap first.
   */
  lemma HeapLinesByName(w: WireLimits, band: BandPolicy)
    ensures var l := Resolved(RawOf(w), band);
            var cap := if w.memoryMb.Some? then w.memoryMb.value else 128;
            && (w.hardMemoryMb.Some? ==> l.hardMemoryMb == w.hardMemoryMb.value && l.softMemoryMb == if band.Managed? && cap < w.hardMemoryMb.value then cap else 0)
            && (w.hardMemoryMb.None? && band.Strict? ==> l.hardMemoryMb == cap && l.softMemoryMb == 0)
            && (w.hardMemoryMb.None? && band.Managed? ==>
                  && l.softMemoryMb == cap
                  && l.hardMemoryMb == if cap + HeapBandMb(cap) < 0x1_0000_0000 then cap + HeapBandMb(cap) else 0xFFFF_FFFF)
  {
    hide HeapBandMb;
  }

  /** A prefix run is read back with the limits its client named. */
  lemma PrefixRunLimitsArrive(runId: u32, o: PrefixRunOptions)
    requires WfPrefixRun(PrefixRunOf(runId, o))
    ensures var p := ParsePrefixRun(PutPrefixRun(PrefixRunOf(runId, o)));
            p.Ok? && |p.value.limits| == LIMIT_FIELDS && ByName(o.limits, Resolved(p.value.limits, Managed))
  {
    hide WfPrefixRun, PutPrefixRun, ParsePrefixRun, Resolved, ByName;
    PrefixRunExact(PutPrefixRun(PrefixRunOf(runId, o)), PrefixRunOf(runId, o));
    LimitsByName(o.limits, Managed);
  }

  lemma RunLimitsArrive(runId: u32, o: CodeOptions, imports: seq<Binding<Name>>, call: Option<CallPayload>)
    requires WfRun(RunOf(runId, o, imports, call))
    ensures var p := ParseRun(PutRun(RunOf(runId, o, imports, call)));
            p.Ok? && |p.value.fields.limits| == LIMIT_FIELDS && ByName(o.limits, Resolved(p.value.fields.limits, Strict))
  {
    hide WfRun, PutRun, ParseRun, Resolved, ByName;
    RunExact(PutRun(RunOf(runId, o, imports, call)), RunOf(runId, o, imports, call));
    LimitsByName(o.limits, Strict);
  }
}
