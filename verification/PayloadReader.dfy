// The cursor over one payload: every read advances it past exactly what the format's parser
// takes, and fails where and how the parser does.

module PayloadReading {
  import opened Wrappers
  import opened Bytes
  import opened Utf8
  import opened ImportShapes
  import opened RuntimeCheck
  import opened PayloadFormat
  import opened RequestFormat
  import opened HeapLines
  import Globals

  // ── Resolved limits ─────────────────────────────────────────────────────

  const DEFAULT_MEMORY_MB: u32 := 128
  const DEFAULT_CPU_TIME_MS: u32 := 5_000
  const DEFAULT_WALL_TIME_MS: u32 := 30_000
  const DEFAULT_MAX_EXPORT_BYTES: u32 := 16 * 1024 * 1024
  const DEFAULT_MAX_STDOUT_BYTES: u32 := 1024 * 1024
  const DEFAULT_MAX_STDERR_BYTES: u32 := 1024 * 1024
  const DEFAULT_MAX_BRIDGE_CALL_BYTES: u32 := 16 * 1024 * 1024
  const DEFAULT_MAX_BRIDGE_CALLS: u32 := 10
  const DEFAULT_GRACE_MS: u32 := 30_000

  datatype ResourceLimits = ResourceLimits(
    softMemoryMb: u32, hardMemoryMb: u32, cpuTimeMs: u32, wallTimeMs: u32, maxExportBytes: u32, maxStdoutBytes: u32,
    maxStderrBytes: u32, maxBridgeCallBytes: u32, maxBridgeCalls: u32, graceMs: u32)

  function Or(n: Option<u32>, default: u32): u32
  {
    if n.Some? then n.value else default
  }

  /** What the ten fields mean; the hard override comes last on the wire. */
  function Resolved(raw: RawLimits, band: BandPolicy): ResourceLimits
    requires |raw| == LIMIT_FIELDS
  {
    var (soft, hard) := ResolveHeapLines(Or(raw[0], DEFAULT_MEMORY_MB), raw[9], band);
    ResourceLimits(
      soft, hard, Or(raw[1], DEFAULT_CPU_TIME_MS), Or(raw[2], DEFAULT_WALL_TIME_MS), Or(raw[3], DEFAULT_MAX_EXPORT_BYTES),
      Or(raw[4], DEFAULT_MAX_STDOUT_BYTES), Or(raw[5], DEFAULT_MAX_STDERR_BYTES), Or(raw[6], DEFAULT_MAX_BRIDGE_CALL_BYTES),
      Or(raw[7], DEFAULT_MAX_BRIDGE_CALLS), Or(raw[8], DEFAULT_GRACE_MS))
  }

  /** An explicit zero disables its limit, whatever the defaults: it is kept. */
  lemma ZeroIsKept(raw: RawLimits, band: BandPolicy)
    requires |raw| == LIMIT_FIELDS && forall k :: 0 <= k < LIMIT_FIELDS ==> raw[k] == Some(0)
    ensures Resolved(raw, band) == ResourceLimits(0, 0, 0, 0, 0, 0, 0, 0, 0, 0)
  {
  }

  /** The outcome of a read against the parser: its value and what is left, or its error. */
  ghost predicate Outcome<T>(p: Parsed<T>, r: Result<T, Kind>, rest: seq<byte>)
  {
    match p case Got(x, rest') => r == Ok(x) && rest == rest' case Bad(k) => r == Err(k)
  }

  /** `all` is what was read, then whatever the rest comes to. */
  ghost predicate Onward<T>(all: Parsed<seq<T>>, done: seq<T>, rest: Parsed<seq<T>>)
  {
    match rest case Bad(k) => all == Bad(k) case Got(xs, end) => all == Got(done + xs, end)
  }

  lemma OnwardStart<T>(all: Parsed<seq<T>>)
    ensures Onward(all, [], all)
  {
    if all.Got? { assert [] + all.value == all.value; }
  }

  lemma OnwardStep<T>(all: Parsed<seq<T>>, done: seq<T>, parse: seq<byte> -> Parsed<T>, n: nat, d: seq<byte>)
    requires n > 0 && Onward(all, done, ParseMany(parse, n, d))
    ensures match parse(d)
            case Bad(k) => all == Bad(k)
            case Got(x, rest) => Onward(all, done + [x], ParseMany(parse, n - 1, rest))
  {
    if parse(d).Got? && ParseMany(parse, n - 1, parse(d).rest).Got? {
      var x, xs := parse(d).value, ParseMany(parse, n - 1, parse(d).rest).value;
      assert done + ([x] + xs) == (done + [x]) + xs;
    }
  }

  lemma OnwardEnd<T>(all: Parsed<seq<T>>, done: seq<T>, parse: seq<byte> -> Parsed<T>, d: seq<byte>)
    requires Onward(all, done, ParseMany(parse, 0, d))
    ensures all == Got(done, d)
  {
    assert done + [] == done;
  }

  lemma EntriesStep(all: Parsed<seq<Entry<Str>>>, done: seq<Entry<Str>>, n: nat, d: seq<byte>, depth: nat)
    requires n > 0 && Onward(all, done, ParseEntries(d, n, depth))
    ensures match ParseStr(d)
            case Bad(k) => all == Bad(k)
            case Got(key, d1) =>
              match ParseNode(d1, depth)
              case Bad(k) => all == Bad(k)
              case Got(node, d2) => Onward(all, done + [Entry(key, node)], ParseEntries(d2, n - 1, depth))
  {
    hide ParseStr, ParseNode;
    Shorter(d);
    if ParseStr(d).Got? && ParseNode(ParseStr(d).rest, depth).Got? {
      var e := Entry(ParseStr(d).value, ParseNode(ParseStr(d).rest, depth).value);
      var more := ParseEntries(ParseNode(ParseStr(d).rest, depth).rest, n - 1, depth);
      if more.Got? { assert done + ([e] + more.value) == (done + [e]) + more.value; }
    }
  }

  lemma EntriesEnd(all: Parsed<seq<Entry<Str>>>, done: seq<Entry<Str>>, d: seq<byte>, depth: nat)
    requires Onward(all, done, ParseEntries(d, 0, depth))
    ensures all == Got(done, d)
  {
    assert done + [] == done;
  }

  class PayloadReader {
    const data: seq<byte>
    var offset: nat

    ghost predicate Valid()
      reads this
    {
      offset <= |data|
    }

    /** What has not been read yet. */
    function Rest(): seq<byte>
      reads this
      requires offset <= |data|
    {
      data[offset..]
    }

    constructor (data: seq<byte>)
      ensures Valid() && Rest() == data
    {
      this.data := data;
      offset := 0;
    }

    function Remaining(): nat
      reads this
      requires offset <= |data|
    {
      |data| - offset
    }

    method ReadU8() returns (r: Result<byte, Kind>)
      requires Valid()
      modifies this
      ensures Valid() && Outcome(ParseU8(old(Rest())), r, Rest())
    {
      if Remaining() < 1 { return Err(Eof); }
      var b := data[offset];
      offset := offset + 1;
      r := Ok(b);
    }

    method ReadU32() returns (r: Result<u32, Kind>)
      requires Valid()
      modifies this
      ensures Valid() && Outcome(ParseU32(old(Rest())), r, Rest())
    {
      if Remaining() < 4 { return Err(Eof); }
      var n := FromBE32(data[offset..offset + 4]);
      assert Rest()[..4] == data[offset..offset + 4];
      offset := offset + 4;
      r := Ok(n);
    }

    method ReadBool() returns (r: Result<bool, Kind>)
      requires Valid()
      modifies this
      ensures Valid() && Outcome(ParseBool(old(Rest())), r, Rest())
    {
      var b :- ReadU8();
      if b == 0 { return Ok(false); }
      if b == 1 { return Ok(true); }
      r := Err(Invalid);
    }

    method ReadBytes(len: nat) returns (r: Result<seq<byte>, Kind>)
      requires Valid()
      modifies this
      ensures Valid()
      ensures var d := old(Rest());
              if |d| < len then r == Err(Eof) else r == Ok(d[..len]) && Rest() == d[len..]
    {
      if Remaining() < len { return Err(Eof); }
      var out := data[offset..offset + len];
      assert Rest()[..len] == out && Rest()[len..] == data[offset + len..];
      offset := offset + len;
      r := Ok(out);
    }

    method ReadString() returns (r: Result<Str, Kind>)
      requires Valid()
      modifies this
      ensures Valid() && Outcome(ParseStr(old(Rest())), r, Rest())
    {
      hide ParseU32;
      var len :- ReadU32();
      if Remaining() < len { return Err(Eof); }
      var bytes := data[offset..offset + len];
      assert Rest()[..len] == bytes && Rest()[len..] == data[offset + len..];
      if !ValidUtf8(bytes) { return Err(Invalid); }
      offset := offset + len;
      r := Ok(bytes);
    }

    method ReadValueBlob() returns (r: Result<seq<byte>, Kind>)
      requires Valid()
      modifies this
      ensures Valid() && Outcome(ParseBlob(old(Rest())), r, Rest())
    {
      hide ParseU32;
      var len :- ReadU32();
      r := ReadBytes(len);
    }

    /** The count of a list, checked against the bytes that remain. */
    method ReadCount() returns (r: Result<nat, Kind>)
      requires Valid()
      modifies this
      ensures Valid()
      ensures match ParseU32(old(Rest()))
              case Bad(k) => r == Err(k)
              case Got(n, rest) => if n > |rest| then r == Err(Invalid) else r == Ok(n) && Rest() == rest
    {
      var count :- ReadU32();
      if count > Remaining() { return Err(Invalid); }
      r := Ok(count);
    }

    method ReadOptionalString() returns (r: Result<Option<Str>, Kind>)
      requires Valid()
      modifies this
      ensures Valid() && Outcome(ParseOpt(ParseStr, old(Rest())), r, Rest())
    {
      hide ParseStr;
      var b :- ReadU8();
      if b == 0 { return Ok(None); }
      if b != 1 { return Err(Invalid); }
      var s :- ReadString();
      r := Ok(Some(s));
    }

    method ReadOptionalU32() returns (r: Result<Option<u32>, Kind>)
      requires Valid()
      modifies this
      ensures Valid() && Outcome(ParseOptU32(old(Rest())), r, Rest())
    {
      hide ParseU32;
      var b :- ReadU8();
      if b == 0 { return Ok(None); }
      if b != 1 { return Err(Invalid); }
      var n :- ReadU32();
      r := Ok(Some(n));
    }

    /** One limit field: what was sent is noted, what it means is returned. */
    method ReadLimit(ghost all: Parsed<RawLimits>, ghost done: RawLimits, default: u32)
      returns (r: Result<u32, Kind>, ghost sent: RawLimits)
      requires Valid() && |done| < LIMIT_FIELDS
      requires Onward(all, done, ParseMany(ParseOptU32, LIMIT_FIELDS - |done|, Rest()))
      modifies this
      ensures Valid()
      ensures r.Err? ==> all == Bad(r.error)
      ensures r.Ok? ==>
                && |sent| == |done| + 1 && sent[..|done|] == done && r.value == Or(sent[|done|], default)
                && Onward(all, sent, ParseMany(ParseOptU32, LIMIT_FIELDS - |sent|, Rest()))
    {
      hide ParseOptU32, Onward, ParseMany;
      OnwardStep(all, done, ParseOptU32, LIMIT_FIELDS - |done|, Rest());
      sent := done;
      var field := ReadOptionalU32();
      if field.Err? { return Err(field.error), sent; }
      sent := done + [field.value];
      r := Ok(Or(field.value, default));
    }

    method ReadResourceLimits(band: BandPolicy) returns (r: Result<ResourceLimits, Kind>, ghost raw: RawLimits)
      requires Valid()
      modifies this
      ensures Valid()
      ensures match ParseLimits(old(Rest()))
              case Bad(k) => r == Err(k)
              case Got(l, rest) => |l| == LIMIT_FIELDS && raw == l && r == Ok(Resolved(l, band)) && Rest() == rest
    {
      hide ParseOptU32, Onward, ParseMany;
      ghost var all := ParseLimits(Rest());
      OnwardStart(all);
      raw := [];
      var cap, a :- ReadLimit(all, [], DEFAULT_MEMORY_MB);
      var cpuTimeMs, b :- ReadLimit(all, a, DEFAULT_CPU_TIME_MS);
      var wallTimeMs, c :- ReadLimit(all, b, DEFAULT_WALL_TIME_MS);
      var maxExportBytes, d :- ReadLimit(all, c, DEFAULT_MAX_EXPORT_BYTES);
      var maxStdoutBytes, e :- ReadLimit(all, d, DEFAULT_MAX_STDOUT_BYTES);
      var maxStderrBytes, f :- ReadLimit(all, e, DEFAULT_MAX_STDERR_BYTES);
      var maxBridgeCallBytes, g :- ReadLimit(all, f, DEFAULT_MAX_BRIDGE_CALL_BYTES);
      var maxBridgeCalls, h :- ReadLimit(all, g, DEFAULT_MAX_BRIDGE_CALLS);
      var graceMs, i :- ReadLimit(all, h, DEFAULT_GRACE_MS);
      OnwardStep(all, i, ParseOptU32, 1, Rest());
      var hardOverride :- ReadOptionalU32();
      raw := i + [hardOverride];
      OnwardEnd(all, raw, ParseOptU32, Rest());
      var (soft, hard) := ResolveHeapLines(cap, hardOverride, band);
      r := Ok(ResourceLimits(soft, hard, cpuTimeMs, wallTimeMs, maxExportBytes, maxStdoutBytes, maxStderrBytes,
                             maxBridgeCallBytes, maxBridgeCalls, graceMs));
      LimitsRead(raw, a, b, c, d, e, f, g, h, i);
    }

    method ReadGlobalDef() returns (r: Result<GlobalDef, Kind>)
      requires Valid()
      modifies this
      ensures Valid() && Outcome(ParseDef(old(Rest())), r, Rest())
    {
      hide ParseStr, ParseBlob, ParseBool;
      var kind :- ReadU8();
      var name :- ReadString();
      var enumerable :- ReadBool();
      if kind == 0 { return Ok(Globals.Bridge(name, enumerable)); }
      if kind == 1 {
        var expr :- ReadString();
        return Ok(Globals.StringExpr(name, expr, enumerable));
      }
      if kind == 2 {
        var blob :- ReadValueBlob();
        return Ok(Globals.Data(name, blob, enumerable));
      }
      if kind == 3 {
        var shim :- ReadString();
        var handlerName :- ReadString();
        return Ok(Globals.Shim(name, shim, handlerName, enumerable));
      }
      r := Err(Invalid);
    }

    method ReadGlobalDefs() returns (r: Result<seq<GlobalDef>, Kind>)
      requires Valid()
      modifies this
      ensures Valid() && Outcome(ParseList(ParseDef, old(Rest())), r, Rest())
    {
      hide ParseDef, ParseU32, ParseMany;
      ghost var all := ParseList(ParseDef, Rest());
      var count :- ReadCount();
      OnwardStart(all);
      var defs: seq<GlobalDef> := [];
      for i := 0 to count
        invariant Valid() && |defs| == i && Onward(all, defs, ParseMany(ParseDef, count - i, Rest()))
      {
        OnwardStep(all, defs, ParseDef, count - i, Rest());
        var def :- ReadGlobalDef();
        defs := defs + [def];
      }
      OnwardEnd(all, defs, ParseDef, Rest());
      r := Ok(defs);
    }

    /** One node of a host module; `depth` is its path length from the top-level export. */
    method ReadHostModuleNode(depth: nat) returns (r: Result<Node<Str>, Kind>)
      requires Valid()
      modifies this
      ensures Valid() && Outcome(ParseNode(old(Rest()), depth), r, Rest())
      decreases if depth > MAX_HOST_MODULE_DEPTH then 0 else MAX_HOST_MODULE_DEPTH + 1 - depth, 0
    {
      hide ParseBlob, ParseU32;
      if depth > MAX_HOST_MODULE_DEPTH { return Err(Invalid); }
      var tag :- ReadU8();
      if tag == 0 { return Ok(Function); }
      if tag == 1 {
        var blob :- ReadValueBlob();
        return Ok(Data(blob));
      }
      if tag == 2 {
        var entries :- ReadEntries(depth + 1);
        return Ok(Object(entries));
      }
      r := Err(Invalid);
    }

    /** A counted list of keyed nodes at this depth. */
    method ReadEntries(depth: nat) returns (r: Result<seq<Entry<Str>>, Kind>)
      requires Valid()
      modifies this
      ensures Valid() && Outcome(ParseNodes(old(Rest()), depth), r, Rest())
      decreases if depth > MAX_HOST_MODULE_DEPTH then 0 else MAX_HOST_MODULE_DEPTH + 1 - depth, 1
    {
      hide ParseStr, ParseNode, ParseU32, ParseEntries;
      ghost var all := ParseNodes(Rest(), depth);
      var count :- ReadCount();
      OnwardStart(all);
      var entries: seq<Entry<Str>> := [];
      for i := 0 to count
        invariant Valid() && |entries| == i && Onward(all, entries, ParseEntries(Rest(), count - i, depth))
      {
        EntriesStep(all, entries, count - i, Rest(), depth);
        var key :- ReadString();
        var node :- ReadHostModuleNode(depth);
        entries := entries + [Entry(key, node)];
      }
      EntriesEnd(all, entries, Rest(), depth);
      r := Ok(entries);
    }

    method ReadImportBinding() returns (r: Result<Binding<Str>, Kind>)
      requires Valid()
      modifies this
      ensures Valid() && Outcome(ParseBinding(old(Rest())), r, Rest())
    {
      hide ParseStr, ParseNodes;
      var specifier :- ReadString();
      var kind :- ReadU8();
      if kind == 0 {
        var text :- ReadString();
        return Ok(Binding(specifier, Source(text)));
      }
      if kind == 1 {
        var exports :- ReadEntries(1);
        return Ok(Binding(specifier, Host(exports)));
      }
      r := Err(Invalid);
    }

    method ReadImportBindings() returns (r: Result<seq<Binding<Str>>, Kind>)
      requires Valid()
      modifies this
      ensures Valid() && Outcome(ParseList(ParseBinding, old(Rest())), r, Rest())
    {
      hide ParseBinding, ParseU32, ParseMany;
      ghost var all := ParseList(ParseBinding, Rest());
      var count :- ReadCount();
      OnwardStart(all);
      var imports: seq<Binding<Str>> := [];
      for i := 0 to count
        invariant Valid() && |imports| == i && Onward(all, imports, ParseMany(ParseBinding, count - i, Rest()))
      {
        OnwardStep(all, imports, ParseBinding, count - i, Rest());
        var b :- ReadImportBinding();
        imports := imports + [b];
      }
      OnwardEnd(all, imports, ParseBinding, Rest());
      r := Ok(imports);
    }

    method ReadImportRebind() returns (r: Result<Location<Str>, Kind>)
      requires Valid()
      modifies this
      ensures Valid() && Outcome(ParseRebind(old(Rest())), r, Rest())
    {
      hide ParseStr, ParseU32, ParseMany;
      var specifier :- ReadString();
      ghost var all := ParseList(ParseStr, Rest());
      var segments :- ReadCount();
      OnwardStart(all);
      var path: seq<Str> := [];
      for i := 0 to segments
        invariant Valid() && |path| == i && Onward(all, path, ParseMany(ParseStr, segments - i, Rest()))
      {
        OnwardStep(all, path, ParseStr, segments - i, Rest());
        var segment :- ReadString();
        path := path + [segment];
      }
      OnwardEnd(all, path, ParseStr, Rest());
      r := Ok(Location(specifier, path));
    }

    method ReadImportRebinds() returns (r: Result<seq<Location<Str>>, Kind>)
      requires Valid()
      modifies this
      ensures Valid() && Outcome(ParseList(ParseRebind, old(Rest())), r, Rest())
    {
      hide ParseRebind, ParseU32, ParseMany;
      ghost var all := ParseList(ParseRebind, Rest());
      var count :- ReadCount();
      OnwardStart(all);
      var rebinds: seq<Location<Str>> := [];
      for i := 0 to count
        invariant Valid() && |rebinds| == i && Onward(all, rebinds, ParseMany(ParseRebind, count - i, Rest()))
      {
        OnwardStep(all, rebinds, ParseRebind, count - i, Rest());
        var l :- ReadImportRebind();
        rebinds := rebinds + [l];
      }
      OnwardEnd(all, rebinds, ParseRebind, Rest());
      r := Ok(rebinds);
    }

    method ReadCall() returns (r: Result<CallSpec, Kind>)
      requires Valid()
      modifies this
      ensures Valid() && Outcome(ParseCall(old(Rest())), r, Rest())
    {
      hide ParseStr, ParseBlob;
      var exportPath :- ReadString();
      var argsBlob :- ReadValueBlob();
      r := Ok(CallSpec(exportPath, argsBlob));
    }

    method ReadOptionalCall() returns (r: Result<Option<CallSpec>, Kind>)
      requires Valid()
      modifies this
      ensures Valid() && Outcome(ParseOpt(ParseCall, old(Rest())), r, Rest())
    {
      hide ParseCall;
      var b :- ReadU8();
      if b == 0 { return Ok(None); }
      if b != 1 { return Err(Invalid); }
      var call :- ReadCall();
      r := Ok(Some(call));
    }

    method AssertDone() returns (r: Result<(), Kind>)
      requires Valid()
      ensures r == if Rest() == [] then Ok(()) else Err(Invalid)
    {
      r := if Remaining() != 0 then Err(Invalid) else Ok(());
    }

    method ReadCodeFields(band: BandPolicy) returns (r: Result<Code, Kind>, ghost raw: RawLimits)
      requires Valid()
      modifies this
      ensures Valid()
      ensures match ParseCodeFields(old(Rest()))
              case Bad(k) => r == Err(k)
              case Got(c, rest) => raw == c.limits && CodeRead(c, r, band) && Rest() == rest
    {
      hide ParseStr, ParseOpt, ParseLimits, ParseList, Resolved;
      raw := [];
      var code :- ReadString();
      var filename :- ReadOptionalString();
      var limits, sent :- ReadResourceLimits(band);
      raw := sent;
      var globals :- ReadGlobalDefs();
      r := Ok(Code(code, filename, limits, globals));
    }
  }

  lemma LimitsRead(raw: RawLimits, a: RawLimits, b: RawLimits, c: RawLimits, d: RawLimits, e: RawLimits, f: RawLimits,
                   g: RawLimits, h: RawLimits, i: RawLimits)
    requires |raw| == 10 && |a| == 1 && |b| == 2 && |c| == 3 && |d| == 4 && |e| == 5 && |f| == 6 && |g| == 7 && |h| == 8 && |i| == 9
    requires raw[..9] == i && i[..8] == h && h[..7] == g && g[..6] == f && f[..5] == e && e[..4] == d && d[..3] == c && c[..2] == b && b[..1] == a
    ensures a[0] == raw[0] && b[1] == raw[1] && c[2] == raw[2] && d[3] == raw[3] && e[4] == raw[4] && f[5] == raw[5]
         && g[6] == raw[6] && h[7] == raw[7] && i[8] == raw[8]
  {
    assert h == raw[..8];
    assert g == raw[..7];
    assert f == raw[..6];
    assert e == raw[..5];
    assert d == raw[..4];
    assert c == raw[..3];
    assert b == raw[..2];
    assert a == raw[..1];
  }

  datatype Code = Code(code: Str, filename: Option<Str>, limits: ResourceLimits, globals: seq<GlobalDef>)

  ghost predicate CodeRead(c: CodeFields, r: Result<Code, Kind>, band: BandPolicy)
  {
    |c.limits| == LIMIT_FIELDS && r == Ok(Code(c.code, c.filename, Resolved(c.limits, band), c.globals))
  }

  // ── Requests ────────────────────────────────────────────────────────────

  datatype RunRequest = RunRequest(runId: u32, code: Code, imports: seq<Binding<Str>>, call: Option<CallSpec>)

  datatype PrecompilePayload = PrecompilePayload(
    requestId: u32, code: Str, filename: Option<Str>, globals: seq<GlobalDef>, imports: seq<Binding<Str>>)

  datatype PrefixRunRequest = PrefixRunRequest(
    runId: u32, prefixId: Str, limits: ResourceLimits, globals: seq<GlobalDef>, rebinds: seq<Location<Str>>, call: CallSpec)

  /** The one request a Run payload is the form of, with its limits resolved for a one-off. */
  method ParseRunPayload(payload: seq<byte>) returns (r: Result<RunRequest, Kind>)
    ensures match ParseRun(payload)
            case Err(k) => r == Err(k)
            case Ok(raw) =>
              && r.Ok? && CodeRead(raw.fields, Ok(r.value.code), Strict)
              && r.value == RunRequest(raw.runId, r.value.code, raw.imports, raw.call)
  {
    hide ParseU32, ParseCodeFields, ParseList, ParseOpt, Resolved;
    var reader := new PayloadReader(payload);
    var runId :- reader.ReadU32();
    var code, sent :- reader.ReadCodeFields(Strict);
    var imports :- reader.ReadImportBindings();
    var call :- reader.ReadOptionalCall();
    var _ :- reader.AssertDone();
    r := Ok(RunRequest(runId, code, imports, call));
  }

  /** A Precompile's limits are read and checked like any, and not kept. */
  method ParsePrecompilePayload(payload: seq<byte>) returns (r: Result<PrecompilePayload, Kind>)
    ensures match ParsePrecompile(payload)
            case Err(k) => r == Err(k)
            case Ok(raw) =>
              r == Ok(PrecompilePayload(raw.requestId, raw.fields.code, raw.fields.filename, raw.fields.globals, raw.imports))
  {
    hide ParseU32, ParseCodeFields, ParseList;
    var reader := new PayloadReader(payload);
    var requestId :- reader.ReadU32();
    var code, sent :- reader.ReadCodeFields(Managed);
    var imports :- reader.ReadImportBindings();
    var _ :- reader.AssertDone();
    r := Ok(PrecompilePayload(requestId, code.code, code.filename, code.globals, imports));
  }

  method ParsePrefixRunPayload(payload: seq<byte>) returns (r: Result<PrefixRunRequest, Kind>)
    ensures match ParsePrefixRun(payload)
            case Err(k) => r == Err(k)
            case Ok(raw) =>
              && |raw.limits| == LIMIT_FIELDS
              && r == Ok(PrefixRunRequest(raw.runId, raw.prefixId, Resolved(raw.limits, Managed), raw.globals, raw.rebinds, raw.call))
  {
    hide ParseU32, ParseStr, ParseLimits, ParseList, ParseCall, Resolved;
    var reader := new PayloadReader(payload);
    var runId :- reader.ReadU32();
    var prefixId :- reader.ReadString();
    var limits, sent :- reader.ReadResourceLimits(Managed);
    var globals :- reader.ReadGlobalDefs();
    var rebinds :- reader.ReadImportRebinds();
    var call :- reader.ReadCall();
    var _ :- reader.AssertDone();
    r := Ok(PrefixRunRequest(runId, prefixId, limits, globals, rebinds, call));
  }
}
