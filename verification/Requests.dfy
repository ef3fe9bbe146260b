// Whole requests: Run, Precompile and PrefixRun payloads parse exactly as they are written.

module RequestFormat {
  import opened Wrappers
  import opened Bytes
  import opened Utf8
  import opened ImportShapes
  import opened RuntimeCheck
  import opened PayloadFormat

  // ── Import bindings ─────────────────────────────────────────────────────

  function ParseBinding(d: seq<byte>): Parsed<Binding<Str>>
  {
    match ParseStr(d)
    case Bad(k) => Bad(k)
    case Got(specifier, d1) =>
      match ParseU8(d1)
      case Bad(k) => Bad(k)
      case Got(kind, d2) => ParseBody(specifier, kind, d2)
  }

  function ParseBody(specifier: Str, kind: byte, d: seq<byte>): Parsed<Binding<Str>>
  {
    if kind == 0 then
      match ParseStr(d) case Bad(k) => Bad(k) case Got(text, rest) => Got(Binding(specifier, Source(text)), rest)
    else if kind == 1 then
      match ParseNodes(d, 1) case Bad(k) => Bad(k) case Got(es, rest) => Got(Binding(specifier, Host(es)), rest)
    else Bad(Invalid)
  }

  function PutBinding(b: Binding<Str>, rest: seq<byte>): seq<byte>
  {
    PutStr(b.specifier, match b.body case Source(text) => [0] + PutStr(text, rest) case Host(es) => [1] + PutNodes(es, rest))
  }

  /** Every text is UTF-8, every length a `u32`, and no node's path is longer than the limit. */
  predicate WfBinding(b: Binding<Str>)
  {
    && WfStr(b.specifier)
    && match b.body
       case Source(text) => WfStr(text)
       case Host(es) => IsU32(|es|) && WfEntries(es) && BelowAll(es) <= MAX_HOST_MODULE_DEPTH
  }

  /** A well-formed host module is accepted exactly when no node's path is longer than 64. */
  lemma ModuleAccepted(es: seq<Entry<Str>>, rest: seq<byte>)
    requires IsU32(|es|) && WfEntries(es)
    ensures ParseNodes(PutNodes(es, rest), 1) == if BelowAll(es) <= MAX_HOST_MODULE_DEPTH then Got(es, rest) else Bad(Invalid)
  {
    hide ParseU32, PutLength, ParseEntries, PutEntries, WfEntries;
    LengthReads(|es|, PutEntries(es, rest));
    EntriesReads(es, 1, rest);
  }

  /** A path the runtime can resolve is never longer than the tree is deep. */
  lemma {:induction false} FoundWithin(es: seq<Entry<Str>>, path: seq<Str>)
    requires Find(es, path).Ok?
    ensures |path| <= BelowAll(es)
    decreases |path|
  {
    var n := Lookup(es, path[0]).value;
    LookupBelow(es, path[0]);
    if |path| > 1 { FoundWithin(n.entries, path[1..]); }
  }

  lemma {:induction false} LookupBelow(es: seq<Entry<Str>>, key: Str)
    requires Lookup(es, key).Some?
    ensures 1 + Below(Lookup(es, key).value) <= BelowAll(es)
  {
    if es[0].key != key { LookupBelow(es[1..], key); }
  }

  lemma BindingReads(b: Binding<Str>, rest: seq<byte>)
    requires WfBinding(b)
    ensures ParseBinding(PutBinding(b, rest)) == Got(b, rest)
  {
    hide ParseStr, PutStr, WfStr, ParseNodes, PutNodes, WfEntries;
    match b.body
    case Source(text) =>
      StrReads(b.specifier, [0] + PutStr(text, rest));
      assert ([0] + PutStr(text, rest))[1..] == PutStr(text, rest);
      StrReads(text, rest);
    case Host(es) =>
      StrReads(b.specifier, [1] + PutNodes(es, rest));
      assert ([1] + PutNodes(es, rest))[1..] == PutNodes(es, rest);
      ModuleAccepted(es, rest);
  }

  lemma BindingWrites(d: seq<byte>)
    ensures ParseBinding(d).Got? ==> WfBinding(ParseBinding(d).value) && d == PutBinding(ParseBinding(d).value, ParseBinding(d).rest)
  {
    hide ParseStr, PutStr, WfStr, ParseNodes, PutNodes, WfEntries, BelowAll;
    if ParseBinding(d).Got? {
      StrWrites(d);
      var d1 := ParseStr(d).rest;
      assert d1 == [d1[0]] + d1[1..];
      StrWrites(d1[1..]);
      NodesWrites(d1[1..], 1);
    }
  }

  lemma BindingExact()
    ensures Exact(ParseBinding, PutBinding, WfBinding)
  {
    hide ParseBinding, WfBinding;
    forall b, rest | WfBinding(b) ensures ParseBinding(PutBinding(b, rest)) == Got(b, rest) { BindingReads(b, rest); }
    forall d ensures ParseBinding(d).Got? ==> WfBinding(ParseBinding(d).value) && d == PutBinding(ParseBinding(d).value, ParseBinding(d).rest) {
      BindingWrites(d);
    }
    forall b, rest ensures |PutBinding(b, rest)| > |rest| { BindingLonger(b, rest); }
  }

  lemma BindingLonger(b: Binding<Str>, rest: seq<byte>)
    ensures |PutBinding(b, rest)| > |rest|
  {
    hide PutEntries;
    if b.body.Host? { EntriesLonger(b.body.exports, rest); }
  }

  // ── Rebinds and calls ───────────────────────────────────────────────────

  function ParseRebind(d: seq<byte>): Parsed<Location<Str>>
  {
    match ParseStr(d)
    case Bad(k) => Bad(k)
    case Got(specifier, d1) =>
      match ParseList(ParseStr, d1) case Bad(k) => Bad(k) case Got(path, rest) => Got(Location(specifier, path), rest)
  }

  function PutRebind(l: Location<Str>, rest: seq<byte>): seq<byte>
  {
    PutStr(l.specifier, PutList(PutStr, l.path, rest))
  }

  predicate WfRebind(l: Location<Str>)
  {
    WfStr(l.specifier) && WfList(WfStr, l.path)
  }

  lemma RebindExact()
    ensures Exact(ParseRebind, PutRebind, WfRebind)
  {
    hide ParseStr, PutStr, WfStr, ParseList, PutList, WfList;
    StrExact();
    forall l, rest | WfRebind(l) ensures ParseRebind(PutRebind(l, rest)) == Got(l, rest) {
      StrReads(l.specifier, PutList(PutStr, l.path, rest));
      ListReads(ParseStr, PutStr, WfStr, l.path, rest);
    }
    forall d ensures ParseRebind(d).Got? ==> WfRebind(ParseRebind(d).value) && d == PutRebind(ParseRebind(d).value, ParseRebind(d).rest) {
      StrWrites(d);
      if ParseStr(d).Got? { ListWrites(ParseStr, PutStr, WfStr, ParseStr(d).rest); }
    }
    forall l, rest ensures |PutRebind(l, rest)| > |rest| {
      StrLonger(l.specifier, PutList(PutStr, l.path, rest));
      ListLonger(PutStr, l.path, rest);
    }
  }

  lemma {:induction false} ManyLonger<T(!new)>(put: (T, seq<byte>) -> seq<byte>, xs: seq<T>, rest: seq<byte>)
    requires forall x, r :: |put(x, r)| > |r|
    ensures |PutMany(put, xs, rest)| >= |rest|
    decreases |xs|
  {
    if xs != [] { ManyLonger(put, xs[1..], rest); }
  }

  lemma ListLonger<T(!new)>(put: (T, seq<byte>) -> seq<byte>, xs: seq<T>, rest: seq<byte>)
    requires forall x, r :: |put(x, r)| > |r|
    ensures |PutList(put, xs, rest)| > |rest|
  {
    ManyLonger(put, xs, rest);
  }

  datatype CallSpec = CallSpec(exportPath: Str, argsBlob: seq<byte>)

  function ParseCall(d: seq<byte>): Parsed<CallSpec>
  {
    match ParseStr(d)
    case Bad(k) => Bad(k)
    case Got(path, d1) =>
      match ParseBlob(d1) case Bad(k) => Bad(k) case Got(args, rest) => Got(CallSpec(path, args), rest)
  }

  function PutCall(c: CallSpec, rest: seq<byte>): seq<byte>
  {
    PutStr(c.exportPath, PutBlob(c.argsBlob, rest))
  }

  predicate WfCall(c: CallSpec)
  {
    WfStr(c.exportPath) && IsU32(|c.argsBlob|)
  }

  lemma CallExact()
    ensures Exact(ParseCall, PutCall, WfCall)
  {
    hide ParseStr, PutStr, WfStr, ParseBlob, PutBlob;
    forall c, rest | WfCall(c) ensures ParseCall(PutCall(c, rest)) == Got(c, rest) {
      StrReads(c.exportPath, PutBlob(c.argsBlob, rest));
      BlobReads(c.argsBlob, rest);
    }
    forall d ensures ParseCall(d).Got? ==> WfCall(ParseCall(d).value) && d == PutCall(ParseCall(d).value, ParseCall(d).rest) {
      StrWrites(d);
      if ParseStr(d).Got? { BlobWrites(ParseStr(d).rest); }
    }
    forall c, rest ensures |PutCall(c, rest)| > |rest| {
      StrLonger(c.exportPath, PutBlob(c.argsBlob, rest));
      StrLonger(c.argsBlob, rest);
      PutStrIsBlob(c.argsBlob, rest);
    }
  }

  lemma PutStrIsBlob(b: seq<byte>, rest: seq<byte>)
    ensures PutStr(b, rest) == PutBlob(b, rest)
  {
  }

  // ── Limits ──────────────────────────────────────────────────────────────

  const LIMIT_FIELDS := 10

  /** Ten optional words, in wire order. */
  type RawLimits = seq<Option<u32>>

  function ParseOptU32(d: seq<byte>): Parsed<Option<u32>> { ParseOpt(ParseU32, d) }

  function PutOptU32(n: Option<u32>, rest: seq<byte>): seq<byte> { PutOpt(PutU32, n, rest) }

  function ParseLimits(d: seq<byte>): Parsed<RawLimits> { ParseMany(ParseOptU32, LIMIT_FIELDS, d) }

  function PutLimits(l: RawLimits, rest: seq<byte>): seq<byte> { PutMany(PutOptU32, l, rest) }

  lemma OptU32Exact()
    ensures Exact(ParseOptU32, PutOptU32, Any<Option<u32>>)
  {
    hide ParseU32, PutU32;
    U32Exact();
    forall n: Option<u32>, rest ensures ParseOptU32(PutOptU32(n, rest)) == Got(n, rest) {
      OptReads(ParseU32, PutU32, Any<u32>, n, rest);
    }
    forall d ensures ParseOptU32(d).Got? ==> d == PutOptU32(ParseOptU32(d).value, ParseOptU32(d).rest) {
      OptWrites(ParseU32, PutU32, Any<u32>, d);
    }
    forall n: Option<u32>, rest ensures |PutOptU32(n, rest)| > |rest| {
      if n.Some? { U32Longer(n.value, rest); }
    }
  }

  lemma U32Longer(n: u32, rest: seq<byte>)
    ensures |PutU32(n, rest)| == 4 + |rest|
  {
  }

  lemma LimitsReads(l: RawLimits, rest: seq<byte>)
    requires |l| == LIMIT_FIELDS
    ensures ParseLimits(PutLimits(l, rest)) == Got(l, rest)
  {
    hide ParseOptU32, PutOptU32;
    OptU32Exact();
    ManyReads(ParseOptU32, PutOptU32, Any<Option<u32>>, l, rest);
  }

  lemma LimitsWrites(d: seq<byte>)
    ensures ParseLimits(d).Got? ==> |ParseLimits(d).value| == LIMIT_FIELDS && d == PutLimits(ParseLimits(d).value, ParseLimits(d).rest)
  {
    hide ParseOptU32, PutOptU32;
    OptU32Exact();
    ManyWrites(ParseOptU32, PutOptU32, Any<Option<u32>>, LIMIT_FIELDS, d);
  }

  // ── The fields Run and Precompile share ─────────────────────────────────

  datatype CodeFields = CodeFields(code: Str, filename: Option<Str>, limits: RawLimits, globals: seq<GlobalDef>)

  function ParseCodeFields(d: seq<byte>): Parsed<CodeFields>
  {
    match ParseStr(d)
    case Bad(k) => Bad(k)
    case Got(code, d1) =>
      match ParseOpt(ParseStr, d1)
      case Bad(k) => Bad(k)
      case Got(filename, d2) =>
        match ParseLimits(d2)
        case Bad(k) => Bad(k)
        case Got(limits, d3) =>
          match ParseList(ParseDef, d3)
          case Bad(k) => Bad(k)
          case Got(globals, rest) => Got(CodeFields(code, filename, limits, globals), rest)
  }

  function PutCodeFields(c: CodeFields, rest: seq<byte>): seq<byte>
  {
    PutStr(c.code, PutOpt(PutStr, c.filename, PutLimits(c.limits, PutList(PutDef, c.globals, rest))))
  }

  predicate WfCodeFields(c: CodeFields)
  {
    WfStr(c.code) && (c.filename.Some? ==> WfStr(c.filename.value)) && |c.limits| == LIMIT_FIELDS && WfList(WfDef, c.globals)
  }

  lemma CodeFieldsReads(c: CodeFields, rest: seq<byte>)
    requires WfCodeFields(c)
    ensures ParseCodeFields(PutCodeFields(c, rest)) == Got(c, rest)
  {
    hide ParseStr, PutStr, WfStr, ParseOpt, PutOpt, ParseLimits, PutLimits, ParseList, PutList, WfList;
    var d3 := PutList(PutDef, c.globals, rest);
    var d2 := PutLimits(c.limits, d3);
    var d1 := PutOpt(PutStr, c.filename, d2);
    StrReads(c.code, d1);
    StrExact();
    OptReads(ParseStr, PutStr, WfStr, c.filename, d2);
    LimitsReads(c.limits, d3);
    DefExact();
    ListReads(ParseDef, PutDef, WfDef, c.globals, rest);
  }

  lemma CodeFieldsWrites(d: seq<byte>)
    ensures var r := ParseCodeFields(d); r.Got? ==> WfCodeFields(r.value) && d == PutCodeFields(r.value, r.rest)
  {
    hide ParseStr, PutStr, WfStr, ParseOpt, PutOpt, ParseLimits, PutLimits, ParseList, PutList, WfList;
    if ParseCodeFields(d).Got? {
      StrWrites(d);
      var d1 := ParseStr(d).rest;
      StrExact();
      OptWrites(ParseStr, PutStr, WfStr, d1);
      var d2 := ParseOpt(ParseStr, d1).rest;
      LimitsWrites(d2);
      DefExact();
      ListWrites(ParseDef, PutDef, WfDef, ParseLimits(d2).rest);
    }
  }

  // ── Requests ────────────────────────────────────────────────────────────

  datatype Run = Run(runId: u32, fields: CodeFields, imports: seq<Binding<Str>>, call: Option<CallSpec>)

  datatype Precompile = Precompile(requestId: u32, fields: CodeFields, imports: seq<Binding<Str>>)

  datatype PrefixRun = PrefixRun(
    runId: u32, prefixId: Str, limits: RawLimits, globals: seq<GlobalDef>, rebinds: seq<Location<Str>>, call: CallSpec)

  /** A payload must end where its last field does. */
  function Done<T>(p: Parsed<T>): Result<T, Kind>
  {
    match p case Bad(k) => Err(k) case Got(x, rest) => if rest == [] then Ok(x) else Err(Invalid)
  }

  function ParseRunFields(d: seq<byte>): Parsed<Run>
  {
    match ParseU32(d)
    case Bad(k) => Bad(k)
    case Got(id, d1) =>
      match ParseCodeFields(d1)
      case Bad(k) => Bad(k)
      case Got(fields, d2) =>
        match ParseList(ParseBinding, d2)
        case Bad(k) => Bad(k)
        case Got(imports, d3) =>
          match ParseOpt(ParseCall, d3) case Bad(k) => Bad(k) case Got(call, rest) => Got(Run(id, fields, imports, call), rest)
  }

  function ParseRun(payload: seq<byte>): Result<Run, Kind> { Done(ParseRunFields(payload)) }

  function PutRun(r: Run): seq<byte>
  {
    PutU32(r.runId, PutCodeFields(r.fields, PutList(PutBinding, r.imports, PutOpt(PutCall, r.call, []))))
  }

  predicate WfRun(r: Run)
  {
    WfCodeFields(r.fields) && WfList(WfBinding, r.imports) && (r.call.Some? ==> WfCall(r.call.value))
  }

  lemma RunReads(r: Run)
    requires WfRun(r)
    ensures ParseRun(PutRun(r)) == Ok(r)
  {
    hide ParseU32, PutU32, ParseCodeFields, PutCodeFields, WfCodeFields, ParseList, PutList, WfList, ParseOpt, PutOpt, WfCall;
    var d3 := PutOpt(PutCall, r.call, []);
    var d2 := PutList(PutBinding, r.imports, d3);
    U32Reads(r.runId, PutCodeFields(r.fields, d2));
    CodeFieldsReads(r.fields, d2);
    BindingExact();
    ListReads(ParseBinding, PutBinding, WfBinding, r.imports, d3);
    CallExact();
    OptReads(ParseCall, PutCall, WfCall, r.call, []);
  }

  /** A payload is accepted as a Run exactly if it is the wire form of that one request. */
  lemma RunExact(payload: seq<byte>, r: Run)
    ensures ParseRun(payload) == Ok(r) <==> WfRun(r) && payload == PutRun(r)
  {
    hide ParseU32, PutU32, ParseCodeFields, PutCodeFields, WfCodeFields, ParseList, PutList, WfList, ParseOpt, PutOpt, WfCall;
    if WfRun(r) { RunReads(r); }
    if ParseRun(payload) == Ok(r) {
      U32Writes(payload);
      var d1 := ParseU32(payload).rest;
      CodeFieldsWrites(d1);
      var d2 := ParseCodeFields(d1).rest;
      BindingExact();
      ListWrites(ParseBinding, PutBinding, WfBinding, d2);
      CallExact();
      OptWrites(ParseCall, PutCall, WfCall, ParseList(ParseBinding, d2).rest);
    }
  }

  function ParsePrecompileFields(d: seq<byte>): Parsed<Precompile>
  {
    match ParseU32(d)
    case Bad(k) => Bad(k)
    case Got(id, d1) =>
      match ParseCodeFields(d1)
      case Bad(k) => Bad(k)
      case Got(fields, d2) =>
        match ParseList(ParseBinding, d2) case Bad(k) => Bad(k) case Got(imports, rest) => Got(Precompile(id, fields, imports), rest)
  }

  function ParsePrecompile(payload: seq<byte>): Result<Precompile, Kind> { Done(ParsePrecompileFields(payload)) }

  function PutPrecompile(p: Precompile): seq<byte>
  {
    PutU32(p.requestId, PutCodeFields(p.fields, PutList(PutBinding, p.imports, [])))
  }

  predicate WfPrecompile(p: Precompile)
  {
    WfCodeFields(p.fields) && WfList(WfBinding, p.imports)
  }

  /** A payload is accepted as a Precompile exactly if it is the wire form of that one request. */
  lemma PrecompileExact(payload: seq<byte>, p: Precompile)
    ensures ParsePrecompile(payload) == Ok(p) <==> WfPrecompile(p) && payload == PutPrecompile(p)
  {
    hide ParseU32, PutU32, ParseCodeFields, PutCodeFields, WfCodeFields, ParseList, PutList, WfList;
    BindingExact();
    if WfPrecompile(p) {
      var d2 := PutList(PutBinding, p.imports, []);
      U32Reads(p.requestId, PutCodeFields(p.fields, d2));
      CodeFieldsReads(p.fields, d2);
      ListReads(ParseBinding, PutBinding, WfBinding, p.imports, []);
    }
    if ParsePrecompile(payload) == Ok(p) {
      U32Writes(payload);
      var d1 := ParseU32(payload).rest;
      CodeFieldsWrites(d1);
      ListWrites(ParseBinding, PutBinding, WfBinding, ParseCodeFields(d1).rest);
    }
  }

  function ParsePrefixRunFields(d: seq<byte>): Parsed<PrefixRun>
  {
    match ParseU32(d)
    case Bad(k) => Bad(k)
    case Got(id, d1) =>
      match ParseStr(d1)
      case Bad(k) => Bad(k)
      case Got(prefix, d2) =>
        match ParseLimits(d2)
        case Bad(k) => Bad(k)
        case Got(limits, d3) =>
          match ParseList(ParseDef, d3) case Bad(k) => Bad(k) case Got(globals, d4) => ParsePrefixRunTail(id, prefix, limits, globals, d4)
  }

  function ParsePrefixRunTail(id: u32, prefix: Str, limits: RawLimits, globals: seq<GlobalDef>, d: seq<byte>): Parsed<PrefixRun>
  {
    match ParseList(ParseRebind, d)
    case Bad(k) => Bad(k)
    case Got(rebinds, d1) =>
      match ParseCall(d1) case Bad(k) => Bad(k) case Got(call, rest) => Got(PrefixRun(id, prefix, limits, globals, rebinds, call), rest)
  }

  function ParsePrefixRun(payload: seq<byte>): Result<PrefixRun, Kind> { Done(ParsePrefixRunFields(payload)) }

  function PutPrefixRunTail(p: PrefixRun): seq<byte>
  {
    PutList(PutRebind, p.rebinds, PutCall(p.call, []))
  }

  function PutPrefixRun(p: PrefixRun): seq<byte>
  {
    PutU32(p.runId, PutStr(p.prefixId, PutLimits(p.limits, PutList(PutDef, p.globals, PutPrefixRunTail(p)))))
  }

  predicate WfPrefixRun(p: PrefixRun)
  {
    WfStr(p.prefixId) && |p.limits| == LIMIT_FIELDS && WfList(WfDef, p.globals) && WfList(WfRebind, p.rebinds) && WfCall(p.call)
  }

  lemma PrefixRunTailReads(p: PrefixRun)
    requires WfPrefixRun(p)
    ensures ParsePrefixRunTail(p.runId, p.prefixId, p.limits, p.globals, PutPrefixRunTail(p)) == Got(p, [])
  {
    hide ParseList, PutList, WfList, ParseCall, PutCall, WfCall, WfStr;
    RebindExact();
    ListReads(ParseRebind, PutRebind, WfRebind, p.rebinds, PutCall(p.call, []));
    CallExact();
  }

  lemma PrefixRunReads(p: PrefixRun)
    requires WfPrefixRun(p)
    ensures ParsePrefixRun(PutPrefixRun(p)) == Ok(p)
  {
    hide ParseU32, PutU32, ParseStr, PutStr, WfStr, ParseLimits, PutLimits, ParseList, PutList, WfList, WfCall;
    hide ParsePrefixRunTail, PutPrefixRunTail;
    var d4 := PutPrefixRunTail(p);
    var d3 := PutList(PutDef, p.globals, d4);
    var d2 := PutLimits(p.limits, d3);
    U32Reads(p.runId, PutStr(p.prefixId, d2));
    StrReads(p.prefixId, d2);
    LimitsReads(p.limits, d3);
    DefExact();
    ListReads(ParseDef, PutDef, WfDef, p.globals, d4);
    PrefixRunTailReads(p);
  }

  lemma PrefixRunWrites(payload: seq<byte>, p: PrefixRun)
    requires ParsePrefixRun(payload) == Ok(p)
    ensures WfPrefixRun(p) && payload == PutPrefixRun(p)
  {
    hide ParseU32, PutU32, ParseStr, PutStr, WfStr, ParseLimits, PutLimits, ParseList, PutList, WfList, ParseCall, PutCall, WfCall;
    U32Writes(payload);
    var d1 := ParseU32(payload).rest;
    StrWrites(d1);
    var d2 := ParseStr(d1).rest;
    LimitsWrites(d2);
    var d3 := ParseLimits(d2).rest;
    DefExact();
    ListWrites(ParseDef, PutDef, WfDef, d3);
    var d4 := ParseList(ParseDef, d3).rest;
    RebindExact();
    ListWrites(ParseRebind, PutRebind, WfRebind, d4);
    CallExact();
  }

  /** A payload is accepted as a PrefixRun exactly if it is the wire form of that one request. */
  lemma PrefixRunExact(payload: seq<byte>, p: PrefixRun)
    ensures ParsePrefixRun(payload) == Ok(p) <==> WfPrefixRun(p) && payload == PutPrefixRun(p)
  {
    hide ParsePrefixRun, PutPrefixRun, WfPrefixRun;
    if WfPrefixRun(p) { PrefixRunReads(p); }
    if ParsePrefixRun(payload) == Ok(p) { PrefixRunWrites(payload, p); }
  }
}
