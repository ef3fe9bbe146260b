// Request payloads: for each kind of value its wire form and its parser, and the proof
// that the parser accepts exactly the wire forms. `PutX(x, rest)` is the form of `x`
// followed by `rest`.

module PayloadFormat {
  import opened Wrappers
  import opened Bytes
  import opened Utf8
  import opened ImportShapes
  import opened RuntimeCheck
  import Globals

  /** A `String` of the wire: UTF-8 bytes. */
  type Str = seq<byte>

  type GlobalDef = Globals.Def<Str>

  datatype Kind = Eof | Invalid

  datatype Parsed<+T> = Got(value: T, rest: seq<byte>) | Bad(kind: Kind)

  // ── Scalars ─────────────────────────────────────────────────────────────

  function ParseU8(d: seq<byte>): Parsed<byte>
  {
    if d == [] then Bad(Eof) else Got(d[0], d[1..])
  }

  function ParseU32(d: seq<byte>): Parsed<u32>
  {
    if |d| < 4 then Bad(Eof) else Got(FromBE32(d[..4]), d[4..])
  }

  function PutU32(n: u32, rest: seq<byte>): seq<byte>
  {
    BE32(n) + rest
  }

  /** `len as u32`. */
  function PutLength(n: nat, rest: seq<byte>): seq<byte>
  {
    PutU32(n % 0x1_0000_0000, rest)
  }

  predicate IsU32(n: nat) { n < 0x1_0000_0000 }

  lemma U32Reads(n: u32, rest: seq<byte>)
    ensures ParseU32(PutU32(n, rest)) == Got(n, rest)
  {
    WordRoundTrip(n);
    assert (BE32(n) + rest)[..4] == BE32(n);
  }

  lemma U32Writes(d: seq<byte>)
    ensures ParseU32(d).Got? ==> d == PutU32(ParseU32(d).value, ParseU32(d).rest)
  {
    if |d| >= 4 {
      WordCanonical(d[..4]);
      assert d == d[..4] + d[4..];
    }
  }

  lemma LengthReads(n: nat, rest: seq<byte>)
    requires IsU32(n)
    ensures ParseU32(PutLength(n, rest)) == Got(n, rest)
  {
    hide BE32, FromBE32;
    assert n % 0x1_0000_0000 == n;
    U32Reads(n, rest);
  }

  /** A strict boolean byte. */
  function ParseBool(d: seq<byte>): Parsed<bool>
  {
    match ParseU8(d)
    case Bad(k) => Bad(k)
    case Got(b, rest) => if b == 0 then Got(false, rest) else if b == 1 then Got(true, rest) else Bad(Invalid)
  }

  function PutBool(b: bool, rest: seq<byte>): seq<byte>
  {
    [if b then 1 else 0] + rest
  }

  lemma BoolExact(d: seq<byte>, b: bool, rest: seq<byte>)
    ensures ParseBool(d) == Got(b, rest) <==> d == PutBool(b, rest)
  {
    if d != [] { assert d == [d[0]] + d[1..]; }
  }

  // ── Byte slices and strings ─────────────────────────────────────────────

  /** A value slot: a length and that many bytes. */
  function ParseBlob(d: seq<byte>): Parsed<seq<byte>>
  {
    match ParseU32(d)
    case Bad(k) => Bad(k)
    case Got(n, rest) => if |rest| < n then Bad(Eof) else Got(rest[..n], rest[n..])
  }

  function PutBlob(b: seq<byte>, rest: seq<byte>): seq<byte>
  {
    PutLength(|b|, b + rest)
  }

  lemma BlobReads(b: seq<byte>, rest: seq<byte>)
    requires IsU32(|b|)
    ensures ParseBlob(PutBlob(b, rest)) == Got(b, rest)
  {
    hide ParseU32, PutLength;
    LengthReads(|b|, b + rest);
  }

  lemma BlobWrites(d: seq<byte>)
    ensures ParseBlob(d).Got? ==> IsU32(|ParseBlob(d).value|) && d == PutBlob(ParseBlob(d).value, ParseBlob(d).rest)
  {
    hide ParseU32, PutU32;
    U32Writes(d);
    var n := ParseU32(d);
    if n.Got? && n.value <= |n.rest| {
      assert n.value % 0x1_0000_0000 == n.value;
      assert n.rest[..n.value] + n.rest[n.value..] == n.rest;
    }
  }

  function ParseStr(d: seq<byte>): Parsed<Str>
  {
    match ParseBlob(d)
    case Bad(k) => Bad(k)
    case Got(b, rest) => if ValidUtf8(b) then Got(b, rest) else Bad(Invalid)
  }

  function PutStr(s: Str, rest: seq<byte>): seq<byte>
  {
    PutBlob(s, rest)
  }

  predicate WfStr(s: Str)
  {
    IsU32(|s|) && ValidUtf8(s)
  }

  lemma StrReads(s: Str, rest: seq<byte>)
    requires WfStr(s)
    ensures ParseStr(PutStr(s, rest)) == Got(s, rest)
  {
    hide ParseBlob, PutBlob, ValidUtf8;
    BlobReads(s, rest);
  }

  lemma StrWrites(d: seq<byte>)
    ensures ParseStr(d).Got? ==> WfStr(ParseStr(d).value) && d == PutStr(ParseStr(d).value, ParseStr(d).rest)
  {
    hide ParseBlob, PutBlob, ValidUtf8;
    BlobWrites(d);
  }

  /** How each basic read fails: at the end where bytes are missing, else for what is not allowed there. */
  lemma Failures(d: seq<byte>)
    ensures (d == [] ==> ParseBool(d) == Bad(Eof)) && (d != [] && d[0] > 1 ==> ParseBool(d) == Bad(Invalid))
    ensures |d| < 4 ==> ParseU32(d) == Bad(Eof) && ParseBlob(d) == Bad(Eof) && ParseStr(d) == Bad(Eof)
    ensures |d| >= 4 ==>
              var n := d[0] as int * 0x100_0000 + d[1] as int * 0x1_0000 + d[2] as int * 0x100 + d[3];
              && ParseU32(d) == Got(n, d[4..])
              && (|d| - 4 < n ==> ParseBlob(d) == Bad(Eof) && ParseStr(d) == Bad(Eof))
              && (|d| - 4 >= n ==> ParseBlob(d) == Got(d[4..4 + n], d[4 + n..]))
              && (|d| - 4 >= n && !WellFormed(d[4..4 + n]) ==> ParseStr(d) == Bad(Invalid))
  {
    hide ValidUtf8, WellFormed;
    if |d| >= 4 {
      WordCanonical(d[..4]);
      MostSignificantFirst(FromBE32(d[..4]));
      var n := FromBE32(d[..4]);
      if |d| - 4 >= n {
        assert d[4..][..n] == d[4..4 + n] && d[4..][n..] == d[4 + n..];
        ValidIsWellFormed(d[4..4 + n]);
      }
    }
  }

  // ── Optional values and lists ───────────────────────────────────────────

  /** A parser with the form it reads: every well-formed value, and nothing else. */
  ghost predicate Exact<T(!new)>(parse: seq<byte> -> Parsed<T>, put: (T, seq<byte>) -> seq<byte>, wf: T -> bool)
  {
    && (forall x, rest :: wf(x) ==> parse(put(x, rest)) == Got(x, rest))
    && (forall d :: parse(d).Got? ==> wf(parse(d).value) && d == put(parse(d).value, parse(d).rest))
    && (forall x, rest :: |put(x, rest)| > |rest|)
  }

  function ParseOpt<T>(parse: seq<byte> -> Parsed<T>, d: seq<byte>): Parsed<Option<T>>
  {
    match ParseU8(d)
    case Bad(k) => Bad(k)
    case Got(b, rest) =>
      if b == 0 then Got(None, rest)
      else if b != 1 then Bad(Invalid)
      else match parse(rest) case Bad(k) => Bad(k) case Got(x, rest') => Got(Some(x), rest')
  }

  function PutOpt<T>(put: (T, seq<byte>) -> seq<byte>, x: Option<T>, rest: seq<byte>): seq<byte>
  {
    match x case None => [0] + rest case Some(v) => [1] + put(v, rest)
  }

  lemma OptReads<T(!new)>(parse: seq<byte> -> Parsed<T>, put: (T, seq<byte>) -> seq<byte>, wf: T -> bool, x: Option<T>, rest: seq<byte>)
    requires Exact(parse, put, wf) && (x.Some? ==> wf(x.value))
    ensures ParseOpt(parse, PutOpt(put, x, rest)) == Got(x, rest)
  {
    if x.Some? { assert ([1] + put(x.value, rest))[1..] == put(x.value, rest); }
  }

  lemma OptWrites<T(!new)>(parse: seq<byte> -> Parsed<T>, put: (T, seq<byte>) -> seq<byte>, wf: T -> bool, d: seq<byte>)
    requires Exact(parse, put, wf)
    ensures var r := ParseOpt(parse, d);
            r.Got? ==> (r.value.Some? ==> wf(r.value.value)) && d == PutOpt(put, r.value, r.rest)
  {
    if d != [] { assert d == [d[0]] + d[1..]; }
  }

  function ParseMany<T>(parse: seq<byte> -> Parsed<T>, n: nat, d: seq<byte>): Parsed<seq<T>>
  {
    if n == 0 then Got([], d)
    else
      match parse(d)
      case Bad(k) => Bad(k)
      case Got(x, rest) =>
        match ParseMany(parse, n - 1, rest)
        case Bad(k) => Bad(k)
        case Got(xs, rest') => Got([x] + xs, rest')
  }

  function PutMany<T>(put: (T, seq<byte>) -> seq<byte>, xs: seq<T>, rest: seq<byte>): seq<byte>
  {
    if xs == [] then rest else put(xs[0], PutMany(put, xs[1..], rest))
  }

  /** A count, refused when it exceeds the bytes that remain, and that many entries. */
  function ParseList<T>(parse: seq<byte> -> Parsed<T>, d: seq<byte>): Parsed<seq<T>>
  {
    match ParseU32(d)
    case Bad(k) => Bad(k)
    case Got(n, rest) => if n > |rest| then Bad(Invalid) else ParseMany(parse, n, rest)
  }

  function PutList<T>(put: (T, seq<byte>) -> seq<byte>, xs: seq<T>, rest: seq<byte>): seq<byte>
  {
    PutLength(|xs|, PutMany(put, xs, rest))
  }

  predicate WfList<T>(wf: T -> bool, xs: seq<T>)
  {
    IsU32(|xs|) && forall k :: 0 <= k < |xs| ==> wf(xs[k])
  }

  lemma {:induction false} ManyReads<T(!new)>(parse: seq<byte> -> Parsed<T>, put: (T, seq<byte>) -> seq<byte>, wf: T -> bool, xs: seq<T>, rest: seq<byte>)
    requires Exact(parse, put, wf) && forall k :: 0 <= k < |xs| ==> wf(xs[k])
    ensures ParseMany(parse, |xs|, PutMany(put, xs, rest)) == Got(xs, rest)
    ensures |PutMany(put, xs, rest)| >= |xs| + |rest|
    decreases |xs|
  {
    if xs != [] {
      ManyReads(parse, put, wf, xs[1..], rest);
      assert [xs[0]] + xs[1..] == xs;
    }
  }

  lemma {:induction false} ManyWrites<T(!new)>(parse: seq<byte> -> Parsed<T>, put: (T, seq<byte>) -> seq<byte>, wf: T -> bool, n: nat, d: seq<byte>)
    requires Exact(parse, put, wf)
    ensures var r := ParseMany(parse, n, d);
            r.Got? ==> |r.value| == n && (forall k :: 0 <= k < n ==> wf(r.value[k])) && d == PutMany(put, r.value, r.rest) && n + |r.rest| <= |d|
    decreases n
  {
    if n > 0 && parse(d).Got? { ManyWrites(parse, put, wf, n - 1, parse(d).rest); }
  }

  lemma ListReads<T(!new)>(parse: seq<byte> -> Parsed<T>, put: (T, seq<byte>) -> seq<byte>, wf: T -> bool, xs: seq<T>, rest: seq<byte>)
    requires Exact(parse, put, wf) && WfList(wf, xs)
    ensures ParseList(parse, PutList(put, xs, rest)) == Got(xs, rest)
  {
    hide ParseU32, PutLength, Exact;
    ManyReads(parse, put, wf, xs, rest);
    LengthReads(|xs|, PutMany(put, xs, rest));
  }

  lemma ListWrites<T(!new)>(parse: seq<byte> -> Parsed<T>, put: (T, seq<byte>) -> seq<byte>, wf: T -> bool, d: seq<byte>)
    requires Exact(parse, put, wf)
    ensures var r := ParseList(parse, d); r.Got? ==> WfList(wf, r.value) && d == PutList(put, r.value, r.rest)
  {
    hide ParseU32, PutU32, Exact;
    U32Writes(d);
    var n := ParseU32(d);
    if n.Got? {
      assert n.value % 0x1_0000_0000 == n.value;
      ManyWrites(parse, put, wf, n.value, n.rest);
    }
  }

  /** The check of the count against the bytes that remain refuses no list that would parse. */
  lemma CountCheckHarmless<T(!new)>(parse: seq<byte> -> Parsed<T>, put: (T, seq<byte>) -> seq<byte>, wf: T -> bool, d: seq<byte>)
    requires Exact(parse, put, wf) && ParseU32(d).Got?
    ensures ParseMany(parse, ParseU32(d).value, ParseU32(d).rest).Got? ==>
              ParseList(parse, d) == ParseMany(parse, ParseU32(d).value, ParseU32(d).rest)
  {
    hide ParseU32, Exact;
    ManyWrites(parse, put, wf, ParseU32(d).value, ParseU32(d).rest);
  }

  lemma StrExact()
    ensures Exact(ParseStr, PutStr, WfStr)
  {
    hide ParseStr, WfStr;
    forall s, rest | WfStr(s) ensures ParseStr(PutStr(s, rest)) == Got(s, rest) { StrReads(s, rest); }
    forall d ensures ParseStr(d).Got? ==> WfStr(ParseStr(d).value) && d == PutStr(ParseStr(d).value, ParseStr(d).rest) { StrWrites(d); }
  }

  predicate Any<T>(x: T) { true }

  lemma U32Exact()
    ensures Exact(ParseU32, PutU32, Any<u32>)
  {
    hide ParseU32;
    forall n: u32, rest ensures ParseU32(PutU32(n, rest)) == Got(n, rest) { U32Reads(n, rest); }
    forall d ensures ParseU32(d).Got? ==> d == PutU32(ParseU32(d).value, ParseU32(d).rest) { U32Writes(d); }
  }

  // ── Global definitions ──────────────────────────────────────────────────

  function ParseDef(d: seq<byte>): Parsed<GlobalDef>
  {
    match ParseU8(d)
    case Bad(k) => Bad(k)
    case Got(kind, d1) =>
      match ParseStr(d1)
      case Bad(k) => Bad(k)
      case Got(name, d2) =>
        match ParseBool(d2)
        case Bad(k) => Bad(k)
        case Got(enumerable, d3) => ParseDefBody(kind, name, enumerable, d3)
  }

  function ParseDefBody(kind: byte, name: Str, enumerable: bool, d: seq<byte>): Parsed<GlobalDef>
  {
    if kind == 0 then Got(Globals.Bridge(name, enumerable), d)
    else if kind == 1 then
      match ParseStr(d) case Bad(k) => Bad(k) case Got(expr, rest) => Got(Globals.StringExpr(name, expr, enumerable), rest)
    else if kind == 2 then
      match ParseBlob(d) case Bad(k) => Bad(k) case Got(blob, rest) => Got(Globals.Data(name, blob, enumerable), rest)
    else if kind == 3 then
      match ParseStr(d)
      case Bad(k) => Bad(k)
      case Got(shim, d1) =>
        match ParseStr(d1) case Bad(k) => Bad(k) case Got(handler, rest) => Got(Globals.Shim(name, shim, handler, enumerable), rest)
    else Bad(Invalid)
  }

  function PutDef(x: GlobalDef, rest: seq<byte>): seq<byte>
  {
    match x
    case Bridge(name, e) => [0] + PutStr(name, PutBool(e, rest))
    case StringExpr(name, expr, e) => [1] + PutStr(name, PutBool(e, PutStr(expr, rest)))
    case Data(name, blob, e) => [2] + PutStr(name, PutBool(e, PutBlob(blob, rest)))
    case Shim(name, shim, handler, e) => [3] + PutStr(name, PutBool(e, PutStr(shim, PutStr(handler, rest))))
  }

  predicate WfDef(x: GlobalDef)
  {
    && WfStr(x.name)
    && match x
       case Bridge(_, _) => true
       case StringExpr(_, expr, _) => WfStr(expr)
       case Data(_, blob, _) => IsU32(|blob|)
       case Shim(_, shim, handler, _) => WfStr(shim) && WfStr(handler)
  }

  function DefKind(x: GlobalDef): byte
  {
    match x case Bridge(_, _) => 0 case StringExpr(_, _, _) => 1 case Data(_, _, _) => 2 case Shim(_, _, _, _) => 3
  }

  function PutDefBody(x: GlobalDef, rest: seq<byte>): seq<byte>
  {
    match x
    case Bridge(_, _) => rest
    case StringExpr(_, expr, _) => PutStr(expr, rest)
    case Data(_, blob, _) => PutBlob(blob, rest)
    case Shim(_, shim, handler, _) => PutStr(shim, PutStr(handler, rest))
  }

  lemma DefBodyReads(x: GlobalDef, rest: seq<byte>)
    requires WfDef(x)
    ensures ParseDefBody(DefKind(x), x.name, x.enumerable, PutDefBody(x, rest)) == Got(x, rest)
  {
    hide ParseStr, PutStr, WfStr, ParseBlob, PutBlob;
    match x
    case Bridge(_, _) =>
    case StringExpr(_, expr, _) => StrReads(expr, rest);
    case Data(_, blob, _) => BlobReads(blob, rest);
    case Shim(_, shim, handler, _) => StrReads(shim, PutStr(handler, rest)); StrReads(handler, rest);
  }

  lemma DefBodyWrites(kind: byte, name: Str, enumerable: bool, d: seq<byte>)
    requires WfStr(name)
    ensures var r := ParseDefBody(kind, name, enumerable, d);
            r.Got? ==>
              && WfDef(r.value) && r.value.name == name && r.value.enumerable == enumerable
              && DefKind(r.value) == kind && d == PutDefBody(r.value, r.rest)
  {
    hide ParseStr, PutStr, WfStr, ParseBlob, PutBlob;
    StrWrites(d);
    BlobWrites(d);
    if ParseStr(d).Got? { StrWrites(ParseStr(d).rest); }
  }

  lemma PutDefParts(x: GlobalDef, rest: seq<byte>)
    ensures PutDef(x, rest) == [DefKind(x)] + PutStr(x.name, PutBool(x.enumerable, PutDefBody(x, rest)))
  {
    hide PutStr, PutBool, PutBlob;
  }

  lemma DefReads(x: GlobalDef, rest: seq<byte>)
    requires WfDef(x)
    ensures ParseDef(PutDef(x, rest)) == Got(x, rest)
  {
    hide ParseStr, PutStr, WfStr, ParseBool, PutBool, ParseDefBody, PutDefBody, PutDef;
    PutDefParts(x, rest);
    var body := PutDefBody(x, rest);
    var tail := PutStr(x.name, PutBool(x.enumerable, body));
    assert ([DefKind(x)] + tail)[1..] == tail;
    StrReads(x.name, PutBool(x.enumerable, body));
    BoolExact(PutBool(x.enumerable, body), x.enumerable, body);
    DefBodyReads(x, rest);
  }

  lemma DefWrites(d: seq<byte>)
    ensures ParseDef(d).Got? ==> WfDef(ParseDef(d).value) && d == PutDef(ParseDef(d).value, ParseDef(d).rest)
  {
    hide ParseStr, PutStr, WfStr, ParseBool, PutBool, ParseDefBody, PutDefBody, PutDef, WfDef;
    if ParseDef(d).Got? {
      assert d == [d[0]] + d[1..];
      StrWrites(d[1..]);
      var name := ParseStr(d[1..]);
      var e := ParseBool(name.rest);
      BoolExact(name.rest, e.value, e.rest);
      DefBodyWrites(d[0], name.value, e.value, e.rest);
      PutDefParts(ParseDef(d).value, ParseDef(d).rest);
    }
  }

  lemma StrLonger(s: Str, rest: seq<byte>)
    ensures |PutStr(s, rest)| == 4 + |s| + |rest|
  {
  }

  lemma DefExact()
    ensures Exact(ParseDef, PutDef, WfDef)
  {
    hide ParseDef, WfDef;
    forall x, rest | WfDef(x) ensures ParseDef(PutDef(x, rest)) == Got(x, rest) { DefReads(x, rest); }
    forall d ensures ParseDef(d).Got? ==> WfDef(ParseDef(d).value) && d == PutDef(ParseDef(d).value, ParseDef(d).rest) { DefWrites(d); }
  }

  // ── Host-module trees ───────────────────────────────────────────────────

  predicate WfNode(n: Node<Str>)
  {
    match n
    case Function => true
    case Data(blob) => IsU32(|blob|)
    case Object(es) => IsU32(|es|) && WfEntries(es)
  }

  predicate WfEntries(es: seq<Entry<Str>>)
  {
    es == [] || (WfEntry(es[0]) && WfEntries(es[1..]))
  }

  predicate WfEntry(e: Entry<Str>)
  {
    WfStr(e.key) && WfNode(e.node)
  }

  /** `depth` is the node's path length from the top-level export. */
  function ParseNode(d: seq<byte>, depth: nat): (r: Parsed<Node<Str>>)
    ensures r.Got? ==> |r.rest| < |d|
    decreases |d|, 0
  {
    if depth > MAX_HOST_MODULE_DEPTH then Bad(Invalid)
    else
      match ParseU8(d)
      case Bad(k) => Bad(k)
      case Got(tag, d1) =>
        if tag == 0 then Got(Function, d1)
        else if tag == 1 then
          Shorter(d1);
          match ParseBlob(d1) case Bad(k) => Bad(k) case Got(blob, rest) => Got(Data(blob), rest)
        else if tag == 2 then
          match ParseNodes(d1, depth + 1) case Bad(k) => Bad(k) case Got(es, rest) => Got(Object(es), rest)
        else Bad(Invalid)
  }

  /** A counted list of keyed children at this depth. */
  function ParseNodes(d: seq<byte>, depth: nat): (r: Parsed<seq<Entry<Str>>>)
    ensures r.Got? ==> |r.rest| <= |d|
    decreases |d|, 2
  {
    match ParseU32(d)
    case Bad(k) => Bad(k)
    case Got(n, d1) => if n > |d1| then Bad(Invalid) else ParseEntries(d1, n, depth)
  }

  function ParseEntries(d: seq<byte>, n: nat, depth: nat): (r: Parsed<seq<Entry<Str>>>)
    ensures r.Got? ==> |r.rest| + n <= |d|
    decreases |d|, 1
  {
    if n == 0 then Got([], d)
    else
      Shorter(d);
      match ParseStr(d)
      case Bad(k) => Bad(k)
      case Got(key, d1) =>
        match ParseNode(d1, depth)
        case Bad(k) => Bad(k)
        case Got(node, d2) =>
          match ParseEntries(d2, n - 1, depth)
          case Bad(k) => Bad(k)
          case Got(es, rest) => Got([Entry(key, node)] + es, rest)
  }

  lemma Shorter(d: seq<byte>)
    ensures ParseBlob(d).Got? ==> |ParseBlob(d).rest| < |d|
    ensures ParseStr(d).Got? ==> |ParseStr(d).rest| < |d|
  {
  }

  function PutNode(n: Node<Str>, rest: seq<byte>): seq<byte>
    decreases n
  {
    match n
    case Function => [0] + rest
    case Data(blob) => [1] + PutBlob(blob, rest)
    case Object(es) => [2] + PutLength(|es|, PutEntries(es, rest))
  }

  function PutEntries(es: seq<Entry<Str>>, rest: seq<byte>): seq<byte>
    decreases es
  {
    if es == [] then rest else PutEntry(es[0], PutEntries(es[1..], rest))
  }

  function PutEntry(e: Entry<Str>, rest: seq<byte>): seq<byte>
    decreases e
  {
    PutStr(e.key, PutNode(e.node, rest))
  }

  function PutNodes(es: seq<Entry<Str>>, rest: seq<byte>): seq<byte>
  {
    PutLength(|es|, PutEntries(es, rest))
  }

  /** A tree is read back exactly if its longest path is within the limit. */
  lemma {:induction false} NodeReads(n: Node<Str>, depth: nat, rest: seq<byte>)
    requires WfNode(n)
    ensures ParseNode(PutNode(n, rest), depth) == if depth + Below(n) <= MAX_HOST_MODULE_DEPTH then Got(n, rest) else Bad(Invalid)
    decreases n, 0
  {
    hide ParseStr, PutStr, WfStr, ParseU32, PutLength, ParseBlob, PutBlob, WfEntries, PutEntries, ParseEntries;
    match n
    case Function =>
      assert ([0] + rest)[1..] == rest;
    case Data(blob) =>
      BlobReads(blob, rest);
      assert ([1] + PutBlob(blob, rest))[1..] == PutBlob(blob, rest);
    case Object(es) =>
      var body := PutLength(|es|, PutEntries(es, rest));
      assert ([2] + body)[1..] == body;
      LengthReads(|es|, PutEntries(es, rest));
      EntriesReads(es, depth + 1, rest);
  }

  lemma {:induction false} EntriesReads(es: seq<Entry<Str>>, depth: nat, rest: seq<byte>)
    requires WfEntries(es)
    ensures ParseEntries(PutEntries(es, rest), |es|, depth)
         == if es == [] || depth + BelowAll(es) <= MAX_HOST_MODULE_DEPTH + 1 then Got(es, rest) else Bad(Invalid)
    ensures |PutEntries(es, rest)| >= |es| + |rest|
    decreases es, 0
  {
    hide ParseStr, PutStr, WfStr, WfNode, PutNode, ParseNode, Below;
    if es != [] {
      EntryReads(es[0], depth, PutEntries(es[1..], rest));
      EntriesReads(es[1..], depth, rest);
      assert [es[0]] + es[1..] == es;
    }
  }

  lemma {:induction false} EntryReads(e: Entry<Str>, depth: nat, rest: seq<byte>)
    requires WfEntry(e)
    ensures ParseStr(PutEntry(e, rest)) == Got(e.key, PutNode(e.node, rest))
    ensures ParseNode(PutNode(e.node, rest), depth) == if depth + BelowEntry(e) <= MAX_HOST_MODULE_DEPTH then Got(e.node, rest) else Bad(Invalid)
    ensures |PutEntry(e, rest)| > |rest|
    decreases e, 0
  {
    hide ParseStr, PutStr, WfStr;
    StrReads(e.key, PutNode(e.node, rest));
    NodeReads(e.node, depth, rest);
    StrLonger(e.key, PutNode(e.node, rest));
    NodeLonger(e.node, rest);
  }

  lemma {:induction false} NodeLonger(n: Node<Str>, rest: seq<byte>)
    ensures |PutNode(n, rest)| > |rest|
    decreases n, 0
  {
    hide PutStr;
    if n.Object? { EntriesLonger(n.entries, rest); }
  }

  lemma {:induction false} EntriesLonger(es: seq<Entry<Str>>, rest: seq<byte>)
    ensures |PutEntries(es, rest)| >= |rest|
    decreases es, 0
  {
    hide PutStr;
    if es != [] {
      EntryLonger(es[0], PutEntries(es[1..], rest));
      EntriesLonger(es[1..], rest);
    }
  }

  lemma {:induction false} EntryLonger(e: Entry<Str>, rest: seq<byte>)
    ensures |PutEntry(e, rest)| >= |rest|
    decreases e, 0
  {
    NodeLonger(e.node, rest);
    StrLonger(e.key, PutNode(e.node, rest));
  }

  /** Whatever parses as a tree is the wire form of it. */
  lemma {:induction false} NodeWrites(d: seq<byte>, depth: nat)
    ensures var r := ParseNode(d, depth);
            r.Got? ==> WfNode(r.value) && d == PutNode(r.value, r.rest) && depth + Below(r.value) <= MAX_HOST_MODULE_DEPTH
    decreases |d|, 0
  {
    hide ParseStr, PutStr, WfStr, ParseBlob, PutBlob, ParseNodes, PutEntries, WfEntries, BelowAll, PutLength;
    if ParseNode(d, depth).Got? {
      assert d == [d[0]] + d[1..];
      if d[0] == 1 { BlobWrites(d[1..]); }
      if d[0] == 2 { NodesWrites(d[1..], depth + 1); }
    }
  }

  lemma {:induction false} NodesWrites(d: seq<byte>, depth: nat)
    ensures var r := ParseNodes(d, depth);
            r.Got? ==> && IsU32(|r.value|) && WfEntries(r.value) && d == PutNodes(r.value, r.rest)
                       && (r.value == [] || depth + BelowAll(r.value) <= MAX_HOST_MODULE_DEPTH + 1)
                       && (r.value == [] ==> BelowAll(r.value) == 0)
    decreases |d|, 2
  {
    hide ParseU32, PutU32, ParseEntries, PutEntries, WfEntries;
    U32Writes(d);
    var n := ParseU32(d);
    if n.Got? && n.value <= |n.rest| {
      assert n.value % 0x1_0000_0000 == n.value;
      U32Shorter(d);
      EntriesWrites(n.rest, n.value, depth);
    }
  }

  lemma U32Shorter(d: seq<byte>)
    ensures ParseU32(d).Got? ==> |ParseU32(d).rest| < |d|
  {
  }

  lemma {:induction false} EntriesWrites(d: seq<byte>, n: nat, depth: nat)
    ensures var r := ParseEntries(d, n, depth);
            r.Got? ==> && |r.value| == n && WfEntries(r.value) && d == PutEntries(r.value, r.rest)
                       && (r.value == [] || depth + BelowAll(r.value) <= MAX_HOST_MODULE_DEPTH + 1)
    decreases |d|, 1
  {
    hide ParseStr, PutStr, WfStr, ParseNode, PutNode, WfNode, Below;
    if n > 0 && ParseEntries(d, n, depth).Got? {
      Shorter(d);
      StrWrites(d);
      var key := ParseStr(d);
      NodeWrites(key.rest, depth);
      var node := ParseNode(key.rest, depth);
      EntriesWrites(node.rest, n - 1, depth);
      var es := ParseEntries(node.rest, n - 1, depth).value;
      assert ([Entry(key.value, node.value)] + es)[1..] == es;
    }
  }
}
