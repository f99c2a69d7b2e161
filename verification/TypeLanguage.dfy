/** The textual type language: toString of every class, and the ddtplayer's lexer and grammar. */
module TypeLanguage {
  import opened Datatypes
  import opened Typemap

  // ----- tokens (lexer.flex) -----

  datatype Keyword = Prim(p: PrimitiveType) | CTG | VEC | HVEC | HIDX | IDXB | STRUCT | RESIZED

  datatype Token = Num(value: int) | Key(k: Keyword) | Sym(c: char) | Elem | Unknown

  function Spelling(k: Keyword): (s: string)
    ensures |s| >= 1
  {
    match k
    case Prim(BYTE) => "byte"
    case Prim(CHAR) => "char"
    case Prim(DOUBLE) => "double"
    case Prim(FLOAT) => "float"
    case Prim(INT) => "int"
    case CTG => "ctg"
    case VEC => "vec"
    case HVEC => "hvec"
    case HIDX => "hidx"
    case IDXB => "idxb"
    case STRUCT => "struct"
    case RESIZED => "resized"
  }

  const KEYWORDS: seq<Keyword> := [Prim(BYTE), Prim(CHAR), Prim(INT), Prim(DOUBLE), Prim(FLOAT),
                                   CTG, VEC, HVEC, HIDX, IDXB, STRUCT, RESIZED]

  predicate StartsWith(s: string, prefix: string) { |prefix| <= |s| && s[..|prefix|] == prefix }

  datatype Option<T> = None | Some(value: T)

  /** The first of these keywords that s starts with.  No keyword is a prefix of another, so the first is
      also the longest match. */
  function KeywordAt(s: string, ks: seq<Keyword>): (k: Option<Keyword>)
    ensures k.Some? ==> StartsWith(s, Spelling(k.value))
  {
    if ks == [] then None
    else if StartsWith(s, Spelling(ks[0])) then Some(ks[0])
    else KeywordAt(s, ks[1..])
  }

  predicate IsDigit(c: char) { '0' <= c <= '9' }
  predicate IsSpace(c: char) { c == ' ' || c == '\t' || c == '\n' || c == '\r' }
  predicate IsSym(c: char) { c == '[' || c == ']' || c == '(' || c == ')' || c == ':' || c == ',' || c == ';' }

  /** Length of the leading run of digits. */
  function DigitRun(s: string): (n: nat)
    ensures n <= |s|
    ensures s != [] && IsDigit(s[0]) ==> n >= 1
  {
    if s == [] || !IsDigit(s[0]) then 0 else 1 + DigitRun(s[1..])
  }

  const LONG_MAX: int := 0x7fff_ffff_ffff_ffff

  /** atoi, as the C library of the program's platforms does it: strtol, which stops at the ends of `long`, cut
      to an `int`. */
  function Atoi(n: int): int {
    var long := if n > LONG_MAX then LONG_MAX else if n < -LONG_MAX - 1 then -LONG_MAX - 1 else n;
    (long + 0x8000_0000) % 0x1_0000_0000 - 0x8000_0000
  }

  /** The number that a run of digits writes. */
  function NumberOf(digits: string): int {
    if digits == [] then 0
    else NumberOf(digits[..|digits| - 1]) * 10 + (digits[|digits| - 1] as int - '0' as int)
  }

  function LineLength(s: string): (n: nat)
    ensures n <= |s|
  {
    if s == [] || s[0] == '\n' then 0 else 1 + LineLength(s[1..])
  }

  function Lex(s: string): seq<Token>
    decreases |s|
  {
    if s == [] then []
    else if IsSpace(s[0]) then Lex(s[1..])
    else if StartsWith(s, "//") then Lex(s[2 + LineLength(s[2..])..])
    else if IsDigit(s[0]) then
      var n := DigitRun(s);
      [Num(Atoi(NumberOf(s[..n])))] + Lex(s[n..])
    else if s[0] == '-' then
      var n := DigitRun(s[1..]);
      if n > 0 then [Num(Atoi(-NumberOf(s[1..][..n])))] + Lex(s[1..][n..]) else [Elem] + Lex(s[1..])
    else if IsSym(s[0]) then [Sym(s[0])] + Lex(s[1..])
    else
      match KeywordAt(s, KEYWORDS)
      case Some(k) => [Key(k)] + Lex(s[|Spelling(k)|..])
      case None => [Unknown] + Lex(s[1..])
  }

  // ----- printing (toString) -----

  function Digits(n: nat): (s: string)
    ensures |s| >= 1
  {
    if n < 10 then [('0' as int + n) as char] else Digits(n / 10) + [('0' as int + n % 10) as char]
  }

  function Show(n: int): string { if n < 0 then "-" + Digits(-n) else Digits(n) }

  function ShowDispls(displs: seq<int>, sep: string): string {
    if displs == [] then ""
    else if |displs| == 1 then Show(displs[0])
    else Show(displs[0]) + sep + ShowDispls(displs[1..], sep)
  }

  function ShowEntries(entries: seq<Entry>, sep: string): string {
    if entries == [] then ""
    else if |entries| == 1 then ShowEntry(entries[0])
    else ShowEntry(entries[0]) + sep + ShowEntries(entries[1..], sep)
  }

  function ShowEntry(e: Entry): string { Show(e.displ) + "," + Show(e.blocklen) }

  function ToString(t: Datatype, summary: bool): string
    decreases t, 0
  {
    var sep := if summary then "," else " ";
    match t
    case Primitive(p) => Spelling(Prim(p))
    case Contiguous(count, base) => "ctg(" + Show(count) + ")[" + ToString(base, summary) + "]"
    case Vector(count, blocklen, stride, base) =>
      "vec(" + Show(count) + sep + Show(blocklen) + sep + Show(stride) + ")[" + ToString(base, summary) + "]"
    case HVector(count, blocklen, stride, base) =>
      "hvec(" + Show(count) + sep + Show(blocklen) + sep + Show(stride) + ")[" + ToString(base, summary) + "]"
    case IndexedBlock(blocklen, displs, base) =>
      "idxb("
      + (if summary then Show(|displs|) + "," + Show(blocklen) else Show(blocklen) + ":" + ShowDispls(displs, sep))
      + ")[" + ToString(base, summary) + "]"
    case HIndexed(entries, base) =>
      "hidx(" + ShowEntries(entries, if summary then ";" else " ") + ")[" + ToString(base, summary) + "]"
    case Struct(fields) => "struct(" + Show(|fields|) + ")" + ShowFields(fields, summary)
    case Resized(lb, extent, base) => "resized(" + Show(lb) + "," + Show(extent) + ")[" + ToString(base, summary) + "]"
  }

  function ShowFields(fields: seq<Field>, summary: bool): string
    decreases fields, 0
  {
    if fields == [] then ""
    else
      var f := fields[0];
      assert f.typ < f;
      "[" + Show(f.displ) + "," + Show(f.blocklen) + "]{" + ToString(f.typ, summary) + "}"
      + if |fields| == 1 then "" else (if summary then ";" else " ") + ShowFields(fields[1..], summary)
  }

  /** The loop of IndexedBlockDatatype::toString. */
  method PrintDispls(displs: seq<int>, sep: string) returns (res: string)
    ensures res == ShowDispls(displs, sep)
  {
    hide Show;
    res := "";
    for i := 0 to |displs|
      invariant res + ShowDispls(displs[i..], sep) == ShowDispls(displs, sep)
    {
      assert displs[i..][1..] == displs[i + 1..];
      if i < |displs| - 1 {
        Regroup(res, Show(displs[i]), sep, ShowDispls(displs[i + 1..], sep));
        res := res + Show(displs[i]) + sep;
      } else {
        res := res + Show(displs[i]);
      }
    }
  }

  lemma Regroup(a: string, b: string, c: string, d: string)
    ensures a + (b + c + d) == a + b + c + d
  {}

  /** The loop of HIndexedDatatype::toString. */
  method PrintEntries(entries: seq<Entry>, sep: string) returns (res: string)
    ensures res == ShowEntries(entries, sep)
  {
    hide ShowEntry;
    res := "";
    for i := 0 to |entries|
      invariant res + ShowEntries(entries[i..], sep) == ShowEntries(entries, sep)
    {
      assert entries[i..][1..] == entries[i + 1..];
      if i < |entries| - 1 {
        Regroup(res, ShowEntry(entries[i]), sep, ShowEntries(entries[i + 1..], sep));
        res := res + ShowEntry(entries[i]) + sep;
      } else {
        res := res + ShowEntry(entries[i]);
      }
    }
  }

  // ----- parsing (parser.ypp) -----

  /** Endless: a range whose action would loop for ever. */
  datatype Parsed<T> = Ok(value: T, rest: seq<Token>) | Error | Endless

  predicate Next(ts: seq<Token>, t: Token) { ts != [] && ts[0] == t }
  predicate NextNum(ts: seq<Token>) { ts != [] && ts[0].Num? }

  function Expect(ts: seq<Token>, c: char): (r: Parsed<()>)
    ensures r.Ok? ==> |r.rest| < |ts|
  {
    if Next(ts, Sym(c)) then Ok((), ts[1..]) else Error
  }

  function ParseNum(ts: seq<Token>): (r: Parsed<int>)
    ensures r.Ok? ==> |r.rest| < |ts|
  {
    if NextNum(ts) then Ok(ts[0].value, ts[1..]) else Error
  }

  datatype Range = Range(start: int, stride: int, stop: int)

  /** NUM or NUM ':' NUM ':' NUM. */
  function ParseRange(ts: seq<Token>): (r: Parsed<Range>)
    ensures r.Ok? ==> |r.rest| < |ts|
  {
    if !NextNum(ts) then Error
    else if !Next(ts[1..], Sym(':')) then Ok(Range(ts[0].value, 1, ts[0].value), ts[1..])
    else if |ts| >= 5 && ts[2].Num? && ts[3] == Sym(':') && ts[4].Num? then
      Ok(Range(ts[0].value, ts[2].value, ts[4].value), ts[5..])
    else Error
  }

  /** The values of `for (x = start; x <= stop; x += stride)`. */
  function Values(r: Range): seq<int>
    requires Finite(r)
    decreases if r.start > r.stop then 0 else r.stop - r.start + 1
  {
    if r.start > r.stop then [] else [r.start] + Values(r.(start := r.start + r.stride))
  }

  predicate Finite(r: Range) { r.stride >= 1 || r.start > r.stop }

  /** The values of a range whose loop is entered only if it ends. */
  function Reached(r: Range): seq<int> { if Finite(r) then Values(r) else [] }

  /** Whether createVecs runs into a loop that does not end. */
  predicate Loops(x: Ranges, bases: seq<Datatype>) {
    bases != [] && (!Finite(x.count)
      || (Values(x.count) != [] && (!Finite(x.blocklen) || (Values(x.blocklen) != [] && !Finite(x.stride)))))
  }

  /** Displacements, separated by an optional comma. */
  function ParseDispls(ts: seq<Token>): (r: Parsed<seq<int>>)
    ensures r.Ok? ==> |r.rest| < |ts| && |r.value| >= 1
    decreases |ts|
  {
    if !NextNum(ts) then Error
    else if Next(ts[1..], Sym(',')) then
      match ParseDispls(ts[2..]) case Ok(ds, rest) => Ok([ts[0].value] + ds, rest) case e => e
    else if NextNum(ts[1..]) then
      match ParseDispls(ts[1..]) case Ok(ds, rest) => Ok([ts[0].value] + ds, rest) case e => e
    else Ok([ts[0].value], ts[1..])
  }

  /** Pairs displ ',' blocklen, separated by an optional semicolon. */
  function ParseEntries(ts: seq<Token>): (r: Parsed<seq<Entry>>)
    ensures r.Ok? ==> |r.rest| < |ts| && |r.value| >= 1
    decreases |ts|
  {
    if !(NextNum(ts) && Next(ts[1..], Sym(',')) && NextNum(ts[2..])) then Error
    else
      var e := Entry(ts[0].value, ts[2].value);
      var rest := ts[3..];
      if Next(rest, Sym(';')) then
        match ParseEntries(rest[1..]) case Ok(es, rest) => Ok([e] + es, rest) case e => e
      else if NextNum(rest) then
        match ParseEntries(rest) case Ok(es, rest) => Ok([e] + es, rest) case e => e
      else Ok([e], rest)
  }

  datatype Ranges = Ranges(count: Range, blocklen: Range, stride: Range)

  /** Three ranges, separated by commas or by nothing, in parentheses. */
  function ParseRanges(ts: seq<Token>): (r: Parsed<Ranges>)
    ensures r.Ok? ==> |r.rest| < |ts|
  {
    match Expect(ts, '(') case Error => Error case Endless => Endless case Ok(_, ts0) =>
    match ParseRange(ts0) case Error => Error case Endless => Endless case Ok(x, ts1) =>
    var commas := Next(ts1, Sym(','));
    match ParseRange(if commas then ts1[1..] else ts1) case Error => Error case Endless => Endless case Ok(y, ts2) =>
    if commas != Next(ts2, Sym(',')) then Error else
    match ParseRange(if commas then ts2[1..] else ts2) case Error => Error case Endless => Endless case Ok(z, ts3) =>
    match Expect(ts3, ')') case Error => Error case Endless => Endless case Ok(_, ts4) =>
    Ok(Ranges(x, y, z), ts4)
  }

  function Contiguouses(counts: seq<int>, base: Datatype): seq<Datatype> {
    if counts == [] then [] else [Contiguous(counts[0], base)] + Contiguouses(counts[1..], base)
  }

  function AllContiguous(counts: seq<int>, bases: seq<Datatype>): seq<Datatype> {
    if bases == [] then [] else Contiguouses(counts, bases[0]) + AllContiguous(counts, bases[1..])
  }

  // createVecs: for each subtype, count, blocklen and stride, in this nesting

  function Vec(h: bool, count: int, blocklen: int, stride: int, base: Datatype): Datatype {
    if h then HVector(count, blocklen, stride, base) else Vector(count, blocklen, stride, base)
  }

  function VecStrides(h: bool, count: int, blocklen: int, strides: seq<int>, base: Datatype): seq<Datatype> {
    if strides == [] then []
    else [Vec(h, count, blocklen, strides[0], base)] + VecStrides(h, count, blocklen, strides[1..], base)
  }

  function VecBlocklens(h: bool, count: int, blocklens: seq<int>, strides: seq<int>, base: Datatype): seq<Datatype> {
    if blocklens == [] then []
    else VecStrides(h, count, blocklens[0], strides, base) + VecBlocklens(h, count, blocklens[1..], strides, base)
  }

  function VecCounts(h: bool, counts: seq<int>, blocklens: seq<int>, strides: seq<int>, base: Datatype): seq<Datatype> {
    if counts == [] then []
    else VecBlocklens(h, counts[0], blocklens, strides, base) + VecCounts(h, counts[1..], blocklens, strides, base)
  }

  function Vecs(h: bool, counts: seq<int>, blocklens: seq<int>, strides: seq<int>,
                bases: seq<Datatype>): seq<Datatype> {
    if bases == [] then []
    else VecCounts(h, counts, blocklens, strides, bases[0]) + Vecs(h, counts, blocklens, strides, bases[1..])
  }

  /** '[' datatype ']' */
  function ParseBase(ts: seq<Token>): (r: Parsed<seq<Datatype>>)
    ensures r.Ok? ==> |r.rest| < |ts|
    decreases |ts|, 0
  {
    match Expect(ts, '[') case Error => Error case Endless => Endless case Ok(_, ts1) =>
    match ParseDatatype(ts1) case Error => Error case Endless => Endless case Ok(bases, ts2) =>
    match Expect(ts2, ']') case Error => Error case Endless => Endless case Ok(_, ts3) =>
    Ok(bases, ts3)
  }

  function OnBases(bases: seq<Datatype>, f: Datatype -> Datatype): seq<Datatype> {
    seq(|bases|, i requires 0 <= i < |bases| => f(bases[i]))
  }

  /** The types denoted by one datatype; ranges denote several. */
  function ParseDatatype(ts: seq<Token>): (r: Parsed<seq<Datatype>>)
    ensures r.Ok? ==> |r.rest| < |ts|
    decreases |ts|, 1
  {
    if ts == [] || !ts[0].Key? then Error
    else
      var ts0 := ts[1..];
      match ts[0].k
      case Prim(p) => Ok([Primitive(p)], ts0)
      case CTG => ParseContiguous(ts0)
      case VEC => ParseVector(ts0, false)
      case HVEC => ParseVector(ts0, true)
      case IDXB => ParseIndexedBlock(ts0)
      case HIDX => ParseHIndexed(ts0)
      case RESIZED => ParseResized(ts0)
      case STRUCT => Error   // a token without a rule
  }

  function ParseContiguous(ts: seq<Token>): (r: Parsed<seq<Datatype>>)
    ensures r.Ok? ==> |r.rest| < |ts|
    decreases |ts|, 2
  {
    match Expect(ts, '(') case Error => Error case Endless => Endless case Ok(_, ts1) =>
    match ParseRange(ts1) case Error => Error case Endless => Endless case Ok(x, ts2) =>
    match Expect(ts2, ')') case Error => Error case Endless => Endless case Ok(_, ts3) =>
    match ParseBase(ts3) case Error => Error case Endless => Endless case Ok(bases, ts4) =>
    if bases != [] && !Finite(x) then Endless else Ok(AllContiguous(Reached(x), bases), ts4)
  }

  function ParseVector(ts: seq<Token>, h: bool): (r: Parsed<seq<Datatype>>)
    ensures r.Ok? ==> |r.rest| < |ts|
    decreases |ts|, 2
  {
    match ParseRanges(ts) case Error => Error case Endless => Endless case Ok(x, ts1) =>
    match ParseBase(ts1) case Error => Error case Endless => Endless case Ok(bases, ts2) =>
    if Loops(x, bases) then Endless
    else Ok(Vecs(h, Reached(x.count), Reached(x.blocklen), Reached(x.stride), bases), ts2)
  }

  function ParseIndexedBlock(ts: seq<Token>): (r: Parsed<seq<Datatype>>)
    ensures r.Ok? ==> |r.rest| < |ts|
    decreases |ts|, 2
  {
    match Expect(ts, '(') case Error => Error case Endless => Endless case Ok(_, ts1) =>
    match ParseNum(ts1) case Error => Error case Endless => Endless case Ok(blocklen, ts2) =>
    match Expect(ts2, ':') case Error => Error case Endless => Endless case Ok(_, ts3) =>
    match ParseDispls(ts3) case Error => Error case Endless => Endless case Ok(displs, ts4) =>
    match Expect(ts4, ')') case Error => Error case Endless => Endless case Ok(_, ts5) =>
    match ParseBase(ts5) case Error => Error case Endless => Endless case Ok(bases, ts6) =>
    Ok(OnBases(bases, base => IndexedBlock(blocklen, displs, base)), ts6)
  }

  function ParseHIndexed(ts: seq<Token>): (r: Parsed<seq<Datatype>>)
    ensures r.Ok? ==> |r.rest| < |ts|
    decreases |ts|, 2
  {
    match Expect(ts, '(') case Error => Error case Endless => Endless case Ok(_, ts1) =>
    match ParseEntries(ts1) case Error => Error case Endless => Endless case Ok(entries, ts2) =>
    match Expect(ts2, ')') case Error => Error case Endless => Endless case Ok(_, ts3) =>
    match ParseBase(ts3) case Error => Error case Endless => Endless case Ok(bases, ts4) =>
    Ok(OnBases(bases, base => HIndexed(entries, base)), ts4)
  }

  function ParseResized(ts: seq<Token>): (r: Parsed<seq<Datatype>>)
    ensures r.Ok? ==> |r.rest| < |ts|
    decreases |ts|, 2
  {
    match Expect(ts, '(') case Error => Error case Endless => Endless case Ok(_, ts1) =>
    match ParseNum(ts1) case Error => Error case Endless => Endless case Ok(lb, ts2) =>
    match Expect(ts2, ',') case Error => Error case Endless => Endless case Ok(_, ts3) =>
    match ParseNum(ts3) case Error => Error case Endless => Endless case Ok(extent, ts4) =>
    match Expect(ts4, ')') case Error => Error case Endless => Endless case Ok(_, ts5) =>
    match ParseBase(ts5) case Error => Error case Endless => Endless case Ok(bases, ts6) =>
    Ok(OnBases(bases, base => Resized(lb, extent, base)), ts6)
  }

  /** input: one or more datatypes up to the end of the file. */
  function ParseInput(ts: seq<Token>): (r: Parsed<seq<Datatype>>)
    decreases |ts|
  {
    match ParseDatatype(ts) case Error => Error case Endless => Endless case Ok(types, rest) =>
    if rest == [] then Ok(types, [])
    else match ParseInput(rest) case Ok(more, _) => Ok(types + more, []) case e => e
  }
}
