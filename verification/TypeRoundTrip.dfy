/** Parsing undoes printing, exactly for the trees that the grammar can express. */
module TypeRoundTrip {
  import opened Datatypes
  import opened Wellformed
  import opened TypeLanguage

  // ----- lexing what was printed -----

  lemma SpellingsDiffer(k: Keyword, j: Keyword)
    requires k != j
    ensures |Spelling(k)| >= 2 && |Spelling(j)| >= 2
    ensures Spelling(k)[0] != Spelling(j)[0] || Spelling(k)[1] != Spelling(j)[1]
  {}

  lemma OnePrefix(x: string, a: string, b: string)
    requires StartsWith(x, a) && |a| >= 2 && |b| >= 2 && (a[0] != b[0] || a[1] != b[1])
    ensures !StartsWith(x, b)
  {
    assert a[0] == x[..|a|][0] && a[1] == x[..|a|][1];
    assert |b| <= |x| ==> x[..|b|][0] == x[0] && x[..|b|][1] == x[1];
  }

  lemma {:induction false} OnlyKeyword(x: string, k: Keyword, ks: seq<Keyword>)
    requires k in ks && StartsWith(x, Spelling(k))
    ensures KeywordAt(x, ks) == Some(k)
    decreases |ks|
  {
    var j := ks[0];
    if j != k {
      SpellingsDiffer(k, j);
      OnePrefix(x, Spelling(k), Spelling(j));
      OnlyKeyword(x, k, ks[1..]);
    }
  }

  lemma EveryKeyword(k: Keyword)
    ensures k in KEYWORDS
    ensures var c := Spelling(k)[0]; !IsSpace(c) && !IsDigit(c) && !IsSym(c) && c != '-' && c != '/'
  {
    if k.Prim? {
      var i := match k.p case BYTE => 0 case CHAR => 1 case INT => 2 case DOUBLE => 3 case FLOAT => 4;
      assert KEYWORDS[i] == k;
    } else {
      var i := match k
               case CTG => 5 case VEC => 6 case HVEC => 7 case HIDX => 8 case IDXB => 9 case STRUCT => 10 case _ => 11;
      assert KEYWORDS[i] == k;
    }
  }

  lemma LexKeyword(k: Keyword, s: string)
    ensures Lex(Spelling(k) + s) == [Key(k)] + Lex(s)
  {
    hide Spelling, KEYWORDS;
    var x := Spelling(k) + s;
    EveryKeyword(k);
    assert x[..|Spelling(k)|] == Spelling(k) && x[|Spelling(k)|..] == s && x[0] == Spelling(k)[0];
    OnlyKeyword(x, k, KEYWORDS);
  }

  lemma LexSym(c: char, s: string)
    requires IsSym(c)
    ensures Lex([c] + s) == [Sym(c)] + Lex(s)
  {
    hide KeywordAt, NumberOf, DigitRun, LineLength, StartsWith;
    assert ([c] + s)[1..] == s && !StartsWith([c] + s, "//") by { OnePrefixFirst([c] + s, "//"); }
  }

  lemma OnePrefixFirst(x: string, b: string)
    requires x != [] && b != [] && x[0] != b[0]
    ensures !StartsWith(x, b)
  {
    assert |b| <= |x| ==> x[..|b|][0] == x[0];
  }

  lemma LexSpace(c: char, s: string)
    requires IsSpace(c)
    ensures Lex([c] + s) == Lex(s)
  {
    assert ([c] + s)[1..] == s;
  }

  predicate NoDigit(s: string) { s == [] || !IsDigit(s[0]) }

  lemma {:induction false} DigitsAreDigits(n: nat)
    ensures forall i :: 0 <= i < |Digits(n)| ==> IsDigit(Digits(n)[i])
    ensures NumberOf(Digits(n)) == n
  {
    if n >= 10 {
      DigitsAreDigits(n / 10);
      var last := ('0' as int + n % 10) as char;
      assert Digits(n) == Digits(n / 10) + [last];
      assert Digits(n)[..|Digits(n)| - 1] == Digits(n / 10);
    } else {
      assert Digits(n)[..0] == [];
    }
  }

  lemma {:induction false} RunOfDigits(d: string, s: string)
    requires (forall i :: 0 <= i < |d| ==> IsDigit(d[i])) && NoDigit(s)
    ensures DigitRun(d + s) == |d|
  {
    if d != [] {
      assert (d + s)[1..] == d[1..] + s;
      RunOfDigits(d[1..], s);
    } else {
      assert d + s == s;
    }
  }

  lemma LexDigits(d: string, s: string)
    requires d != [] && (forall i :: 0 <= i < |d| ==> IsDigit(d[i])) && NoDigit(s)
    ensures Lex(d + s) == [Num(Atoi(NumberOf(d)))] + Lex(s)
    ensures Lex("-" + (d + s)) == [Num(Atoi(-NumberOf(d)))] + Lex(s)
  {
    hide NumberOf, Atoi, KeywordAt, DigitRun, LineLength, StartsWith;
    RunOfDigits(d, s);
    OnePrefixFirst(d + s, "//");
    OnePrefixFirst("-" + (d + s), "//");
    assert (d + s)[..|d|] == d && (d + s)[|d|..] == s && (d + s)[0] == d[0];
    assert ("-" + (d + s))[1..] == d + s;
  }

  lemma LexNum(n: int, s: string)
    requires NoDigit(s)
    ensures Lex(Show(n) + s) == [Num(Atoi(n))] + Lex(s)
  {
    hide Lex, Digits, NumberOf, Atoi;
    var m := if n < 0 then -n else n;
    DigitsAreDigits(m);
    LexDigits(Digits(m), s);
    if n < 0 { assert Show(n) + s == "-" + (Digits(m) + s); }
  }

  // ----- parsing one constructor -----

  /** What a base in brackets parses to, from what the base parses to. */
  function Bracketed(inner: Parsed<seq<Datatype>>): Parsed<seq<Datatype>> {
    match inner
    case Ok(bases, rest) => if Next(rest, Sym(']')) then Ok(bases, rest[1..]) else Error
    case e => e
  }

  lemma ParseBracketed(b: string)
    ensures ParseBase(Lex("[" + b)) == Bracketed(ParseDatatype(Lex(b)))
  {
    hide Lex, ParseDatatype;
    LexSym('[', b);
    assert ([Sym('[')] + Lex(b))[1..] == Lex(b);
  }

  predicate Parses(t: Datatype, summary: bool)
    decreases t
  {
    match t
    case Primitive(_) => true
    case Contiguous(_, base) => Parses(base, summary)
    case Vector(_, _, _, base) => Parses(base, summary)
    case HVector(_, _, _, base) => Parses(base, summary)
    case IndexedBlock(_, displs, base) => !summary && displs != [] && Parses(base, summary)
    case HIndexed(entries, base) => entries != [] && Parses(base, summary)
    case Struct(_) => false
    case Resized(_, _, base) => Parses(base, summary)
  }

  /** t with every number cut to an `int`. */
  function Truncated(t: Datatype): Datatype
    decreases t
  {
    match t
    case Primitive(_) => t
    case Contiguous(count, base) => Contiguous(Atoi(count), Truncated(base))
    case Vector(count, blocklen, stride, base) => Vector(Atoi(count), Atoi(blocklen), Atoi(stride), Truncated(base))
    case HVector(count, blocklen, stride, base) => HVector(Atoi(count), Atoi(blocklen), Atoi(stride), Truncated(base))
    case IndexedBlock(blocklen, displs, base) => IndexedBlock(Atoi(blocklen), AllTruncated(displs), Truncated(base))
    case HIndexed(entries, base) => HIndexed(EntriesTruncated(entries), Truncated(base))
    case Struct(_) => t
    case Resized(lb, extent, base) => Resized(Atoi(lb), Atoi(extent), Truncated(base))
  }

  function AllTruncated(xs: seq<int>): seq<int> {
    if xs == [] then [] else [Atoi(xs[0])] + AllTruncated(xs[1..])
  }

  function EntriesTruncated(es: seq<Entry>): seq<Entry> {
    if es == [] then [] else [Entry(Atoi(es[0].displ), Atoi(es[0].blocklen))] + EntriesTruncated(es[1..])
  }

  /** The result of parsing the text of t, when `rest` follows it. */
  ghost predicate Reads(text: string, rest: string, t: Datatype, ok: bool) {
    ParseDatatype(Lex(text + rest)) == if ok then Ok([Truncated(t)], Lex(rest)) else Error
  }

  /** What the parser sees after an opening keyword. */
  lemma AfterKeyword(k: Keyword, s: string)
    ensures Lex(Spelling(k) + s) == [Key(k)] + Lex(s) && ([Key(k)] + Lex(s))[1..] == Lex(s)
  {
    hide Lex;
    LexKeyword(k, s);
  }

  lemma AfterSym(c: char, s: string)
    requires IsSym(c)
    ensures Lex([c] + s) == [Sym(c)] + Lex(s) && ([Sym(c)] + Lex(s))[1..] == Lex(s)
  {
    hide Lex;
    LexSym(c, s);
  }

  lemma AfterNum(n: int, s: string)
    requires NoDigit(s)
    ensures Lex(Show(n) + s) == [Num(Atoi(n))] + Lex(s) && ([Num(Atoi(n))] + Lex(s))[1..] == Lex(s)
  {
    hide Lex;
    LexNum(n, s);
  }

  /** A single number is a range of one value. */
  lemma SingleRange(n: int, s: string)
    requires NoDigit(s) && !Next(Lex(s), Sym(':'))
    ensures ParseRange(Lex(Show(n) + s)) == Ok(Range(Atoi(n), 1, Atoi(n)), Lex(s))
    ensures Values(Range(Atoi(n), 1, Atoi(n))) == [Atoi(n)]
  {
    hide Lex, Show, Atoi;
    AfterNum(n, s);
    Ones(Atoi(n));
  }

  /** The base in brackets, closed, followed by rest. */
  lemma ClosedBase(b: string, rest: string, base: Datatype, ok: bool)
    requires Reads(b, "]" + rest, base, ok)
    ensures ParseBase(Lex("[" + (b + ("]" + rest)))) == if ok then Ok([Truncated(base)], Lex(rest)) else Error
  {
    hide Lex, ParseDatatype, Truncated;
    ParseBracketed(b + ("]" + rest));
    AfterSym(']', rest);
  }

  lemma ReadContiguous(count: int, b: string, rest: string, base: Datatype, ok: bool)
    requires Reads(b, "]" + rest, base, ok)
    ensures Reads("ctg(" + Show(count) + ")[" + b + "]", rest, Contiguous(count, base), ok)
  {
    hide Lex, Show, ParseBase, ParseRange, Atoi;
    var s5 := "[" + (b + ("]" + rest));
    var s4 := ")" + s5;
    var s3 := Show(count) + s4;
    var s2 := "(" + s3;
    assert "ctg(" + Show(count) + ")[" + b + "]" + rest == "ctg" + s2;
    assert Spelling(CTG) == "ctg";
    AfterKeyword(CTG, s2);
    AfterSym('(', s3);
    AfterSym(')', s5);
    SingleRange(count, s4);
    ClosedBase(b, rest, base, ok);
    SingleContiguous(Atoi(count), Truncated(base));
    assert ParseDatatype([Key(CTG)] + Lex(s2)) == ParseContiguous(Lex(s2));
  }

  lemma SingleContiguous(count: int, base: Datatype)
    ensures AllContiguous([count], [base]) == [Contiguous(count, base)]
  {
    assert Contiguouses([count][1..], base) == [] && AllContiguous([count], [base][1..]) == [];
  }

  /** The separator of numbers in vec and hvec. */
  function Sep(summary: bool): string { if summary then "," else " " }

  lemma AfterSep(summary: bool, n: int, s: string)
    requires NoDigit(s)
    ensures var ts := Lex(Sep(summary) + (Show(n) + s));
      && Next(ts, Sym(',')) == summary && !Next(ts, Sym(':')) && (summary ==> |ts| >= 1)
      && (if summary then ts[1..] else ts) == Lex(Show(n) + s)
  {
    hide Lex, Show;
    AfterNum(n, s);
    if summary { AfterSym(',', Show(n) + s); } else { LexSpace(' ', Show(n) + s); }
  }

  lemma SepIsNoDigit(summary: bool, s: string)
    ensures NoDigit(Sep(summary) + s)
  {}

  lemma ReadRanges(summary: bool, x: int, y: int, z: int, s: string)
    ensures ParseRanges(Lex("(" + (Show(x) + (Sep(summary) + (Show(y) + (Sep(summary) + (Show(z) + (")" + s))))))))
         == Ok(Ranges(Range(Atoi(x), 1, Atoi(x)), Range(Atoi(y), 1, Atoi(y)), Range(Atoi(z), 1, Atoi(z))), Lex(s))
  {
    hide Atoi, Lex, Show, Sep, ParseRange;
    var s5 := ")" + s;
    var s4 := Sep(summary) + (Show(z) + s5);
    var s3 := Sep(summary) + (Show(y) + s4);
    AfterSym('(', Show(x) + s3);
    SepIsNoDigit(summary, Show(z) + s5);
    SepIsNoDigit(summary, Show(y) + s4);
    AfterSep(summary, y, s4);
    AfterSep(summary, z, s5);
    AfterSym(')', s);
    SingleRange(x, s3);
    SingleRange(y, s4);
    SingleRange(z, s5);
  }

  lemma SingleVec(h: bool, x: int, y: int, z: int, base: Datatype)
    ensures Vecs(h, [x], [y], [z], [base]) == [Vec(h, x, y, z, base)]
  {
    assert VecStrides(h, x, y, [z][1..], base) == [] && VecBlocklens(h, x, [y][1..], [z], base) == [];
    assert VecCounts(h, [x][1..], [y], [z], base) == [] && Vecs(h, [x], [y], [z], [base][1..]) == [];
  }

  lemma VecText(h: bool, x: string, y: string, z: string, sep: string, b: string, rest: string)
    ensures (if h then "hvec(" else "vec(") + x + sep + y + sep + z + ")[" + b + "]" + rest
         == Spelling(if h then HVEC else VEC)
          + ("(" + (x + (sep + (y + (sep + (z + (")" + ("[" + (b + ("]" + rest))))))))))
  {
    var k := Spelling(if h then HVEC else VEC);
    assert (if h then "hvec(" else "vec(") == k + "(" && ")[" == ")" + "[";
    var p0 := k + "(";
    var p1 := p0 + x;
    var p2 := p1 + sep;
    var p3 := p2 + y;
    var p4 := p3 + sep;
    var p5 := p4 + z;
    var r0 := "]" + rest;
    var r1 := b + r0;
    var r2 := "[" + r1;
    var r3 := ")" + r2;
    var r4 := z + r3;
    var r5 := sep + r4;
    var r6 := y + r5;
    var r7 := sep + r6;
    Assoc(p5 + ")[" + b, "]", rest);
    Assoc(p5 + ")[", b, r0);
    Assoc(p5, ")[", r1);
    Assoc(")", "[", r1);
    Assoc(p4, z, r3);
    Assoc(p3, sep, r4);
    Assoc(p2, y, r5);
    Assoc(p1, sep, r6);
    Assoc(p0, x, r7);
    Assoc(k, "(", x + r7);
  }

  lemma Assoc(a: string, b: string, c: string)
    ensures a + b + c == a + (b + c)
  {}

  lemma ReadVec(h: bool, summary: bool, x: int, y: int, z: int, b: string, rest: string, base: Datatype, ok: bool)
    requires Reads(b, "]" + rest, base, ok)
    ensures Reads((if h then "hvec(" else "vec(") + Show(x) + Sep(summary) + Show(y) + Sep(summary) + Show(z)
                  + ")[" + b + "]",
                  rest, Vec(h, x, y, z, base), ok)
  {
    hide Lex, Show, Sep, ParseBase, ParseRanges, Vecs, Spelling, Atoi;
    var s2 := "[" + (b + ("]" + rest));
    var s1 := "(" + (Show(x) + (Sep(summary) + (Show(y) + (Sep(summary) + (Show(z) + (")" + s2))))));
    var k := if h then HVEC else VEC;
    VecText(h, Show(x), Show(y), Show(z), Sep(summary), b, rest);
    AfterKeyword(k, s1);
    ReadRanges(summary, x, y, z, s2);
    ClosedBase(b, rest, base, ok);
    SingleVec(h, Atoi(x), Atoi(y), Atoi(z), Truncated(base));
    Ones(Atoi(x)); Ones(Atoi(y)); Ones(Atoi(z));
    assert ParseDatatype([Key(k)] + Lex(s1)) == ParseVector(Lex(s1), h);
  }

  lemma Ones(x: int)
    ensures Values(Range(x, 1, x)) == [x]
  {
    assert Values(Range(x + 1, 1, x)) == [];
  }

  lemma {:induction false} ReadDispls(displs: seq<int>, rest: string)
    requires displs != []
    ensures ParseDispls(Lex(ShowDispls(displs, " ") + (")" + rest))) == Ok(AllTruncated(displs), Lex(")" + rest))
    ensures NextNum(Lex(ShowDispls(displs, " ") + (")" + rest)))
  {
    hide Lex, Show, Atoi;
    var s := ")" + rest;
    AfterSym(')', rest);
    if |displs| == 1 {
      AfterNum(displs[0], s);
      assert AllTruncated(displs) == [Atoi(displs[0])] by { assert displs[1..] == []; }
    } else {
      var tail := ShowDispls(displs[1..], " ") + s;
      assert ShowDispls(displs, " ") + s == Show(displs[0]) + (" " + tail);
      AfterNum(displs[0], " " + tail);
      LexSpace(' ', tail);
      ReadDispls(displs[1..], rest);
    }
  }

  lemma NoDispls(rest: string)
    ensures ParseDispls(Lex(ShowDispls([], " ") + (")" + rest))) == Error
  {
    hide Lex;
    assert ShowDispls([], " ") + (")" + rest) == ")" + rest;
    AfterSym(')', rest);
  }

  lemma ReadIndexedBlock(blocklen: int, displs: seq<int>, b: string, rest: string, base: Datatype, ok: bool)
    requires Reads(b, "]" + rest, base, ok)
    ensures Reads("idxb(" + (Show(blocklen) + ":" + ShowDispls(displs, " ")) + ")[" + b + "]", rest,
                  IndexedBlock(blocklen, displs, base), displs != [] && ok)
  {
    hide Lex, Show, ParseBase, ParseDispls, ShowDispls, AllTruncated, Atoi;
    var s5 := "[" + (b + ("]" + rest));
    var s4 := ShowDispls(displs, " ") + (")" + s5);
    var s3 := ":" + s4;
    var s2 := Show(blocklen) + s3;
    var s1 := "(" + s2;
    assert "idxb(" + (Show(blocklen) + ":" + ShowDispls(displs, " ")) + ")[" + b + "]" + rest == "idxb" + s1;
    assert Spelling(IDXB) == "idxb";
    AfterKeyword(IDXB, s1);
    AfterSym('(', s2);
    AfterNum(blocklen, s3);
    AfterSym(':', s4);
    assert ParseDatatype([Key(IDXB)] + Lex(s1)) == ParseIndexedBlock(Lex(s1));
    if displs == [] {
      NoDispls(s5);
    } else {
      ReadDispls(displs, s5);
      AfterSym(')', s5);
      ClosedBase(b, rest, base, ok);
      var n, ds, b' := Atoi(blocklen), AllTruncated(displs), Truncated(base);
      assert OnBases([b'], t => IndexedBlock(n, ds, t)) == [IndexedBlock(n, ds, b')];
    }
  }

  /** The summary form of idxb gives the count instead of the displacements; it never parses. */
  lemma ReadIndexedBlockSummary(n: int, blocklen: int, b: string, rest: string, t: Datatype)
    ensures Reads("idxb(" + (Show(n) + "," + Show(blocklen)) + ")[" + b + "]", rest, t, false)
  {
    hide Lex, Show, ParseBase, ParseDispls;
    var s3 := "," + (Show(blocklen) + (")[" + b + "]" + rest));
    var s2 := Show(n) + s3;
    var s1 := "(" + s2;
    assert "idxb(" + (Show(n) + "," + Show(blocklen)) + ")[" + b + "]" + rest == "idxb" + s1;
    assert Spelling(IDXB) == "idxb";
    AfterKeyword(IDXB, s1);
    AfterSym('(', s2);
    AfterNum(n, s3);
    AfterSym(',', Show(blocklen) + (")[" + b + "]" + rest));
    assert ParseDatatype([Key(IDXB)] + Lex(s1)) == ParseIndexedBlock(Lex(s1));
  }

  function EntrySep(summary: bool): string { if summary then ";" else " " }

  lemma ReadEntry(e: Entry, s: string)
    requires NoDigit(s)
    ensures var ts := Lex(ShowEntry(e) + s);
      && |ts| >= 3 && ts[0] == Num(Atoi(e.displ)) && ts[1] == Sym(',') && ts[2] == Num(Atoi(e.blocklen))
      && ts[3..] == Lex(s)
  {
    hide Lex, Show, Atoi;
    var s2 := Show(e.blocklen) + s;
    assert ShowEntry(e) + s == Show(e.displ) + ("," + s2);
    AfterNum(e.displ, "," + s2);
    AfterSym(',', s2);
    AfterNum(e.blocklen, s);
    var ts := Lex(ShowEntry(e) + s);
    assert ts[1..] == Lex("," + s2) && ts[1..][1..] == Lex(s2) && ts[2..] == Lex(s2) && ts[3..] == Lex(s2)[1..];
  }

  lemma {:induction false} ReadEntries(entries: seq<Entry>, summary: bool, rest: string)
    requires entries != []
    ensures ParseEntries(Lex(ShowEntries(entries, EntrySep(summary)) + (")" + rest)))
         == Ok(EntriesTruncated(entries), Lex(")" + rest))
    ensures NextNum(Lex(ShowEntries(entries, EntrySep(summary)) + (")" + rest)))
    decreases |entries|
  {
    hide Lex, ShowEntry, Atoi;
    var s := ")" + rest;
    AfterSym(')', rest);
    if |entries| == 1 {
      ReadEntry(entries[0], s);
      assert EntriesTruncated(entries) == [Entry(Atoi(entries[0].displ), Atoi(entries[0].blocklen))] by {
        assert entries[1..] == [];
      }
    } else {
      var tail := ShowEntries(entries[1..], EntrySep(summary)) + s;
      var next := EntrySep(summary) + tail;
      assert ShowEntries(entries, EntrySep(summary)) + s == ShowEntry(entries[0]) + next;
      ReadEntry(entries[0], next);
      if summary { AfterSym(';', tail); } else { LexSpace(' ', tail); }
      ReadEntries(entries[1..], summary, rest);
    }
  }

  lemma NoEntries(sep: string, rest: string)
    ensures ParseEntries(Lex(ShowEntries([], sep) + (")" + rest))) == Error
  {
    hide Lex;
    assert ShowEntries([], sep) + (")" + rest) == ")" + rest;
    AfterSym(')', rest);
  }

  lemma ReadHIndexed(entries: seq<Entry>, summary: bool, b: string, rest: string, base: Datatype, ok: bool)
    requires Reads(b, "]" + rest, base, ok)
    ensures Reads("hidx(" + ShowEntries(entries, EntrySep(summary)) + ")[" + b + "]", rest,
                  HIndexed(entries, base), entries != [] && ok)
  {
    hide Lex, ParseBase, ParseEntries, ShowEntries, EntrySep, EntriesTruncated;
    var s3 := "[" + (b + ("]" + rest));
    var s2 := ShowEntries(entries, EntrySep(summary)) + (")" + s3);
    var s1 := "(" + s2;
    assert "hidx(" + ShowEntries(entries, EntrySep(summary)) + ")[" + b + "]" + rest == "hidx" + s1;
    assert Spelling(HIDX) == "hidx";
    AfterKeyword(HIDX, s1);
    AfterSym('(', s2);
    assert ParseDatatype([Key(HIDX)] + Lex(s1)) == ParseHIndexed(Lex(s1));
    if entries == [] {
      NoEntries(EntrySep(summary), s3);
    } else {
      ReadEntries(entries, summary, s3);
      AfterSym(')', s3);
      ClosedBase(b, rest, base, ok);
      var es, b' := EntriesTruncated(entries), Truncated(base);
      assert OnBases([b'], t => HIndexed(es, t)) == [HIndexed(es, b')];
    }
  }

  lemma ResizedTruncated(lb: int, extent: int, base: Datatype)
    ensures Truncated(Resized(lb, extent, base)) == Resized(Atoi(lb), Atoi(extent), Truncated(base))
  {}

  lemma ReadResized(lb: int, extent: int, b: string, rest: string, base: Datatype, ok: bool)
    requires Reads(b, "]" + rest, base, ok)
    ensures Reads("resized(" + Show(lb) + "," + Show(extent) + ")[" + b + "]", rest, Resized(lb, extent, base), ok)
  {
    hide Lex, Show, ParseBase, Atoi, Truncated;
    var s6 := "[" + (b + ("]" + rest));
    var s5 := ")" + s6;
    var s4 := Show(extent) + s5;
    var s3 := "," + s4;
    var s2 := Show(lb) + s3;
    var s1 := "(" + s2;
    assert "resized(" + Show(lb) + "," + Show(extent) + ")[" + b + "]" + rest == "resized" + s1;
    assert Spelling(RESIZED) == "resized";
    AfterKeyword(RESIZED, s1);
    AfterSym('(', s2);
    AfterNum(lb, s3);
    AfterSym(',', s4);
    AfterNum(extent, s5);
    AfterSym(')', s6);
    ClosedBase(b, rest, base, ok);
    assert ParseDatatype([Key(RESIZED)] + Lex(s1)) == ParseResized(Lex(s1));
    ResizedTruncated(lb, extent, base);
    var l, e, b' := Atoi(lb), Atoi(extent), Truncated(base);
    assert OnBases([b'], t => Resized(l, e, t)) == [Resized(l, e, b')];
  }

  lemma ReadStruct(body: string, rest: string, t: Datatype)
    ensures Reads("struct(" + body, rest, t, false)
  {
    hide Lex;
    var s := "(" + body + rest;
    assert "struct(" + body + rest == "struct" + s;
    assert Spelling(STRUCT) == "struct";
    AfterKeyword(STRUCT, s);
  }

  lemma ReadPrimitive(p: PrimitiveType, rest: string)
    ensures Reads(Spelling(Prim(p)), rest, Primitive(p), true)
  {
    hide Lex, Spelling;
    AfterKeyword(Prim(p), rest);
  }

  // ----- the round trip -----

  /** PARSING UNDOES PRINTING, whatever text follows: the printed tree parses to exactly itself, its numbers cut
      to `int`, if it has no struct and no empty index list (and, in the summary form, no indexed block), and is
      a syntax error otherwise. */
  lemma {:induction false} ParsePrinted(t: Datatype, summary: bool, rest: string)
    ensures Reads(ToString(t, summary), rest, t, Parses(t, summary))
    decreases t
  {
    hide Reads, Show, ShowDispls, ShowEntries, Spelling;
    match t
    case Primitive(p) => ReadPrimitive(p, rest);
    case Contiguous(count, base) =>
      ParsePrinted(base, summary, "]" + rest);
      ReadContiguous(count, ToString(base, summary), rest, base, Parses(base, summary));
    case Vector(count, blocklen, stride, base) =>
      ParsePrinted(base, summary, "]" + rest);
      ReadVec(false, summary, count, blocklen, stride, ToString(base, summary), rest, base, Parses(base, summary));
    case HVector(count, blocklen, stride, base) =>
      ParsePrinted(base, summary, "]" + rest);
      ReadVec(true, summary, count, blocklen, stride, ToString(base, summary), rest, base, Parses(base, summary));
    case IndexedBlock(blocklen, displs, base) =>
      ParsePrinted(base, summary, "]" + rest);
      if summary {
        ReadIndexedBlockSummary(|displs|, blocklen, ToString(base, summary), rest, t);
      } else {
        ReadIndexedBlock(blocklen, displs, ToString(base, summary), rest, base, Parses(base, summary));
      }
    case HIndexed(entries, base) =>
      ParsePrinted(base, summary, "]" + rest);
      ReadHIndexed(entries, summary, ToString(base, summary), rest, base, Parses(base, summary));
    case Struct(fields) =>
      var body := Show(|fields|) + ")" + ShowFields(fields, summary);
      assert ToString(t, summary) == "struct(" + body;
      ReadStruct(body, rest, t);
    case Resized(lb, extent, base) =>
      ParsePrinted(base, summary, "]" + rest);
      ReadResized(lb, extent, ToString(base, summary), rest, base, Parses(base, summary));
  }

  /** Every number of the tree is an `int`; the displacements of an hindexed type need not be. */
  predicate AllInts(t: Datatype)
    decreases t
  {
    match t
    case Primitive(_) => true
    case Contiguous(count, base) => Int32(count) && AllInts(base)
    case Vector(count, blocklen, stride, base) => Int32(count) && Int32(blocklen) && Int32(stride) && AllInts(base)
    case HVector(count, blocklen, stride, base) => Int32(count) && Int32(blocklen) && Int32(stride) && AllInts(base)
    case IndexedBlock(blocklen, displs, base) => Int32(blocklen) && (forall d <- displs :: Int32(d)) && AllInts(base)
    case HIndexed(entries, base) =>
      (forall e <- entries :: Int32(e.displ) && Int32(e.blocklen)) && AllInts(base)
    case Struct(_) => true
    case Resized(lb, extent, base) => Int32(lb) && Int32(extent) && AllInts(base)
  }

  /** So the tree itself comes back if and only if its numbers are all of type `int`. */
  lemma {:induction false} TruncatedExact(t: Datatype)
    ensures Truncated(t) == t <==> AllInts(t)
    decreases t
  {
    match t
    case Primitive(_) =>
    case Struct(_) =>
    case IndexedBlock(_, displs, base) => TruncatedExact(base); AllTruncatedExact(displs);
    case HIndexed(entries, base) => TruncatedExact(base); EntriesTruncatedExact(entries);
    case _ => TruncatedExact(t.base);
  }

  lemma AtoiExact(n: int)
    ensures Atoi(n) == n <==> Int32(n)
  {}

  lemma {:induction false} AllTruncatedExact(xs: seq<int>)
    ensures AllTruncated(xs) == xs <==> forall x <- xs :: Int32(x)
  {
    hide Atoi, Int32;
    if xs != [] {
      AllTruncatedExact(xs[1..]);
      AtoiExact(xs[0]);
      FirstAndRest(AllTruncated(xs), Atoi(xs[0]), AllTruncated(xs[1..]), xs);
      assert forall x :: x in xs <==> x == xs[0] || x in xs[1..];
    }
  }

  lemma {:induction false} EntriesTruncatedExact(es: seq<Entry>)
    ensures EntriesTruncated(es) == es <==> forall e <- es :: Int32(e.displ) && Int32(e.blocklen)
  {
    hide Atoi, Int32;
    if es != [] {
      EntriesTruncatedExact(es[1..]);
      AtoiExact(es[0].displ);
      AtoiExact(es[0].blocklen);
      FirstAndRest(EntriesTruncated(es), Entry(Atoi(es[0].displ), Atoi(es[0].blocklen)), EntriesTruncated(es[1..]), es);
      assert forall e :: e in es <==> e == es[0] || e in es[1..];
    }
  }

  lemma FirstAndRest<T>(s: seq<T>, first: T, rest: seq<T>, u: seq<T>)
    requires s == [first] + rest && u != []
    ensures s == u <==> first == u[0] && rest == u[1..]
  {
    assert s[0] == first && s[1..] == rest && u == [u[0]] + u[1..];
  }

  /** print() of each type, one on a line. */
  function PrintAll(types: seq<Datatype>, summary: bool): string {
    if types == [] then "" else ToString(types[0], summary) + "\n" + PrintAll(types[1..], summary)
  }

  function TreesTruncated(types: seq<Datatype>): seq<Datatype> {
    if types == [] then [] else [Truncated(types[0])] + TreesTruncated(types[1..])
  }

  lemma {:induction false} TreesTruncatedExact(types: seq<Datatype>)
    ensures TreesTruncated(types) == types <==> forall t <- types :: AllInts(t)
  {
    hide Truncated, AllInts;
    if types != [] {
      TruncatedExact(types[0]);
      TreesTruncatedExact(types[1..]);
      FirstAndRest(TreesTruncated(types), Truncated(types[0]), TreesTruncated(types[1..]), types);
      assert forall t :: t in types <==> t == types[0] || t in types[1..];
    }
  }

  /** A whole file of printed types reads back as the list of these types, if their numbers are of type `int`. */
  lemma {:induction false} ParsePrintedFile(types: seq<Datatype>, summary: bool)
    requires types != [] && forall i :: 0 <= i < |types| ==> Parses(types[i], summary)
    ensures ParseInput(Lex(PrintAll(types, summary))) == Ok(TreesTruncated(types), [])
    ensures ParseInput(Lex(PrintAll(types, summary))) == Ok(types, []) <==> forall t <- types :: AllInts(t)
    decreases |types|
  {
    hide AllInts, Truncated, ToString, Parses, ParseDatatype, Lex;
    var tail := PrintAll(types[1..], summary);
    var text := ToString(types[0], summary);
    assert PrintAll(types, summary) == text + ("\n" + tail);
    ParsePrinted(types[0], summary, "\n" + tail);
    LexSpace('\n', tail);
    TreesTruncatedExact(types);
    if |types| == 1 {
      NothingToLex();
      assert TreesTruncated(types) == [Truncated(types[0])] by { assert types[1..] == []; }
    } else {
      ParsePrintedFile(types[1..], summary);
      NotEmptyInput(Lex(tail));
    }
  }

  lemma NothingToLex()
    ensures Lex("") == []
  {}

  lemma NotEmptyInput(ts: seq<Token>)
    requires ParseInput(ts).Ok?
    ensures ts != []
  {}
}
