/** The list that a range denotes, position by position: which values, which types, how many and in which order. */
module Expansion {
  import opened Arithmetic
  import opened Datatypes
  import opened Wellformed
  import opened TypeLanguage
  import opened TypeRoundTrip

  /** The values are start, start + stride, ... in this order, up to the last that does not exceed stop. */
  lemma {:induction false} ValuesInOrder(r: Range)
    requires Finite(r)
    ensures var n := |Values(r)|;
      && (forall k :: 0 <= k < n ==> Values(r)[k] == r.start + k * r.stride)
      && (n == 0 <==> r.start > r.stop)
      && (n >= 1 ==> r.start + (n - 1) * r.stride <= r.stop < r.start + n * r.stride)
    decreases if r.start > r.stop then 0 else r.stop - r.start + 1
  {
    if r.start <= r.stop {
      var next := r.(start := r.start + r.stride);
      ValuesInOrder(next);
      var n := |Values(r)|;
      forall k | 0 <= k < n ensures Values(r)[k] == r.start + k * r.stride {
        if k > 0 { MulDistributes(k, 1, r.stride); }
      }
      MulDistributes(n - 1, 1, r.stride);
      MulDistributes(n, 1, r.stride);
    }
  }

  lemma {:induction false} ContiguousesAt(counts: seq<int>, base: Datatype)
    ensures |Contiguouses(counts, base)| == |counts|
    ensures forall k :: 0 <= k < |counts| ==> Contiguouses(counts, base)[k] == Contiguous(counts[k], base)
  {
    if counts != [] { ContiguousesAt(counts[1..], base); }
  }

  /** An element of the first part of a list of lists, or of the others. */
  lemma Part(s: int, k: int, n: int)
    requires s >= 1 && 0 <= k < n
    ensures (s - 1) * n + k == s * n + k - n && s * n + k >= n && (s - 1) * n + n == s * n
  {
    MulDistributes(s, 1, n);
    MulNonNegative(s - 1, n);
  }

  lemma Within(s: int, m: int, k: int, n: int)
    requires 0 <= s < m && 0 <= k < n
    ensures 0 <= s * n + k < m * n
  {
    MulNonNegative(s, n);
    MulNonNegative(m - 1 - s, n);
    MulDistributes(m, s + 1, n);
    MulDistributes(s, -1, n);
  }

  /** ctg: for each subtype, each count, in this nesting. */
  lemma {:induction false} AllContiguousLength(counts: seq<int>, bases: seq<Datatype>)
    ensures |AllContiguous(counts, bases)| == |bases| * |counts|
  {
    if bases != [] {
      ContiguousesAt(counts, bases[0]);
      AllContiguousLength(counts, bases[1..]);
      MulDistributes(|bases|, 1, |counts|);
    }
  }

  lemma {:induction false} AllContiguousAt(counts: seq<int>, bases: seq<Datatype>, s: int, k: int)
    requires 0 <= s < |bases| && 0 <= k < |counts|
    ensures 0 <= s * |counts| + k < |AllContiguous(counts, bases)| == |bases| * |counts|
    ensures AllContiguous(counts, bases)[s * |counts| + k] == Contiguous(counts[k], bases[s])
    decreases |bases|
  {
    AllContiguousLength(counts, bases);
    Within(s, |bases|, k, |counts|);
    ContiguousesAt(counts, bases[0]);
    if s > 0 {
      Part(s, k, |counts|);
      AllContiguousAt(counts, bases[1..], s - 1, k);
    }
  }

  // ----- createVecs -----

  lemma {:induction false} StridesAt(h: bool, count: int, blocklen: int, ss: seq<int>, base: Datatype)
    ensures |VecStrides(h, count, blocklen, ss, base)| == |ss|
    ensures forall k :: 0 <= k < |ss| ==>
      VecStrides(h, count, blocklen, ss, base)[k] == Vec(h, count, blocklen, ss[k], base)
  {
    if ss != [] { StridesAt(h, count, blocklen, ss[1..], base); }
  }

  lemma {:induction false} BlocklensLength(h: bool, count: int, bs: seq<int>, ss: seq<int>, base: Datatype)
    ensures |VecBlocklens(h, count, bs, ss, base)| == |bs| * |ss|
  {
    if bs != [] {
      StridesAt(h, count, bs[0], ss, base);
      BlocklensLength(h, count, bs[1..], ss, base);
      MulDistributes(|bs|, 1, |ss|);
    }
  }

  lemma {:induction false} BlocklensAt(h: bool, count: int, bs: seq<int>, ss: seq<int>, base: Datatype, b: int, k: int)
    requires 0 <= b < |bs| && 0 <= k < |ss|
    ensures 0 <= b * |ss| + k < |VecBlocklens(h, count, bs, ss, base)| == |bs| * |ss|
    ensures VecBlocklens(h, count, bs, ss, base)[b * |ss| + k] == Vec(h, count, bs[b], ss[k], base)
    decreases |bs|
  {
    BlocklensLength(h, count, bs, ss, base);
    Within(b, |bs|, k, |ss|);
    StridesAt(h, count, bs[0], ss, base);
    if b > 0 {
      Part(b, k, |ss|);
      BlocklensAt(h, count, bs[1..], ss, base, b - 1, k);
    }
  }

  lemma {:induction false} CountsLength(h: bool, cs: seq<int>, bs: seq<int>, ss: seq<int>, base: Datatype)
    ensures |VecCounts(h, cs, bs, ss, base)| == |cs| * (|bs| * |ss|)
  {
    if cs != [] {
      BlocklensLength(h, cs[0], bs, ss, base);
      CountsLength(h, cs[1..], bs, ss, base);
      MulDistributes(|cs|, 1, |bs| * |ss|);
    }
  }

  lemma {:induction false} CountsAt(h: bool, cs: seq<int>, bs: seq<int>, ss: seq<int>, base: Datatype, c: int, b: int,
                                    k: int)
    requires 0 <= c < |cs| && 0 <= b < |bs| && 0 <= k < |ss|
    ensures 0 <= c * (|bs| * |ss|) + (b * |ss| + k) < |VecCounts(h, cs, bs, ss, base)| == |cs| * (|bs| * |ss|)
    ensures VecCounts(h, cs, bs, ss, base)[c * (|bs| * |ss|) + (b * |ss| + k)] == Vec(h, cs[c], bs[b], ss[k], base)
    decreases |cs|
  {
    CountsLength(h, cs, bs, ss, base);
    BlocklensAt(h, cs[0], bs, ss, base, b, k);
    Within(c, |cs|, b * |ss| + k, |bs| * |ss|);
    if c > 0 {
      Part(c, b * |ss| + k, |bs| * |ss|);
      CountsAt(h, cs[1..], bs, ss, base, c - 1, b, k);
    }
  }

  lemma {:induction false} VecsLength(h: bool, cs: seq<int>, bs: seq<int>, ss: seq<int>, bases: seq<Datatype>)
    ensures |Vecs(h, cs, bs, ss, bases)| == |bases| * (|cs| * (|bs| * |ss|))
  {
    if bases != [] {
      CountsLength(h, cs, bs, ss, bases[0]);
      VecsLength(h, cs, bs, ss, bases[1..]);
      MulDistributes(|bases|, 1, |cs| * (|bs| * |ss|));
    }
  }

  /** vec and hvec: for each subtype, each count, each block length, each stride, in this nesting. */
  lemma {:induction false} VecsAt(h: bool, cs: seq<int>, bs: seq<int>, ss: seq<int>, bases: seq<Datatype>, s: int,
                                  c: int, b: int, k: int)
    requires 0 <= s < |bases| && 0 <= c < |cs| && 0 <= b < |bs| && 0 <= k < |ss|
    ensures var i := s * (|cs| * (|bs| * |ss|)) + (c * (|bs| * |ss|) + (b * |ss| + k));
      && 0 <= i < |Vecs(h, cs, bs, ss, bases)| == |bases| * (|cs| * (|bs| * |ss|))
      && Vecs(h, cs, bs, ss, bases)[i]
         == if h then HVector(cs[c], bs[b], ss[k], bases[s]) else Vector(cs[c], bs[b], ss[k], bases[s])
    decreases |bases|
  {
    hide VecCounts;
    var n, j := |cs| * (|bs| * |ss|), c * (|bs| * |ss|) + (b * |ss| + k);
    VecsLength(h, cs, bs, ss, bases);
    CountsAt(h, cs, bs, ss, bases[0], c, b, k);
    Within(s, |bases|, j, n);
    if s > 0 {
      Part(s, j, n);
      VecsAt(h, cs, bs, ss, bases[1..], s - 1, c, b, k);
    }
  }

  // ----- from the text -----

  /** start:stride:stop, in this order. */
  lemma RangeText(a: int, b: int, c: int, s: string)
    requires Int32(a) && Int32(b) && Int32(c) && NoDigit(s)
    ensures ParseRange(Lex(Show(a) + (":" + (Show(b) + (":" + (Show(c) + s)))))) == Ok(Range(a, b, c), Lex(s))
  {
    hide Lex, Show, Atoi, Int32;
    AtoiExact(a); AtoiExact(b); AtoiExact(c);
    AfterNum(a, ":" + (Show(b) + (":" + (Show(c) + s))));
    AfterSym(':', Show(b) + (":" + (Show(c) + s)));
    AfterNum(b, ":" + (Show(c) + s));
    AfterSym(':', Show(c) + s);
    AfterNum(c, s);
    var ts := Lex(Show(a) + (":" + (Show(b) + (":" + (Show(c) + s)))));
    assert ts[1..] == Lex(":" + (Show(b) + (":" + (Show(c) + s))));
    FiveTokens(ts, a, b, c, Lex(s));
  }

  lemma FiveTokens(ts: seq<Token>, a: int, b: int, c: int, rest: seq<Token>)
    requires ts == [Num(a)] + ([Sym(':')] + ([Num(b)] + ([Sym(':')] + ([Num(c)] + rest))))
    ensures ParseRange(ts) == Ok(Range(a, b, c), rest)
  {
    assert ts[5..] == rest && ts[1..][0] == Sym(':') && ts[2] == Num(b) && ts[3] == Sym(':') && ts[4] == Num(c);
  }

  /** The text ctg(a:b:c)[base] denotes ctg(a)[base], ctg(a + b)[base], ... up to c, in this order. */
  lemma ContiguousRangeText(a: int, b: int, c: int, p: PrimitiveType, rest: string)
    requires Int32(a) && Int32(b) && Int32(c) && b >= 1
    ensures var r := ParseDatatype(Lex(
        "ctg(" + (Show(a) + (":" + (Show(b) + (":" + (Show(c) + (")[" + (Spelling(Prim(p)) + ("]" + rest))))))))));
      && r.Ok? && r.rest == Lex(rest)
      && (forall k :: 0 <= k < |r.value| ==> r.value[k] == Contiguous(a + k * b, Primitive(p)))
      && (a > c ==> r.value == []) && (a <= c ==> a + (|r.value| - 1) * b <= c < a + |r.value| * b)
  {
    hide Lex, Show, ParseBase, ParseRange, Values, Spelling, AllContiguous, Int32;
    var text := Spelling(Prim(p)) + ("]" + rest);
    var s5 := "[" + text;
    var s4 := ")" + s5;
    var s3 := Show(a) + (":" + (Show(b) + (":" + (Show(c) + s4))));
    var s2 := "(" + s3;
    TextIs(Show(a), Show(b), Show(c), text);
    SpellingOfCtg();
    AfterKeyword(CTG, s2);
    AfterSym('(', s3);
    RangeText(a, b, c, s4);
    AfterSym(')', s5);
    ReadPrimitive(p, "]" + rest);
    ClosedBase(Spelling(Prim(p)), rest, Primitive(p), true);
    assert ParseDatatype([Key(CTG)] + Lex(s2)) == ParseContiguous(Lex(s2));
    var r := Range(a, b, c);
    ValuesInOrder(r);
    OneBase(Values(r), Primitive(p));
  }

  lemma SpellingOfCtg()
    ensures Spelling(CTG) == "ctg"
  {}

  lemma TextIs(a: string, b: string, c: string, text: string)
    ensures "ctg(" + (a + (":" + (b + (":" + (c + (")[" + text))))))
         == "ctg" + ("(" + (a + (":" + (b + (":" + (c + (")" + ("[" + text))))))))
  {
    assert ")[" + text == ")" + ("[" + text);
    assert "ctg(" == "ctg" + "(";
    Assoc("ctg", "(", a + (":" + (b + (":" + (c + (")" + ("[" + text)))))));
  }

  lemma OneBase(counts: seq<int>, base: Datatype)
    ensures |AllContiguous(counts, [base])| == |counts|
    ensures forall k :: 0 <= k < |counts| ==> AllContiguous(counts, [base])[k] == Contiguous(counts[k], base)
  {
    ContiguousesAt(counts, base);
    assert AllContiguous(counts, [base][1..]) == [];
  }

  // ----- loops that do not end -----

  /** A loop whose stride is not positive is entered, and never left. */
  predicate Stuck(r: Range) { r.stride <= 0 && r.start <= r.stop }

  /** ctg: the action does not end if and only if there is a subtype and the loop is stuck. */
  lemma ContiguousEndless(a: int, b: int, c: int, p: PrimitiveType, rest: string)
    requires Int32(a) && Int32(b) && Int32(c)
    ensures var r := ParseDatatype(Lex(
        "ctg(" + (Show(a) + (":" + (Show(b) + (":" + (Show(c) + (")[" + (Spelling(Prim(p)) + ("]" + rest))))))))));
      r.Endless? <==> b <= 0 && a <= c
  {
    hide Lex, Show, ParseBase, ParseRange, Values, Spelling, AllContiguous, Int32;
    var text := Spelling(Prim(p)) + ("]" + rest);
    var s5 := "[" + text;
    var s4 := ")" + s5;
    var s3 := Show(a) + (":" + (Show(b) + (":" + (Show(c) + s4))));
    var s2 := "(" + s3;
    TextIs(Show(a), Show(b), Show(c), text);
    SpellingOfCtg();
    AfterKeyword(CTG, s2);
    AfterSym('(', s3);
    RangeText(a, b, c, s4);
    AfterSym(')', s5);
    ReadPrimitive(p, "]" + rest);
    ClosedBase(Spelling(Prim(p)), rest, Primitive(p), true);
    assert ParseDatatype([Key(CTG)] + Lex(s2)) == ParseContiguous(Lex(s2));
  }

  /** createVecs: a stuck loop matters if the loops around it are entered. */
  lemma VecsEndless(x: Ranges, bases: seq<Datatype>)
    ensures Loops(x, bases) <==>
      bases != [] && (Stuck(x.count) || (x.count.start <= x.count.stop
        && (Stuck(x.blocklen) || (x.blocklen.start <= x.blocklen.stop && Stuck(x.stride)))))
  {
    if !Stuck(x.count) { ValuesInOrder(x.count); }
    if !Stuck(x.blocklen) { ValuesInOrder(x.blocklen); }
  }
}
