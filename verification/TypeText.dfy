/** The text of the type language, written out: its words, the order of the numbers in each constructor, comments, and
    what is printed where the grammar has no rule for it. */
module TypeText {
  import opened Datatypes
  import opened Wellformed
  import opened TypeLanguage
  import opened TypeRoundTrip

  // ----- words -----

  /** Each word is printed and read as itself. */
  lemma Words(s: string, summary: bool)
    ensures Lex("byte" + s) == [Key(Prim(BYTE))] + Lex(s) && ToString(Primitive(BYTE), summary) == "byte"
    ensures Lex("char" + s) == [Key(Prim(CHAR))] + Lex(s) && ToString(Primitive(CHAR), summary) == "char"
    ensures Lex("int" + s) == [Key(Prim(INT))] + Lex(s) && ToString(Primitive(INT), summary) == "int"
    ensures Lex("double" + s) == [Key(Prim(DOUBLE))] + Lex(s) && ToString(Primitive(DOUBLE), summary) == "double"
    ensures Lex("float" + s) == [Key(Prim(FLOAT))] + Lex(s) && ToString(Primitive(FLOAT), summary) == "float"
    ensures Lex("ctg" + s) == [Key(CTG)] + Lex(s) && Lex("vec" + s) == [Key(VEC)] + Lex(s)
    ensures Lex("hvec" + s) == [Key(HVEC)] + Lex(s) && Lex("hidx" + s) == [Key(HIDX)] + Lex(s)
    ensures Lex("idxb" + s) == [Key(IDXB)] + Lex(s) && Lex("struct" + s) == [Key(STRUCT)] + Lex(s)
    ensures Lex("resized" + s) == [Key(RESIZED)] + Lex(s)
  {
    hide Lex;
    LexKeyword(Prim(BYTE), s); LexKeyword(Prim(CHAR), s); LexKeyword(Prim(INT), s);
    LexKeyword(Prim(DOUBLE), s); LexKeyword(Prim(FLOAT), s);
    LexKeyword(CTG, s); LexKeyword(VEC, s); LexKeyword(HVEC, s); LexKeyword(HIDX, s); LexKeyword(IDXB, s);
    LexKeyword(STRUCT, s); LexKeyword(RESIZED, s);
  }

  /** Blanks separate tokens and are nothing else; the seven signs of punctuation are tokens. */
  lemma Signs(s: string)
    ensures Lex(" " + s) == Lex(s) && Lex("\t" + s) == Lex(s) && Lex("\n" + s) == Lex(s) && Lex("\r" + s) == Lex(s)
    ensures Lex("[" + s) == [Sym('[')] + Lex(s) && Lex("]" + s) == [Sym(']')] + Lex(s)
    ensures Lex("(" + s) == [Sym('(')] + Lex(s) && Lex(")" + s) == [Sym(')')] + Lex(s)
    ensures Lex(":" + s) == [Sym(':')] + Lex(s) && Lex("," + s) == [Sym(',')] + Lex(s)
    ensures Lex(";" + s) == [Sym(';')] + Lex(s)
    ensures NoDigit(s) ==> Lex("-" + s) == [Elem] + Lex(s)
  {
    hide Lex;
    LexSpace(' ', s); LexSpace('\t', s); LexSpace('\n', s); LexSpace('\r', s);
    LexSym('[', s); LexSym(']', s); LexSym('(', s); LexSym(')', s);
    LexSym(':', s); LexSym(',', s); LexSym(';', s);
    if NoDigit(s) { LexMinus(s); }
  }

  /** A minus that no digit follows. */
  lemma LexMinus(s: string)
    requires NoDigit(s)
    ensures Lex("-" + s) == [Elem] + Lex(s)
  {
    hide KeywordAt, NumberOf, LineLength, Spelling;
    var x := "-" + s;
    assert x[1..] == s;
    OnePrefixFirst(x, "//");
  }

  /** A comment ends with its line. */
  lemma Comments(text: string, s: string)
    requires forall i :: 0 <= i < |text| ==> text[i] != '\n'
    ensures Lex("//" + (text + ("\n" + s))) == Lex(s) && Lex("//" + text) == []
  {
    hide Lex, LineLength;
    var x := "//" + (text + ("\n" + s));
    assert x[..2] == "//" && x[2..] == text + ("\n" + s);
    Line(text, "\n" + s);
    SkipsLine(x);
    assert x[2 + |text|..] == "\n" + s;
    LexSpace('\n', s);
    EndsInComment(text);
  }

  lemma EndsInComment(text: string)
    requires forall i :: 0 <= i < |text| ==> text[i] != '\n'
    ensures Lex("//" + text) == []
  {
    hide Lex, LineLength;
    var y := "//" + text;
    assert y[..2] == "//" && y[2..] == text;
    Line(text, "");
    assert text + "" == text;
    SkipsLine(y);
    assert y[2 + |text|..] == "";
    NothingToLex();
  }

  lemma SkipsLine(x: string)
    requires |x| >= 2 && x[..2] == "//"
    ensures Lex(x) == Lex(x[2 + LineLength(x[2..])..])
  {
    hide KeywordAt, NumberOf, DigitRun, LineLength;
    assert x[0] == x[..2][0] == '/';
  }

  lemma {:induction false} Line(text: string, s: string)
    requires (forall i :: 0 <= i < |text| ==> text[i] != '\n') && (s == "" || s[0] == '\n')
    ensures LineLength(text + s) == |text|
  {
    if text == "" {
      assert text + s == s;
    } else {
      assert (text + s)[1..] == text[1..] + s;
      Line(text[1..], s);
    }
  }

  /** Beyond 64 bits a number stops at the end of `long`, and is cut to -1 or 0. */
  lemma NumbersBeyondLong(n: int)
    ensures n > 9223372036854775807 ==> Atoi(n) == -1
    ensures n < -9223372036854775808 ==> Atoi(n) == 0
    ensures -2147483648 <= n <= 2147483647 <==> Atoi(n) == n
  {}

  // ----- the numbers of each constructor -----

  lemma Whole(t: Datatype)
    requires AllInts(t)
    ensures Truncated(t) == t
  {
    TruncatedExact(t);
  }

  /** count, block length, stride. */
  lemma VectorText(x: int, y: int, z: int, p: PrimitiveType, rest: string)
    requires Int32(x) && Int32(y) && Int32(z)
    ensures var base := ")[" + Spelling(Prim(p)) + "]";
      ParseDatatype(Lex("vec(" + Show(x) + " " + Show(y) + " " + Show(z) + base + rest))
      == Ok([Vector(x, y, z, Primitive(p))], Lex(rest))
    ensures var base := ")[" + Spelling(Prim(p)) + "]";
      ParseDatatype(Lex("hvec(" + Show(x) + "," + Show(y) + "," + Show(z) + base + rest))
      == Ok([HVector(x, y, z, Primitive(p))], Lex(rest))
  {
    hide Lex, Show, ParseDatatype, Spelling, Truncated;
    ReadPrimitive(p, "]" + rest);
    ReadVec(false, false, x, y, z, Spelling(Prim(p)), rest, Primitive(p), true);
    ReadVec(true, true, x, y, z, Spelling(Prim(p)), rest, Primitive(p), true);
    var name := Spelling(Prim(p));
    assert "vec(" + Show(x) + " " + Show(y) + " " + Show(z) + (")[" + name + "]") + rest
        == "vec(" + Show(x) + " " + Show(y) + " " + Show(z) + ")[" + name + "]" + rest;
    assert "hvec(" + Show(x) + "," + Show(y) + "," + Show(z) + (")[" + name + "]") + rest
        == "hvec(" + Show(x) + "," + Show(y) + "," + Show(z) + ")[" + name + "]" + rest;
    Whole(Vector(x, y, z, Primitive(p)));
    Whole(HVector(x, y, z, Primitive(p)));
  }

  /** Block length, then displacements; displacement, then block length; lower bound, then extent. */
  lemma IndexedText(x: int, y: int, p: PrimitiveType, rest: string)
    requires Int32(x) && Int32(y)
    ensures ParseDatatype(Lex("idxb(" + (Show(x) + ":" + Show(y)) + ")[" + Spelling(Prim(p)) + "]" + rest))
         == Ok([IndexedBlock(x, [y], Primitive(p))], Lex(rest))
    ensures ParseDatatype(Lex("hidx(" + (Show(x) + "," + Show(y)) + ")[" + Spelling(Prim(p)) + "]" + rest))
         == Ok([HIndexed([Entry(x, y)], Primitive(p))], Lex(rest))
    ensures ParseDatatype(Lex("resized(" + Show(x) + "," + Show(y) + ")[" + Spelling(Prim(p)) + "]" + rest))
         == Ok([Resized(x, y, Primitive(p))], Lex(rest))
  {
    hide Lex, Show, ParseDatatype, Spelling, Truncated;
    ReadPrimitive(p, "]" + rest);
    ReadIndexedBlock(x, [y], Spelling(Prim(p)), rest, Primitive(p), true);
    ReadHIndexed([Entry(x, y)], false, Spelling(Prim(p)), rest, Primitive(p), true);
    ReadResized(x, y, Spelling(Prim(p)), rest, Primitive(p), true);
    assert ShowDispls([y], " ") == Show(y) && ShowEntries([Entry(x, y)], " ") == Show(x) + "," + Show(y);
    Whole(IndexedBlock(x, [y], Primitive(p)));
    Whole(HIndexed([Entry(x, y)], Primitive(p)));
    Whole(Resized(x, y, Primitive(p)));
  }

  /** Displacements may be separated by commas as well as by spaces. */
  lemma {:induction false} CommaDispls(displs: seq<int>, rest: string)
    requires displs != []
    ensures ParseDispls(Lex(ShowDispls(displs, ",") + (")" + rest))) == Ok(AllTruncated(displs), Lex(")" + rest))
    ensures NextNum(Lex(ShowDispls(displs, ",") + (")" + rest)))
  {
    hide Lex, Show, Atoi;
    var s := ")" + rest;
    AfterSym(')', rest);
    if |displs| == 1 {
      AfterNum(displs[0], s);
      assert AllTruncated(displs) == [Atoi(displs[0])] by { assert displs[1..] == []; }
    } else {
      var tail := ShowDispls(displs[1..], ",") + s;
      assert ShowDispls(displs, ",") + s == Show(displs[0]) + ("," + tail);
      AfterNum(displs[0], "," + tail);
      AfterSym(',', tail);
      CommaDispls(displs[1..], rest);
      assert Lex(ShowDispls(displs, ",") + s)[2..] == Lex(tail);
    }
  }

  // ----- texts without a rule -----

  /** An indexed block in summary form shows how many displacements it has, and the block length. */
  lemma SummaryIndexedBlock(blocklen: int, displs: seq<int>, base: Datatype, rest: string)
    requires Int32(blocklen) && Int32(|displs|)
    ensures Lex(ToString(IndexedBlock(blocklen, displs, base), true) + rest)
         == [Key(IDXB), Sym('('), Num(|displs|), Sym(','), Num(blocklen), Sym(')'), Sym('[')]
            + Lex(ToString(base, true) + ("]" + rest))
  {
    hide Lex, Show, Atoi, Int32;
    var b := ToString(base, true);
    var s6 := "[" + (b + ("]" + rest));
    var s5 := ")" + s6;
    var s4 := Show(blocklen) + s5;
    var s3 := "," + s4;
    var s2 := Show(|displs|) + s3;
    var s1 := "(" + s2;
    AtoiExact(blocklen);
    AtoiExact(|displs|);
    assert ToString(IndexedBlock(blocklen, displs, base), true) + rest == "idxb" + s1;
    assert Spelling(IDXB) == "idxb";
    AfterKeyword(IDXB, s1);
    AfterSym('(', s2);
    AfterNum(|displs|, s3);
    AfterSym(',', s4);
    AfterNum(blocklen, s5);
    AfterSym(')', s6);
    AfterSym('[', b + ("]" + rest));
  }

  /** A brace starts no token. */
  lemma LexBrace(c: char, s: string)
    requires c == '{' || c == '}'
    ensures Lex([c] + s) == [Unknown] + Lex(s)
  {
    hide NumberOf, DigitRun, LineLength, Spelling;
    var x := [c] + s;
    assert x[1..] == s && x[0] == c;
    OnePrefixFirst(x, "//");
    NoKeyword(x, KEYWORDS);
  }

  lemma {:induction false} NoKeyword(x: string, ks: seq<Keyword>)
    requires x != [] && (x[0] == '{' || x[0] == '}')
    ensures KeywordAt(x, ks) == None
    decreases |ks|
  {
    hide StartsWith;
    if ks != [] {
      NotABrace(ks[0]);
      OnePrefixFirst(x, Spelling(ks[0]));
      NoKeyword(x, ks[1..]);
    }
  }

  lemma NotABrace(k: Keyword)
    ensures Spelling(k)[0] != '{' && Spelling(k)[0] != '}'
  {}

  /** A struct shows how many fields it has, then for each its displacement, block length and type. */
  lemma StructHead(fields: seq<Field>, summary: bool, rest: string)
    requires Int32(|fields|)
    ensures Lex(ToString(Struct(fields), summary) + rest)
         == [Key(STRUCT), Sym('('), Num(|fields|), Sym(')')] + Lex(ShowFields(fields, summary) + rest)
  {
    hide Lex, Show, Atoi, Int32, ShowFields;
    var s4 := ShowFields(fields, summary) + rest;
    var s3 := ")" + s4;
    var s2 := Show(|fields|) + s3;
    var s1 := "(" + s2;
    AtoiExact(|fields|);
    assert ToString(Struct(fields), summary) + rest == "struct" + s1;
    assert Spelling(STRUCT) == "struct";
    AfterKeyword(STRUCT, s1);
    AfterSym('(', s2);
    AfterNum(|fields|, s3);
    AfterSym(')', s4);
  }

  lemma StructField(f: Field, others: seq<Field>, summary: bool, rest: string)
    requires Int32(f.displ) && Int32(f.blocklen)
    ensures var after := if others == [] then rest
                         else (if summary then ";" else " ") + (ShowFields(others, summary) + rest);
      Lex(ShowFields([f] + others, summary) + rest)
      == [Sym('['), Num(f.displ), Sym(','), Num(f.blocklen), Sym(']'), Unknown]
         + Lex(ToString(f.typ, summary) + ("}" + after))
  {
    hide Lex, Show, Atoi, Int32, ToString;
    var after := if others == [] then rest else (if summary then ";" else " ") + (ShowFields(others, summary) + rest);
    var s6 := ToString(f.typ, summary) + ("}" + after);
    var s5 := "{" + s6;
    var s4 := "]" + s5;
    var s3 := Show(f.blocklen) + s4;
    var s2 := "," + s3;
    var s1 := Show(f.displ) + s2;
    FieldText(f, others, summary, rest);
    AtoiExact(f.displ);
    AtoiExact(f.blocklen);
    AfterSym('[', s1);
    AfterNum(f.displ, s2);
    AfterSym(',', s3);
    AfterNum(f.blocklen, s4);
    AfterSym(']', s5);
    LexBrace('{', s6);
  }

  lemma FieldText(f: Field, others: seq<Field>, summary: bool, rest: string)
    ensures var after := if others == [] then rest
                         else (if summary then ";" else " ") + (ShowFields(others, summary) + rest);
      ShowFields([f] + others, summary) + rest
      == "[" + (Show(f.displ) + ("," + (Show(f.blocklen) + ("]" + ("{" + (ToString(f.typ, summary) + ("}" + after)))))))
  {
    hide Show, ToString;
    assert ([f] + others)[1..] == others;
    assert "]{" == "]" + "{";
    if others == [] {
      assert ShowFields([f] + others, summary)
          == "[" + Show(f.displ) + "," + Show(f.blocklen) + "]{" + ToString(f.typ, summary) + "}" + "";
    } else {
      var sep := if summary then ";" else " ";
      assert ShowFields([f] + others, summary)
          == "[" + Show(f.displ) + "," + Show(f.blocklen) + "]{" + ToString(f.typ, summary) + "}"
           + (sep + ShowFields(others, summary));
    }
  }
}
