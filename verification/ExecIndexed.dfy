/** Running the code of codegen_indexed.cpp that is unrolled over the blocks: codegenHindexed, codegenStruct
    and the short codegenIndexedBlock. */
module ExecIndexed {
  import opened Arithmetic
  import opened Datatypes
  import opened Wellformed
  import opened Machine
  import opened Builders
  import opened Transfers
  import opened Emission
  import opened Routes
  import opened ExecPrimitive
  import opened Execution
  import opened Calls

  // ----- the blocks of one item -----

  /** The code of every block runs. */
  ghost predicate FieldsRun(p: seq<Block>, fields: seq<Field>, pack: bool) {
    forall i :: 0 <= i < |fields| ==>
      var f := fields[i];
      Runs(p, f.typ, pack) && CountOk(f.typ, f.blocklen) && f.blocklen <= INT32_MAX
  }

  /** The input and output addresses, given the data (scattered) and packed (compact) ones. */
  function InOf(pack: bool, scattered: int, compact: int): int { if pack then scattered else compact }
  function OutOf(pack: bool, scattered: int, compact: int): int { if pack then compact else scattered }

  /** The first block at its displacement, then the others with the packed side advanced. */
  lemma FirstBlock(fields: seq<Field>, pack: bool, s: int, c: int)
    requires fields != [] && 0 <= s < W && 0 <= c < W
    ensures var f := fields[0];
      var here, c1 := Wrap(s + f.displ), Wrap(c + Size(f.typ) * f.blocklen);
      Along(FieldsRoute(fields, pack), InOf(pack, s, c), OutOf(pack, s, c))
      == Along(RouteCopies(f.typ, pack, f.blocklen), InOf(pack, here, c), OutOf(pack, here, c))
       + Along(FieldsRoute(fields[1..], pack), InOf(pack, s, c1), OutOf(pack, s, c1))
  {
    hide Along, Slide, RouteCopies, Size, Height, FieldsHeight;
    var f, rest := fields[0], FieldsRoute(fields[1..], pack);
    var packed := Size(f.typ) * f.blocklen;
    var r := RouteCopies(f.typ, pack, f.blocklen);
    assert FieldsRoute(fields, pack)
        == Slide(r, OutStep(pack, f.displ, 0), InStep(pack, f.displ, 0))
         + Slide(rest, OutStep(pack, 0, packed), InStep(pack, 0, packed));
    PlacedFirst(r, rest, pack, f.displ, packed, s, c);
  }

  lemma PlacedFirst(r: seq<Hop>, rest: seq<Hop>, pack: bool, d: int, packed: int, s: int, c: int)
    requires 0 <= s < W && 0 <= c < W
    ensures var here, c1 := Wrap(s + d), Wrap(c + packed);
      Along(Slide(r, OutStep(pack, d, 0), InStep(pack, d, 0))
            + Slide(rest, OutStep(pack, 0, packed), InStep(pack, 0, packed)),
            InOf(pack, s, c), OutOf(pack, s, c))
      == Along(r, InOf(pack, here, c), OutOf(pack, here, c)) + Along(rest, InOf(pack, s, c1), OutOf(pack, s, c1))
  {
    hide Along, Slide;
    var x, y := InOf(pack, s, c), OutOf(pack, s, c);
    AlongConcat(Slide(r, OutStep(pack, d, 0), InStep(pack, d, 0)),
                Slide(rest, OutStep(pack, 0, packed), InStep(pack, 0, packed)), x, y);
    AlongSlide(r, OutStep(pack, d, 0), InStep(pack, d, 0), x, y);
    AlongSlide(rest, OutStep(pack, 0, packed), InStep(pack, 0, packed), x, y);
    assert Wrap(s + 0) == s && Wrap(c + 0) == c;
  }

  lemma FirstFieldRuns(p: seq<Block>, fields: seq<Field>, pack: bool)
    requires fields != [] && FieldsRun(p, fields, pack)
    ensures var f := fields[0];
      Runs(p, f.typ, pack) && CountOk(f.typ, f.blocklen) && f.blocklen <= INT32_MAX
    ensures FieldsRun(p, fields[1..], pack)
    ensures FieldsSize(fields) == Size(fields[0].typ) * fields[0].blocklen + FieldsSize(fields[1..])
  {
    hide Runs, Size;
  }

  datatype Placed = Placed(here: Builder, body: Builder, next: Builder)

  function PlacedCode(b: Builder, pack: bool, compact: Operand, scattered: Operand, f: Field): (l: Placed)
    requires Ok(b)
    ensures Ok(l.next) && Ok(l.here) && l.here.next == b.next + 1
  {
    var b1 := Bind(b, Add64(scattered, Imm(f.displ)));
    var here := Reg(b.next);
    var b2 := Emit(f.typ, pack, b1, if pack then here else compact, Imm(f.blocklen),
                   if pack then compact else here);
    Placed(b1, b2, Bind(b2, Add64(compact, Imm(Size(f.typ) * f.blocklen))))
  }

  lemma PlacedIsBuilt(p: seq<Block>, b: Builder, pack: bool, compact: Operand, scattered: Operand, fields: seq<Field>)
    requires Ok(b) && fields != [] && Le(EmitBlocks(b, pack, compact, scattered, fields).0.blocks, p)
    ensures var l := PlacedCode(b, pack, compact, scattered, fields[0]);
      && Le(l.here.blocks, p) && Le(l.body.blocks, p) && Le(l.next.blocks, p)
      && EmitBlocks(b, pack, compact, scattered, fields)
         == EmitBlocks(l.next, pack, Reg(l.body.next), scattered, fields[1..])
  {
    hide Le, Extends, Bind, Emit;
    var l := PlacedCode(b, pack, compact, scattered, fields[0]);
    Earlier(p, l.next, EmitBlocks(l.next, pack, Reg(l.body.next), scattered, fields[1..]).0);
    Earlier(p, l.body, l.next); Earlier(p, l.here, l.body);
  }

  lemma BlockRuns(p: seq<Block>, b: Builder, pack: bool, compact: Operand, scattered: Operand, f: Field, conf: Conf)
    returns (conf': Conf)
    requires Ok(b)
    requires var l := PlacedCode(b, pack, compact, scattered, f);
      Le(l.here.blocks, p) && Le(l.body.blocks, p) && Le(l.next.blocks, p)
    requires Args(conf.regs, b.next, compact, Imm(0), scattered)
    requires Runs(p, f.typ, pack) && CountOk(f.typ, f.blocklen) && f.blocklen <= INT32_MAX
    requires var s, c := Ev(conf.regs, scattered), Ev(conf.regs, compact);
      var here := Wrap(s + f.displ);
      Ready(conf.mem, Along(RouteCopies(f.typ, pack, f.blocklen), InOf(pack, here, c), OutOf(pack, here, c)))
    ensures var l := PlacedCode(b, pack, compact, scattered, f);
      var s, c := Ev(conf.regs, scattered), Ev(conf.regs, compact);
      var here := Wrap(s + f.displ);
      && Done(p, b.next, b, l.next, conf, conf',
              Along(RouteCopies(f.typ, pack, f.blocklen), InOf(pack, here, c), OutOf(pack, here, c)))
      && l.body.next < l.next.next && l.body.next in conf'.regs
      && conf'.regs[l.body.next] == Wrap(c + Size(f.typ) * f.blocklen)
  {
    hide Runs, Ready, Along, RouteCopies, Copy, Reaches, Le, Extends, Append, Bind, Emit, At;
    var l := PlacedCode(b, pack, compact, scattered, f);
    var s, c := Ev(conf.regs, scattered), Ev(conf.regs, compact);
    var here := Wrap(s + f.displ);
    var ts := Along(RouteCopies(f.typ, pack, f.blocklen), InOf(pack, here, c), OutOf(pack, here, c));
    DoneNothing(p, b, conf);
    var c0 := ThenLet(p, b.next, b, b, Add64(scattered, Imm(f.displ)), conf, conf, []);
    WrapWrap(f.displ, s);
    var c1 := RunBase(p, f.typ, pack, l.here, if pack then Reg(b.next) else compact, Imm(f.blocklen),
                      if pack then compact else Reg(b.next), c0);
    ThenMoves(p, b.next, b, l.here, l.body, conf, c0, c1, ts);
    conf' := ThenLet(p, b.next, b, l.body, Add64(compact, Imm(Size(f.typ) * f.blocklen)), conf, c1, ts);
    WrapWrap(Size(f.typ) * f.blocklen, c);
  }

  /** The generation-time loop: every block in order, the compact pointer carried along. */
  lemma {:induction false} BlocksRun(p: seq<Block>, b: Builder, pack: bool, compact: Operand, scattered: Operand,
                                     fields: seq<Field>, conf: Conf)
    returns (conf': Conf)
    requires Ok(b) && Le(EmitBlocks(b, pack, compact, scattered, fields).0.blocks, p)
    requires Args(conf.regs, b.next, compact, Imm(0), scattered) && FieldsRun(p, fields, pack)
    requires var s, c := Ev(conf.regs, scattered), Ev(conf.regs, compact);
      Ready(conf.mem, Along(FieldsRoute(fields, pack), InOf(pack, s, c), OutOf(pack, s, c)))
    ensures var r := EmitBlocks(b, pack, compact, scattered, fields);
      var s, c := Ev(conf.regs, scattered), Ev(conf.regs, compact);
      && Done(p, b.next, b, r.0, conf, conf', Along(FieldsRoute(fields, pack), InOf(pack, s, c), OutOf(pack, s, c)))
      && Usable(conf'.regs, r.1, r.0.next) && Ev(conf'.regs, r.1) == Wrap(c + FieldsSize(fields))
    decreases |fields|
  {
    hide Runs, FieldsRun, Ready, Along, RouteCopies, Copy, Reaches, Le, Extends, Append, Bind, Emit, At,
         PlacedCode, FieldsRoute, FieldsHeight, Height, Size, FieldsSize, EmitBlocks, Keeps;
    var s, c := Ev(conf.regs, scattered), Ev(conf.regs, compact);
    if fields == [] {
      conf' := conf;
      DoneNothing(p, b, conf);
      NoFields(b, pack, compact, scattered, InOf(pack, s, c), OutOf(pack, s, c));
    } else {
      var f, rest := fields[0], fields[1..];
      var l := PlacedCode(b, pack, compact, scattered, f);
      FirstFieldRuns(p, fields, pack);
      PlacedIsBuilt(p, b, pack, compact, scattered, fields);
      var here, c1 := Wrap(s + f.displ), Wrap(c + Size(f.typ) * f.blocklen);
      var first := Along(RouteCopies(f.typ, pack, f.blocklen), InOf(pack, here, c), OutOf(pack, here, c));
      var others := Along(FieldsRoute(rest, pack), InOf(pack, s, c1), OutOf(pack, s, c1));
      FirstBlock(fields, pack, s, c);
      ReadyParts(conf.mem, first, others);
      var conf1 := BlockRuns(p, b, pack, compact, scattered, f, conf);
      AfterBlock(p, b, l.next, compact, scattered, conf, conf1, first, l.body.next);
      conf' := BlocksRun(p, l.next, pack, Reg(l.body.next), scattered, rest, conf1);
      Then(p, b.next, b, l.next, EmitBlocks(b, pack, compact, scattered, fields).0, conf, conf1, conf', first, others);
      WrapWrap(c + Size(f.typ) * f.blocklen, FieldsSize(rest));
    }
  }

  lemma AfterBlock(p: seq<Block>, b: Builder, r: Builder, compact: Operand, scattered: Operand, conf: Conf, conf1: Conf,
                   ts: seq<Transfer>, next: nat)
    requires Done(p, b.next, b, r, conf, conf1, ts) && Args(conf.regs, b.next, compact, Imm(0), scattered)
    requires next < r.next && next in conf1.regs && 0 <= conf1.regs[next] < W
    ensures Args(conf1.regs, r.next, Reg(next), Imm(0), scattered)
    ensures Ev(conf1.regs, scattered) == Ev(conf.regs, scattered) && conf1.mem == Copy(conf.mem, ts)
  {}

  lemma NoFields(b: Builder, pack: bool, compact: Operand, scattered: Operand, x: int, y: int)
    requires Ok(b)
    ensures EmitBlocks(b, pack, compact, scattered, []) == (b, compact)
    ensures Along(FieldsRoute([], pack), x, y) == [] && FieldsSize([]) == 0
  {}

  // ----- the loop over the items -----

  /** The builders inside EmitIndexed; `total` is the register that holds count * extent. */
  datatype ItemLoop = ItemLoop(count: Builder, total: Builder, head: Builder, base: Builder, body: Builder,
                               nextcompact: Operand, step: Builder, test: Builder)

  function IndexedLoop(b: Builder, pack: bool, inbuf: Operand, n: Operand, outbuf: Operand,
                       extent: int, fields: seq<Field>): (l: ItemLoop)
    requires Ok(b)
    ensures Ok(l.total) && l.total.next == b.next + 2
    ensures Ok(l.head) && l.head.next == b.next + 4 && l.head.cur == |l.total.blocks|
    ensures l.head.blocks[l.head.cur].instrs == []
    ensures Ok(l.base) && l.base.next == b.next + 5
  {
    var b1 := Bind(b, ZExt(n));
    var b2 := Bind(b1, Mul64(Reg(b.next), Imm(extent)));
    var b3 := StartLoop(b2, [CompactOf(pack, inbuf, outbuf), Imm(0)]);
    var b4 := Bind(b3, Add64(ScatteredOf(pack, inbuf, outbuf), Reg(b2.next + 1)));
    var (b5, nextcompact) := EmitBlocks(b4, pack, Reg(b2.next), Reg(b3.next), fields);
    var b6 := Bind(b5, Add64(Reg(b2.next + 1), Imm(extent)));
    ItemLoop(b1, b2, b3, b4, b5, nextcompact, b6, Bind(b6, Equal(Reg(b5.next), Reg(b1.next))))
  }

  function ScatteredOf(pack: bool, inbuf: Operand, outbuf: Operand): Operand { if pack then inbuf else outbuf }
  function CompactOf(pack: bool, inbuf: Operand, outbuf: Operand): Operand { if pack then outbuf else inbuf }

  lemma IndexedIsBuilt(p: seq<Block>, b: Builder, pack: bool, inbuf: Operand, n: Operand, outbuf: Operand,
                       extent: int, fields: seq<Field>)
    requires Ok(b) && Le(EmitIndexed(b, pack, inbuf, n, outbuf, extent, fields).blocks, p)
    ensures var l := IndexedLoop(b, pack, inbuf, n, outbuf, extent, fields);
      var nexts := [l.nextcompact, Reg(l.body.next)];
      && l.count == Bind(b, ZExt(n)) && l.total == Bind(l.count, Mul64(Reg(b.next), Imm(extent)))
      && l.head == StartLoop(l.total, [CompactOf(pack, inbuf, outbuf), Imm(0)])
      && l.base == Bind(l.head, Add64(ScatteredOf(pack, inbuf, outbuf), Reg(l.total.next + 1)))
      && (l.body, l.nextcompact) == EmitBlocks(l.base, pack, Reg(l.total.next), Reg(l.head.next), fields)
      && l.step == Bind(l.body, Add64(Reg(l.total.next + 1), Imm(extent)))
      && l.test == Bind(l.step, Equal(Reg(l.body.next), Reg(l.count.next)))
      && Le(l.count.blocks, p) && Le(l.total.blocks, p) && Le(l.head.blocks, p) && Le(l.base.blocks, p)
      && Le(l.body.blocks, p) && Le(l.step.blocks, p) && Le(l.test.blocks, p)
      && CanEndLoop(l.test, l.head.cur, nexts) && Heads(l.test, l.head.cur, l.total.cur, l.total.next, 2)
      && EmitIndexed(b, pack, inbuf, n, outbuf, extent, fields)
         == EndLoop(l.test, l.head.cur, l.test.cur, Reg(l.step.next), nexts)
  {
    hide Extends, Le, Append, StartLoop, EmitBlocks, Bind;
    var l := IndexedLoop(b, pack, inbuf, n, outbuf, extent, fields);
    var inits, nexts := [CompactOf(pack, inbuf, outbuf), Imm(0)], [l.nextcompact, Reg(l.body.next)];
    ExtendsTransitive(l.head, l.base, l.body);
    ExtendsTransitive(l.head, l.body, l.step);
    ExtendsTransitive(l.head, l.step, l.test);
    LoopExtends(l.total, inits, l.test, l.test.cur, Reg(l.step.next), nexts);
    BeforeEndLoop(p, l.test, l.head.cur, l.test.cur, Reg(l.step.next), nexts);
    Earlier(p, l.step, l.test); Earlier(p, l.body, l.step); Earlier(p, l.base, l.body);
    Earlier(p, l.head, l.base); Earlier(p, l.total, l.head); Earlier(p, l.count, l.total);
  }

  /** At the head: the compact pointer c, the byte counter i, and the total. */
  ghost predicate AtItem(regs: Registers, k: nat, c: int, i: int, total: int) {
    && k >= 1 && k - 1 in regs && k in regs && k + 1 in regs
    && regs[k] == c && 0 <= c < W && regs[k + 1] == i && i >= 0 && regs[k - 1] == total
  }

  /** At the head with m items to go. */
  ghost predicate AtIndexed(regs: Registers, k: nat, extent: nat, m: nat, c: int, i: int) {
    AtItem(regs, k, c, i, i + Times(extent, m)) && i + Times(extent, m) < W
  }

  /** One item, whatever the extent and the total. */
  lemma IndexedItem(p: seq<Block>, b: Builder, pack: bool, inbuf: Operand, n: Operand, outbuf: Operand,
                    extent: int, fields: seq<Field>, c: int, i: int, total: int, conf: Conf)
    returns (conf': Conf)
    requires Ok(b) && Le(EmitIndexed(b, pack, inbuf, n, outbuf, extent, fields).blocks, p)
    requires Args(conf.regs, b.next, inbuf, n, outbuf) && FieldsRun(p, fields, pack)
    requires AtItem(conf.regs, b.next + 2, c, i, total)
    requires var s := Wrap(Ev(conf.regs, ScatteredOf(pack, inbuf, outbuf)) + i);
      Ready(conf.mem, Along(FieldsRoute(fields, pack), InOf(pack, s, c), OutOf(pack, s, c)))
    ensures var l := IndexedLoop(b, pack, inbuf, n, outbuf, extent, fields);
      var s := Wrap(Ev(conf.regs, ScatteredOf(pack, inbuf, outbuf)) + i);
      && Done(p, l.total.next, l.head, l.test, conf, conf',
              Along(FieldsRoute(fields, pack), InOf(pack, s, c), OutOf(pack, s, c)))
      && Def(conf'.regs, l.nextcompact) && Ev(conf'.regs, l.nextcompact) == Wrap(c + FieldsSize(fields))
      && l.body.next in conf'.regs && conf'.regs[l.body.next] == Wrap(extent + i)
      && l.step.next in conf'.regs && conf'.regs[l.step.next] == (if Wrap(extent + i) == total then 1 else 0)
  {
    hide FieldsRun, Ready, Along, FieldsRoute, FieldsSize, Copy, Reaches, Le, Extends, Append, Bind, StartLoop, EndLoop,
         EmitBlocks, EmitIndexed, At, Heads, CanEndLoop, IndexedLoop, Times;
    var l := IndexedLoop(b, pack, inbuf, n, outbuf, extent, fields);
    IndexedIsBuilt(p, b, pack, inbuf, n, outbuf, extent, fields);
    var k := l.total.next;
    var s := Wrap(Ev(conf.regs, ScatteredOf(pack, inbuf, outbuf)) + i);
    var ts := Along(FieldsRoute(fields, pack), InOf(pack, s, c), OutOf(pack, s, c));
    DoneNothing(p, l.head, conf);
    var c0 := ThenLet(p, l.head.next, l.head, l.head, Add64(ScatteredOf(pack, inbuf, outbuf), Reg(k + 1)), conf, conf,
                      []);
    var c1 := BlocksRun(p, l.base, pack, Reg(k), Reg(l.head.next), fields, c0);
    ThenMoves(p, l.head.next, l.head, l.base, l.body, conf, c0, c1, ts);
    Weaken(p, l.head.next, k, l.head, l.body, conf, c1, ts);
    var c2 := ThenAdd(p, k, l.head, l.body, k + 1, extent, conf, c1, ts);
    conf' := ThenTest(p, k, l.head, l.step, Reg(l.body.next), Reg(l.count.next), conf, c2, ts);
  }

  lemma IndexedPass(p: seq<Block>, b: Builder, pack: bool, inbuf: Operand, n: Operand, outbuf: Operand,
                    extent: nat, fields: seq<Field>, m: nat, c: int, i: int, conf: Conf)
    returns (conf': Conf)
    requires Ok(b) && Le(EmitIndexed(b, pack, inbuf, n, outbuf, extent, fields).blocks, p)
    requires Args(conf.regs, b.next, inbuf, n, outbuf) && FieldsRun(p, fields, pack) && extent >= 1 && m >= 1
    requires AtIndexed(conf.regs, b.next + 2, extent, m, c, i)
    requires var s := Wrap(Ev(conf.regs, ScatteredOf(pack, inbuf, outbuf)) + i);
      Ready(conf.mem, Along(FieldsRoute(fields, pack), InOf(pack, s, c), OutOf(pack, s, c)))
    ensures var l := IndexedLoop(b, pack, inbuf, n, outbuf, extent, fields);
      var s := Wrap(Ev(conf.regs, ScatteredOf(pack, inbuf, outbuf)) + i);
      && Done(p, l.total.next, l.head, l.test, conf, conf',
              Along(FieldsRoute(fields, pack), InOf(pack, s, c), OutOf(pack, s, c)))
      && Def(conf'.regs, l.nextcompact) && Ev(conf'.regs, l.nextcompact) == Wrap(c + FieldsSize(fields))
      && l.body.next in conf'.regs && conf'.regs[l.body.next] == i + extent
      && l.step.next in conf'.regs && conf'.regs[l.step.next] == (if m == 1 then 1 else 0)
  {
    hide FieldsRun, Ready, Along, FieldsRoute, FieldsSize, IndexedLoop, Times, Done, Le, Args, Wrap;
    conf' := IndexedItem(p, b, pack, inbuf, n, outbuf, extent, fields, c, i, i + Times(extent, m), conf);
    CounterFits(extent, m, i);
  }

  /** The byte counter stays below the total, so it meets it exactly after the last item. */
  lemma CounterFits(extent: nat, m: nat, i: int)
    requires extent >= 1 && m >= 1 && i >= 0 && i + Times(extent, m) < W
    ensures Wrap(extent) == extent && Wrap(i + extent) == i + extent
    ensures i + extent == i + Times(extent, m) <==> m == 1
    ensures i + extent + Times(extent, m - 1) == i + Times(extent, m)
  {
    assert Times(extent, m) == extent + Times(extent, m - 1);
    if m > 1 { assert Times(extent, m - 1) == extent + Times(extent, m - 2); }
  }

  /** n items of r, the data side advancing by the extent and the packed side by `packed`. */
  function Items(r: seq<Hop>, pack: bool, extent: int, packed: int, n: int): seq<Hop> {
    Laps(r, OutStep(pack, extent, packed), InStep(pack, extent, packed), n)
  }

  lemma NextItem(r: seq<Hop>, pack: bool, extent: nat, packed: int, m: nat, d: int, i: int, c: int)
    requires m >= 1 && 0 <= c < W
    ensures var s, s1, c1 := Wrap(d + i), Wrap(d + (i + extent)), Wrap(c + packed);
      Along(Items(r, pack, extent, packed, m), InOf(pack, s, c), OutOf(pack, s, c))
      == Along(r, InOf(pack, s, c), OutOf(pack, s, c))
       + Along(Items(r, pack, extent, packed, m - 1), InOf(pack, s1, c1), OutOf(pack, s1, c1))
    ensures var s := Wrap(d + i);
      m == 1 ==> (Along(Items(r, pack, extent, packed, m), InOf(pack, s, c), OutOf(pack, s, c))
                  == Along(r, InOf(pack, s, c), OutOf(pack, s, c)))
  {
    hide Along, Laps;
    var s := Wrap(d + i);
    OneLap(r, OutStep(pack, extent, packed), InStep(pack, extent, packed), m, InOf(pack, s, c), OutOf(pack, s, c));
    WrapWrap(d + i, extent);
  }

  /** Arguments older than register k survive. */
  lemma ArgsKept(p: seq<Block>, k: nat, a: Builder, b: Builder, conf: Conf, conf': Conf, ts: seq<Transfer>, j: nat,
                 inbuf: Operand, n: Operand, outbuf: Operand)
    requires Done(p, k, a, b, conf, conf', ts) && Args(conf.regs, j, inbuf, n, outbuf) && j <= k
    ensures Args(conf'.regs, j, inbuf, n, outbuf) && Def(conf'.regs, inbuf) && Def(conf'.regs, outbuf)
    ensures Ev(conf'.regs, inbuf) == Ev(conf.regs, inbuf) && Ev(conf'.regs, outbuf) == Ev(conf.regs, outbuf)
  {}

  /** Back to the head with one item less to go. */
  lemma RepeatIndexed(p: seq<Block>, k: nat, head: Builder, test: Builder, pre: nat, cond: nat, compact: Operand,
                      counter: nat, conf: Conf, conf1: Conf, ts: seq<Transfer>, extent: nat, m: nat, c: int, i: int,
                      c1: int)
    returns (conf2: Conf)
    requires Done(p, k, head, test, conf, conf1, ts) && AtIndexed(conf.regs, k, extent, m, c, i)
    requires Heads(test, head.cur, pre, k, 2) && head.blocks[head.cur].instrs == []
    requires CanEndLoop(test, head.cur, [compact, Reg(counter)])
    requires Le(EndLoop(test, head.cur, test.cur, Reg(cond), [compact, Reg(counter)]).blocks, p)
    requires cond in conf1.regs && conf1.regs[cond] == 0 && extent >= 1 && m >= 2
    requires Def(conf1.regs, compact) && Ev(conf1.regs, compact) == c1 && 0 <= c1 < W
    requires counter in conf1.regs && conf1.regs[counter] == i + extent
    ensures Done(p, k, head, head, conf, conf2, ts) && conf2.mem == Copy(conf.mem, ts)
    ensures AtIndexed(conf2.regs, k, extent, m - 1, c1, i + extent)
  {
    hide Copy, Reaches, Le, EndLoop, At, Heads, CanEndLoop, Times, Done, Keeps;
    SetTwo(conf1.regs, k, compact, Reg(counter));
    conf2 := ThenRepeat(p, k, head, test, pre, Reg(cond), [compact, Reg(counter)], conf, conf1, ts);
    Kept(p, k, head, head, conf, conf2, ts, Reg(k - 1));
    DoneMemory(p, k, head, head, conf, conf2, ts);
    CounterFits(extent, m, i);
  }

  lemma IndexedPasses(p: seq<Block>, b: Builder, pack: bool, inbuf: Operand, n: Operand, outbuf: Operand,
                      extent: nat, fields: seq<Field>, m: nat, c: int, i: int, conf: Conf)
    returns (conf': Conf)
    requires Ok(b) && Le(EmitIndexed(b, pack, inbuf, n, outbuf, extent, fields).blocks, p)
    requires Args(conf.regs, b.next, inbuf, n, outbuf) && FieldsRun(p, fields, pack) && extent >= 1 && m >= 1
    requires AtIndexed(conf.regs, b.next + 2, extent, m, c, i)
    requires var s := Wrap(Ev(conf.regs, ScatteredOf(pack, inbuf, outbuf)) + i);
      Ready(conf.mem, Along(Items(FieldsRoute(fields, pack), pack, extent, FieldsSize(fields), m),
                            InOf(pack, s, c), OutOf(pack, s, c)))
    ensures var l := IndexedLoop(b, pack, inbuf, n, outbuf, extent, fields);
      var s := Wrap(Ev(conf.regs, ScatteredOf(pack, inbuf, outbuf)) + i);
      Done(p, l.total.next, l.head, EmitIndexed(b, pack, inbuf, n, outbuf, extent, fields), conf, conf',
           Along(Items(FieldsRoute(fields, pack), pack, extent, FieldsSize(fields), m),
                 InOf(pack, s, c), OutOf(pack, s, c)))
    decreases m
  {
    hide FieldsRun, Ready, Along, FieldsRoute, FieldsSize, Items, Copy, Reaches, Le, Append, Bind, StartLoop, EndLoop,
         EmitIndexed, IndexedLoop, At, Heads, CanEndLoop, Times, Done, Keeps, Args, Usable;
    var l := IndexedLoop(b, pack, inbuf, n, outbuf, extent, fields);
    ArgsOf(conf.regs, b.next, inbuf, n, outbuf);
    IndexedIsBuilt(p, b, pack, inbuf, n, outbuf, extent, fields);
    var k, r, packed := l.total.next, FieldsRoute(fields, pack), FieldsSize(fields);
    var d := Ev(conf.regs, ScatteredOf(pack, inbuf, outbuf));
    var s, s1, c1 := Wrap(d + i), Wrap(d + (i + extent)), Wrap(c + packed);
    var first := Along(r, InOf(pack, s, c), OutOf(pack, s, c));
    var rest := Along(Items(r, pack, extent, packed, m - 1), InOf(pack, s1, c1), OutOf(pack, s1, c1));
    NextItem(r, pack, extent, packed, m, d, i, c);
    ReadyParts(conf.mem, first, rest);
    var conf1 := IndexedPass(p, b, pack, inbuf, n, outbuf, extent, fields, m, c, i, conf);
    CounterFits(extent, m, i);
    var nexts := [l.nextcompact, Reg(l.body.next)];
    if m == 1 {
      conf' := conf1;
      ThenExit(p, k, l.head, l.test, l.head.cur, l.test.cur, Reg(l.step.next), nexts, conf, conf1, first);
    } else {
      var conf2 := RepeatIndexed(p, k, l.head, l.test, l.total.cur, l.step.next, l.nextcompact, l.body.next, conf,
                                 conf1, first, extent, m, c, i, c1);
      ArgsKept(p, k, l.head, l.head, conf, conf2, first, b.next, inbuf, n, outbuf);
      conf' := IndexedPasses(p, b, pack, inbuf, n, outbuf, extent, fields, m - 1, c1, i + extent, conf2);
      Around(p, k, l.head, EmitIndexed(b, pack, inbuf, n, outbuf, extent, fields), conf, conf2, conf', first, rest);
    }
  }

  /** The whole generator: the placed blocks of n items, in order. */
  lemma IndexedRuns(p: seq<Block>, b: Builder, pack: bool, inbuf: Operand, n: Operand, outbuf: Operand,
                    extent: nat, fields: seq<Field>, conf: Conf)
    returns (conf': Conf)
    requires Ok(b) && Le(EmitIndexed(b, pack, inbuf, n, outbuf, extent, fields).blocks, p)
    requires Args(conf.regs, b.next, inbuf, n, outbuf) && Ev(conf.regs, n) >= 1
    requires FieldsRun(p, fields, pack) && 1 <= extent <= INT32_MAX
    requires Ready(conf.mem, Along(Items(FieldsRoute(fields, pack), pack, extent, FieldsSize(fields), Ev(conf.regs, n)),
                                   Ev(conf.regs, inbuf), Ev(conf.regs, outbuf)))
    ensures Done(p, b.next, b, EmitIndexed(b, pack, inbuf, n, outbuf, extent, fields), conf, conf',
                 Along(Items(FieldsRoute(fields, pack), pack, extent, FieldsSize(fields), Ev(conf.regs, n)),
                       Ev(conf.regs, inbuf), Ev(conf.regs, outbuf)))
  {
    hide FieldsRun, Ready, Along, FieldsRoute, FieldsSize, Items, Copy, Reaches, Le, EmitIndexed, IndexedLoop, At,
         Times, Keeps;
    var l := IndexedLoop(b, pack, inbuf, n, outbuf, extent, fields);
    var total := Ev(conf.regs, n);
    var ts := Along(Items(FieldsRoute(fields, pack), pack, extent, FieldsSize(fields), total),
                    Ev(conf.regs, inbuf), Ev(conf.regs, outbuf));
    var c1 := EnterIndexed(p, b, pack, inbuf, n, outbuf, extent, fields, conf);
    conf' := IndexedPasses(p, b, pack, inbuf, n, outbuf, extent, fields, total,
                           Ev(conf.regs, CompactOf(pack, inbuf, outbuf)), 0, c1);
    Weaken(p, l.total.next, b.next, l.head, EmitIndexed(b, pack, inbuf, n, outbuf, extent, fields), c1, conf', ts);
    ThenLoop(p, b.next, b, l.head, EmitIndexed(b, pack, inbuf, n, outbuf, extent, fields), conf, c1, conf', ts);
  }

  /** Up to the head of the loop, whatever the extent. */
  lemma EnterItems(p: seq<Block>, b: Builder, pack: bool, inbuf: Operand, n: Operand, outbuf: Operand,
                   extent: int, fields: seq<Field>, conf: Conf)
    returns (conf': Conf)
    requires Ok(b) && Le(EmitIndexed(b, pack, inbuf, n, outbuf, extent, fields).blocks, p)
    requires Args(conf.regs, b.next, inbuf, n, outbuf)
    ensures var l := IndexedLoop(b, pack, inbuf, n, outbuf, extent, fields);
      Done(p, b.next, b, l.head, conf, conf', []) && conf'.mem == conf.mem
    ensures AtItem(conf'.regs, b.next + 2, Ev(conf.regs, CompactOf(pack, inbuf, outbuf)), 0,
                   Wrap(Ev(conf.regs, n) * Wrap(extent)))
    ensures Args(conf'.regs, b.next, inbuf, n, outbuf)
      && Ev(conf'.regs, inbuf) == Ev(conf.regs, inbuf) && Ev(conf'.regs, outbuf) == Ev(conf.regs, outbuf)
  {
    hide Copy, Reaches, Le, Append, Bind, StartLoop, EndLoop, EmitIndexed, IndexedLoop, At, Heads, CanEndLoop, Done,
         Keeps;
    var l := IndexedLoop(b, pack, inbuf, n, outbuf, extent, fields);
    IndexedIsBuilt(p, b, pack, inbuf, n, outbuf, extent, fields);
    var inits := [CompactOf(pack, inbuf, outbuf), Imm(0)];
    DoneNothing(p, b, conf);
    var c0 := ThenLet(p, b.next, b, b, ZExt(n), conf, conf, []);
    var c1 := ThenLet(p, b.next, b, l.count, Mul64(Reg(b.next), Imm(extent)), conf, c0, []);
    assert Wrap32(Ev(conf.regs, n)) == Ev(conf.regs, n);
    KeptAll(p, b, l.total, conf, c1, inbuf, n, outbuf);
    SetTwo(c1.regs, l.total.next, inits[0], inits[1]);
    conf' := ThenStartLoop(p, b.next, b, l.total, inits, conf, c1, []);
    KeptAll(p, b, l.head, conf, conf', inbuf, n, outbuf);
  }

  lemma EnterIndexed(p: seq<Block>, b: Builder, pack: bool, inbuf: Operand, n: Operand, outbuf: Operand,
                     extent: nat, fields: seq<Field>, conf: Conf)
    returns (conf': Conf)
    requires Ok(b) && Le(EmitIndexed(b, pack, inbuf, n, outbuf, extent, fields).blocks, p)
    requires Args(conf.regs, b.next, inbuf, n, outbuf) && extent <= INT32_MAX
    ensures var l := IndexedLoop(b, pack, inbuf, n, outbuf, extent, fields);
      Done(p, b.next, b, l.head, conf, conf', []) && conf'.mem == conf.mem
    ensures AtIndexed(conf'.regs, b.next + 2, extent, Ev(conf.regs, n), Ev(conf.regs, CompactOf(pack, inbuf, outbuf)),
                      0)
    ensures Args(conf'.regs, b.next, inbuf, n, outbuf)
      && Ev(conf'.regs, inbuf) == Ev(conf.regs, inbuf) && Ev(conf'.regs, outbuf) == Ev(conf.regs, outbuf)
  {
    hide IndexedLoop, Times, Done, Le, Usable, Wrap, EmitIndexed, Args;
    ArgsOf(conf.regs, b.next, inbuf, n, outbuf);
    conf' := EnterItems(p, b, pack, inbuf, n, outbuf, extent, fields, conf);
    TotalFits(extent, Ev(conf.regs, n));
  }

  /** For one item the loop is left after one round, whatever the extent. */
  lemma OneItemRuns(p: seq<Block>, b: Builder, pack: bool, inbuf: Operand, n: Operand, outbuf: Operand,
                    extent: int, fields: seq<Field>, conf: Conf)
    returns (conf': Conf)
    requires Ok(b) && Le(EmitIndexed(b, pack, inbuf, n, outbuf, extent, fields).blocks, p)
    requires Args(conf.regs, b.next, inbuf, n, outbuf) && Ev(conf.regs, n) == 1 && FieldsRun(p, fields, pack)
    requires Ready(conf.mem, Along(FieldsRoute(fields, pack), Ev(conf.regs, inbuf), Ev(conf.regs, outbuf)))
    ensures Done(p, b.next, b, EmitIndexed(b, pack, inbuf, n, outbuf, extent, fields), conf, conf',
                 Along(FieldsRoute(fields, pack), Ev(conf.regs, inbuf), Ev(conf.regs, outbuf)))
  {
    hide FieldsRun, Ready, Along, FieldsRoute, FieldsSize, Copy, Reaches, Le, EmitIndexed, IndexedLoop, At, Keeps,
         Done, Heads, CanEndLoop;
    var l := IndexedLoop(b, pack, inbuf, n, outbuf, extent, fields);
    var ts := Along(FieldsRoute(fields, pack), Ev(conf.regs, inbuf), Ev(conf.regs, outbuf));
    IndexedIsBuilt(p, b, pack, inbuf, n, outbuf, extent, fields);
    var c1 := EnterItems(p, b, pack, inbuf, n, outbuf, extent, fields, conf);
    var c, total := Ev(conf.regs, CompactOf(pack, inbuf, outbuf)), Wrap(1 * Wrap(extent));
    conf' := IndexedItem(p, b, pack, inbuf, n, outbuf, extent, fields, c, 0, total, c1);
    ThenExit(p, l.total.next, l.head, l.test, l.head.cur, l.test.cur, Reg(l.step.next),
             [l.nextcompact, Reg(l.body.next)], c1, conf', ts);
    Weaken(p, l.total.next, b.next, l.head, EmitIndexed(b, pack, inbuf, n, outbuf, extent, fields), c1, conf', ts);
    ThenLoop(p, b.next, b, l.head, EmitIndexed(b, pack, inbuf, n, outbuf, extent, fields), conf, c1, conf', ts);
  }

  lemma KeptAll(p: seq<Block>, b: Builder, r: Builder, conf: Conf, conf': Conf, inbuf: Operand, n: Operand,
                outbuf: Operand)
    requires Done(p, b.next, b, r, conf, conf', []) && Args(conf.regs, b.next, inbuf, n, outbuf)
    ensures Args(conf'.regs, b.next, inbuf, n, outbuf) && conf'.mem == conf.mem
    ensures Ev(conf'.regs, inbuf) == Ev(conf.regs, inbuf) && Ev(conf'.regs, n) == Ev(conf.regs, n)
      && Ev(conf'.regs, outbuf) == Ev(conf.regs, outbuf)
  {}

  lemma TotalFits(extent: nat, n: nat)
    requires extent <= INT32_MAX && n < W32
    ensures Wrap32(n) == n && Wrap(n * Wrap(extent)) == Times(extent, n) < W
  {
    hide Times;
    TimesIsProduct(extent, n);
    MulNonNegative(n, extent);
    MulNonNegative(W32 - n, extent);
    MulDistributes(W32, n, extent);
    assert Wrap(extent) == extent;
  }
}
