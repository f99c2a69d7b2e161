/** The two halves of the interposer together: a pending receive remembers a handle, not a type, and looks the type
    up when it completes.  MPI lets the program free a type while a receive of it is pending. */
module Interposition {
  import H = Handles
  import R = Requests

  /** Type objects are numbered in the order of their creation; MPI_Type_free deletes the object and frees the
      handle. */
  datatype Op = MakeType | FreeType(h: int) | Call(op: R.Op)

  datatype World = World(h: H.World<nat>, made: nat, freed: set<nat>, r: R.World)

  function Begin(): World { World(H.Begin(), 0, {}, R.BEGIN) }

  /** The requests that op completes. */
  function Completes(x: World, op: R.Op): seq<R.Posted> {
    var before, after := x.r.done, R.Step(x.r, op).done;
    if |before| <= |after| then after[|before|..] else []
  }

  function Pointer(x: World, h: int): H.Ref<nat>
    requires |x.h.table.slots| == H.FAST && h >= 0
  {
    H.Retrieve(x.h.table, h).1
  }

  /** The handle leads to a type object: the look-up finds a pointer and adds nothing to the table. */
  predicate Known(x: World, h: int) { |x.h.table.slots| == H.FAST && h >= 0 && Pointer(x, h) != H.Null }

  /** The program uses the handles that it holds and frees those of the overflow map newest first, and no completed
      receive looks up a null pointer. */
  predicate Legal(x: World, op: Op) {
    match op
    case MakeType => true
    case FreeType(h) => H.Legal(x.h, H.Drop(h))
    case Call(op) =>
      && R.Legal(x.r, op)
      && (op.Start? && op.packed ==> op.datatypeHandle in x.h.live)
      && (op.Blocking? ==> op.datatypeHandle in x.h.live)
      && forall p <- Completes(x, op) :: R.Unpacked(p) && p.r.tmp != R.NoBuffer ==> Known(x, p.r.datatypeHandle)
  }

  ghost predicate Invariant(x: World) {
    && H.Consistent(x.h) && H.Gapless(x.h) && R.Invariant(x.r)
    && (forall h <- x.h.live :: x.h.live[h] < x.made && x.h.live[h] !in x.freed)
    && (forall g, h :: g in x.h.live && h in x.h.live && x.h.live[g] == x.h.live[h] ==> g == h)
    && (forall o <- x.freed :: o < x.made)
  }

  function Step(x: World, op: Op): World
    requires H.HandlesAreNumbers(x.h.table) && (op.FreeType? ==> op.h in x.h.live)
  {
    match op
    case MakeType => World(H.Step(x.h, H.MakeType(x.made)), x.made + 1, x.freed, x.r)
    case FreeType(h) => World(H.Step(x.h, H.Drop(h)), x.made, x.freed + {x.h.live[h]}, x.r)
    case Call(op) => x.(r := R.Step(x.r, op))
  }

  lemma StepKeeps(x: World, op: Op)
    requires Invariant(x) && Legal(x, op)
    ensures H.HandlesAreNumbers(x.h.table) && (op.FreeType? ==> op.h in x.h.live) && Invariant(Step(x, op))
  {
    hide H.Consistent, H.Gapless, R.Invariant, R.Step, Invariant, Legal, Step;
    InvariantParts(x);
    ConsistentNumbers(x.h);
    match op
    case MakeType => MakeKeeps(x);
    case FreeType(h) => FreeKeeps(x, h);
    case Call(op) => CallKeeps(x, op);
  }

  lemma InvariantParts(x: World)
    requires Invariant(x)
    ensures H.Consistent(x.h) && H.Gapless(x.h) && R.Invariant(x.r)
  {}

  lemma MakeKeeps(x: World)
    requires Invariant(x) && H.HandlesAreNumbers(x.h.table)
    ensures Invariant(Step(x, MakeType))
  {
    hide H.Consistent, H.Gapless, R.Invariant;
    H.StepKeeps(x.h, H.MakeType(x.made));
    FreshHandle(x.h, x.made);
  }

  lemma FreeKeeps(x: World, h: int)
    requires Invariant(x) && Legal(x, FreeType(h)) && H.HandlesAreNumbers(x.h.table)
    ensures h in x.h.live && Invariant(Step(x, FreeType(h)))
  {
    hide H.Consistent, H.Gapless, R.Invariant;
    H.StepKeeps(x.h, H.Drop(h));
  }

  lemma CallKeeps(x: World, op: R.Op)
    requires Invariant(x) && Legal(x, Call(op)) && H.HandlesAreNumbers(x.h.table)
    ensures Invariant(Step(x, Call(op)))
  {
    hide H.Consistent, H.Gapless, R.Invariant, R.Step;
    R.RunKeeps(x.r, [op]);
    OneOp(x.r, op);
  }

  lemma ConsistentNumbers(w: H.World<nat>)
    requires H.Consistent(w)
    ensures H.HandlesAreNumbers(w.table) && forall h <- w.live :: h >= 0
  {}

  lemma FreshHandle(w: H.World<nat>, o: nat)
    requires H.Consistent(w) && H.Gapless(w)
    ensures H.HandlesAreNumbers(w.table) && H.Make(w.table, o).1 !in w.live
    ensures H.Step(w, H.MakeType(o)).live == w.live[H.Make(w.table, o).1 := o]
  {
    H.MakeStaysGapless(w, o);
    H.MakeKeeps(w, o);
  }

  lemma OneOp(w: R.World, op: R.Op)
    ensures R.Run(w, [op]) == R.Step(w, op) && (R.AllLegal(w, [op]) <==> R.Legal(w, op))
  {
    assert [op][1..] == [];
  }

  function Run(x: World, ops: seq<Op>): World
    requires Invariant(x) && AllLegal(x, ops)
    decreases |ops|
  {
    if ops == [] then x
    else
      StepKeeps(x, ops[0]);
      Run(Step(x, ops[0]), ops[1..])
  }

  ghost predicate AllLegal(x: World, ops: seq<Op>)
    requires Invariant(x)
    decreases |ops|
  {
    if ops == [] then true
    else Legal(x, ops[0]) && (StepKeeps(x, ops[0]); AllLegal(Step(x, ops[0]), ops[1..]))
  }

  /** The handle still leads to this object, and the object has not been deleted. */
  predicate StillHolds(x: World, h: int, o: nat) { Known(x, h) && Pointer(x, h) == H.Ref(o) && o !in x.freed }

  /** OVER EVERY LEGAL RUN a handle leads to the object it had, if and only if the program has not freed it: not by
      number again, when the handle has been given out anew, and not to the object, when it has been deleted. */
  lemma {:induction false} HandleKeeps(x: World, ops: seq<Op>, h: int)
    requires Invariant(x) && AllLegal(x, ops) && h in x.h.live
    ensures StillHolds(Run(x, ops), h, x.h.live[h]) <==> FreeType(h) !in ops
    ensures FreeType(h) !in ops ==> h in Run(x, ops).h.live && Run(x, ops).h.live[h] == x.h.live[h]
    decreases |ops|
  {
    hide Invariant, Legal, StillHolds;
    if ops == [] {
      LiveHolds(x, h);
    } else {
      StepKeeps(x, ops[0]);
      var y := Step(x, ops[0]);
      assert ops == [ops[0]] + ops[1..];
      if ops[0] == FreeType(h) {
        StaysFreed(y, ops[1..], x.h.live[h]);
        FreedIsGone(Run(y, ops[1..]), h, x.h.live[h]);
      } else {
        OthersStay(x, ops[0], h);
        HandleKeeps(y, ops[1..], h);
      }
    }
  }

  lemma LiveHolds(x: World, h: int)
    requires Invariant(x) && h in x.h.live
    ensures StillHolds(x, h, x.h.live[h])
  {}

  lemma FreedIsGone(x: World, h: int, o: nat)
    requires o in x.freed
    ensures !StillHolds(x, h, o)
  {}

  lemma OthersStay(x: World, op: Op, h: int)
    requires Invariant(x) && Legal(x, op) && h in x.h.live && op != FreeType(h)
    requires H.HandlesAreNumbers(x.h.table)
    ensures h in Step(x, op).h.live && Step(x, op).h.live[h] == x.h.live[h]
  {
    hide H.Consistent, H.Gapless, R.Invariant, R.Step, H.Retrieve;
    if op.MakeType? { FreshHandle(x.h, x.made); }
  }

  lemma {:induction false} StaysFreed(x: World, ops: seq<Op>, o: nat)
    requires Invariant(x) && AllLegal(x, ops) && o in x.freed
    ensures o in Run(x, ops).freed
    decreases |ops|
  {
    hide Invariant, Legal;
    if ops != [] {
      StepKeeps(x, ops[0]);
      StaysFreed(Step(x, ops[0]), ops[1..], o);
    }
  }

  // ----- pending receives -----

  /** The position of a pending request is found by its address. */
  lemma FindsPending(w: R.World, p: R.Posted) returns (i: nat)
    requires R.Invariant(w) && p in w.pending
    ensures i < |w.pending| == |w.s.outstanding| && w.pending[i] == p && R.Find(w.s.outstanding, p.r.id) == i
    ensures w.s.outstanding[i] == p.r && !p.blocking
  {
    i :| 0 <= i < |w.pending| && w.pending[i] == p;
    assert w.s.outstanding[i].id == p.r.id;
    assert R.DistinctIds(w.s.outstanding);
  }

  /** A RECEIVE IS UNPACKED AS IT WAS POSTED if and only if the program did not free its type while it was pending.
      A receive p with a user buffer was posted in world x with handle h; whatever legal calls follow, if it is
      then still pending, waiting for it unpacks its buffer with the object that h leads to. */
  lemma ReceiveUses(x: World, ops: seq<Op>, p: R.Posted)
    requires Invariant(x) && AllLegal(x, ops) && p.r.datatypeHandle in x.h.live
    requires p in Run(x, ops).r.pending && p.recv && p.r.tmp != R.NoBuffer && p.r.user != 0
    ensures var y, h := Run(x, ops), p.r.datatypeHandle;
      && R.Step(y.r, R.Waits([R.Item(p.r.id, false, true)])).s.log
         == y.r.s.log + [R.Unpack(p.r.tmp, p.r.user, p.r.count, h), R.Release(p.r.tmp)]
      && (StillHolds(y, h, x.h.live[h]) <==> FreeType(h) !in ops)
  {
    hide H.Consistent, H.Gapless, Legal, StillHolds, AllLegal, R.Find;
    HandleKeeps(x, ops, p.r.datatypeHandle);
    var y := Run(x, ops);
    RunStays(x, ops);
    var i := FindsPending(y.r, p);
    var items := [R.Item(p.r.id, false, true)];
    assert items[1..] == [];
    assert R.WaitAll(y.r.s, items) == R.WaitAll(R.Complete(y.r.s, p.r.id), []);
    assert R.Effects(p.r) == [R.Unpack(p.r.tmp, p.r.user, p.r.count, p.r.datatypeHandle), R.Release(p.r.tmp)];
  }

  lemma {:induction false} RunStays(x: World, ops: seq<Op>)
    requires Invariant(x) && AllLegal(x, ops)
    ensures Invariant(Run(x, ops))
    decreases |ops|
  {
    hide Invariant, Legal;
    if ops != [] {
      StepKeeps(x, ops[0]);
      RunStays(Step(x, ops[0]), ops[1..]);
    }
  }

  // ----- a freed type -----

  function Makes(n: nat): seq<Op> { seq(n, _ => MakeType) }

  lemma InitiallyTrue()
    ensures Invariant(Begin())
  {
    H.InitiallyConsistent<nat>();
    R.RunFromBegin([]);
  }

  lemma {:induction false} ManyMakes(x: World, n: nat) returns (y: World)
    requires Invariant(x)
    ensures AllLegal(x, Makes(n)) && y == Run(x, Makes(n)) && Invariant(y) && y.r == x.r && y.made == x.made + n
    ensures |y.h.table.free| == (if n <= |x.h.table.free| then |x.h.table.free| - n else 0)
    ensures |y.h.table.fallback|
         == |x.h.table.fallback| + (if n <= |x.h.table.free| then 0 else n - |x.h.table.free|)
    decreases n
  {
    hide H.Consistent, H.Gapless, H.Create, H.Store, H.HandlesAreNumbers, R.Invariant;
    if n == 0 {
      y := x;
    } else {
      H.CreateCounts(x.h, x.made);
      StepKeeps(x, MakeType);
      assert Makes(n)[1..] == Makes(n - 1) && Makes(n)[0] == MakeType;
      y := ManyMakes(Step(x, MakeType), n - 1);
    }
  }

  lemma RunCons(x: World, op: Op, rest: seq<Op>)
    requires Invariant(x) && Legal(x, op)
    ensures H.HandlesAreNumbers(x.h.table) && (op.FreeType? ==> op.h in x.h.live) && Invariant(Step(x, op))
    ensures AllLegal(Step(x, op), rest) ==>
      AllLegal(x, [op] + rest) && Run(x, [op] + rest) == Run(Step(x, op), rest)
  {
    hide Invariant, Legal, Step;
    StepKeeps(x, op);
    assert ([op] + rest)[1..] == rest;
  }

  const START := Call(R.Start(7, true, true, 8, 1, 1, 50))
  const POSTED := R.Posted(R.Request(7, R.Scratch, 1, 1, 50), true, false)

  /** 51 types are made, a receive is posted with the last handle, its type is freed and another type made: the new
      type gets the same handle, and the pending receive will be unpacked with it. */
  lemma FreedWhilePending() returns (x: World, y: World)
    ensures Invariant(Begin()) && AllLegal(Begin(), Makes(51)) && x == Run(Begin(), Makes(51))
    ensures Invariant(x) && 50 in x.h.live
    ensures AllLegal(x, [START, FreeType(50), MakeType]) && y == Run(x, [START, FreeType(50), MakeType])
    ensures POSTED in y.r.pending && Known(y, 50) && Pointer(y, 50) == H.Ref(51) && x.h.live[50] != 51
  {
    hide Invariant, Run, AllLegal, Known, Pointer;
    InitiallyTrue();
    x := ManyMakes(Begin(), 51);
    y := FreedFrom(x);
  }

  lemma FreedFrom(x: World) returns (y: World)
    requires Invariant(x) && x.h.table.free == [] && |x.h.table.fallback| == 1 && x.r == R.BEGIN && x.made == 51
    ensures 50 in x.h.live && x.h.live[50] != 51
    ensures AllLegal(x, [START, FreeType(50), MakeType]) && y == Run(x, [START, FreeType(50), MakeType])
    ensures POSTED in y.r.pending && Known(y, 50) && Pointer(y, 50) == H.Ref(51)
  {
    hide Invariant, Run, AllLegal;
    LastHandle(x);
    StartedAt(x);
    RunCons(x, START, [FreeType(50), MakeType]);
    var x1 := Step(x, START);
    assert x1.h == x.h && x1.made == 51;
    RunCons(x1, FreeType(50), [MakeType]);
    var x2 := Step(x1, FreeType(50));
    AfterFree(x1, x2);
    RunCons(x2, MakeType, []);
    y := Step(x2, MakeType);
    NoOps(y);
    assert [START, FreeType(50), MakeType] == [START] + [FreeType(50), MakeType];
    assert [FreeType(50), MakeType] == [FreeType(50)] + [MakeType];
    assert [MakeType] == [MakeType] + [];
    MadeAt(x2, 50);
  }

  lemma NoOps(x: World)
    requires Invariant(x)
    ensures AllLegal(x, []) && Run(x, []) == x
  {}

  /** The receive is legal, and gets the scratch buffer. */
  lemma StartedAt(x: World)
    requires x.r == R.BEGIN && 50 in x.h.live && H.HandlesAreNumbers(x.h.table)
    ensures Legal(x, START) && Step(x, START).r.pending == [POSTED]
  {}

  /** The new object is behind the handle that the table gives out next. */
  lemma MadeAt(x: World, h: int)
    requires Invariant(x) && H.Create(x.h.table).1 == h && H.HandlesAreNumbers(x.h.table)
    ensures Known(Step(x, MakeType), h) && Pointer(Step(x, MakeType), h) == H.Ref(x.made)
  {
    hide H.Consistent, H.Gapless, R.Invariant, H.Retrieve;
    FreshHandle(x.h, x.made);
    StepKeeps(x, MakeType);
    LiveHolds(Step(x, MakeType), h);
  }

  lemma LastHandle(x: World)
    requires Invariant(x) && x.h.table.free == [] && |x.h.table.fallback| == 1
    ensures 50 in x.h.live && x.h.live[50] < x.made && Legal(x, FreeType(50)) && H.HandlesAreNumbers(x.h.table)
  {}

  /** Freeing the only overflow handle makes it the next one. */
  lemma AfterFree(x: World, y: World)
    requires Invariant(x) && x.h.table.free == [] && |x.h.table.fallback| == 1 && 50 in x.h.live
    requires H.HandlesAreNumbers(x.h.table) && y == Step(x, FreeType(50))
    ensures H.Create(y.h.table).1 == 50 && y.made == x.made && y.r == x.r
  {
    assert 50 in x.h.table.fallback;
    assert y.h.table.fallback.Keys == x.h.table.fallback.Keys - {50};
    assert |y.h.table.fallback| == 0;
  }
}
