/** The interposer's outstanding requests and temporary buffers. */
module Requests {
  const SCRATCH_SIZE: int := 2 * 1024 * 1024

  /** A temporary buffer; heap buffers are numbered in the order of allocation. */
  datatype Buffer = NoBuffer | Scratch | Heap(id: nat)

  /** `id` is the address of the caller's MPI_Request, `user` that of the buffer to receive into (0 is NULL, which
      is also MPI_BOTTOM). */
  datatype Request = Request(id: int, tmp: Buffer, user: int, count: int, datatypeHandle: int)

  datatype Event = Unpack(tmp: Buffer, user: int, count: int, datatypeHandle: int) | Release(tmp: Buffer)

  /** g_outstanding_requests, scratch_in_use, the allocator, and what was done to the buffers so far. */
  datatype State = State(outstanding: seq<Request>, scratchInUse: bool, nextHeap: nat, log: seq<Event>)

  /** is_recv: the program takes a request with a user buffer for a receive, and any other for a send. */
  predicate IsRecv(r: Request) { r.user != 0 }

  function Initial(): State { State([], false, 0, []) }

  // ----- the operations on values -----

  function Alloc(s: State, size: int): (State, Buffer) {
    if size <= SCRATCH_SIZE && !s.scratchInUse then (s.(scratchInUse := true), Scratch)
    else (s.(nextHeap := s.nextHeap + 1), Heap(s.nextHeap))
  }

  /** interposer_buffer_free marks the scratch buffer as IN USE when it is given back. */
  function FreeBuffer(s: State, b: Buffer): State {
    s.(log := s.log + [Release(b)], scratchInUse := if b == Scratch then true else s.scratchInUse)
  }

  /** What completing a request does to its buffer. */
  function Effects(r: Request): seq<Event> {
    if r.tmp == NoBuffer then []
    else (if IsRecv(r) then [Unpack(r.tmp, r.user, r.count, r.datatypeHandle)] else []) + [Release(r.tmp)]
  }

  /** Position of the first request with this id, or the length. */
  function Find(rs: seq<Request>, id: int): (i: nat)
    ensures i <= |rs|
    ensures forall j :: 0 <= j < i ==> rs[j].id != id
    ensures i < |rs| ==> rs[i].id == id
  {
    if rs == [] || rs[0].id == id then 0 else 1 + Find(rs[1..], id)
  }

  function Without<T>(xs: seq<T>, i: nat): seq<T>
    requires i < |xs|
  {
    xs[..i] + xs[i + 1..]
  }

  /** interposer_request_free. */
  function Complete(s: State, id: int): State {
    var i := Find(s.outstanding, id);
    if i == |s.outstanding| then s
    else
      var r := s.outstanding[i];
      State(Without(s.outstanding, i), s.scratchInUse || r.tmp == Scratch, s.nextHeap, s.log + Effects(r))
  }

  /** One entry of MPI_Waitall and MPI_Testall: the request's address, and whether its value was
      MPI_REQUEST_NULL before and after the underlying call. */
  datatype Item = Item(id: int, wasNull: bool, isNull: bool)

  function WaitAll(s: State, items: seq<Item>): State
    decreases |items|
  {
    if items == [] then s
    else WaitAll(if items[0].wasNull then s else Complete(s, items[0].id), items[1..])
  }

  function TestAll(s: State, items: seq<Item>): State
    decreases |items|
  {
    if items == [] then s
    else TestAll(if !items[0].wasNull && items[0].isNull then Complete(s, items[0].id) else s, items[1..])
  }

  // ----- the same operations as the program runs them -----

  class Interposer {
    var outstanding: seq<Request>
    var scratch_in_use: bool
    var nextHeap: nat
    var log: seq<Event>

    function Now(): State
      reads this
    {
      State(outstanding, scratch_in_use, nextHeap, log)
    }

    constructor ()
      ensures Now() == Initial()
    {
      outstanding, scratch_in_use, nextHeap, log := [], false, 0, [];
    }

    method BufferAlloc(size: int) returns (b: Buffer)
      modifies this
      ensures (Now(), b) == Alloc(old(Now()), size)
    {
      if size <= SCRATCH_SIZE && !scratch_in_use {
        scratch_in_use := true;
        b := Scratch;
      } else {
        b := Heap(nextHeap);
        nextHeap := nextHeap + 1;
      }
    }

    method BufferFree(b: Buffer)
      modifies this
      ensures Now() == FreeBuffer(old(Now()), b)
    {
      log := log + [Release(b)];
      if b == Scratch { scratch_in_use := true; }
    }

    method RequestRegister(r: Request)
      modifies this
      ensures Now() == old(Now()).(outstanding := old(outstanding) + [r])
    {
      outstanding := outstanding + [r];
    }

    method RequestFree(id: int)
      modifies this
      ensures Now() == Complete(old(Now()), id)
    {
      var i := 0;
      while i < |outstanding| && outstanding[i].id != id
        invariant i <= Find(outstanding, id) && Now() == old(Now())
        decreases |outstanding| - i
      {
        i := i + 1;
      }
      if i < |outstanding| {
        var r := outstanding[i];
        if r.tmp != NoBuffer {
          if IsRecv(r) { log := log + [Unpack(r.tmp, r.user, r.count, r.datatypeHandle)]; }
          BufferFree(r.tmp);
        }
        outstanding := outstanding[..i] + outstanding[i + 1..];
        assert log == old(log) + Effects(r);
      }
    }

    method Wait(item: Item)
      modifies this
      ensures Now() == WaitAll(old(Now()), [item])
    {
      if !item.wasNull { RequestFree(item.id); }
    }

    /** MPI_Test looks at neither the flag nor the request's new value. */
    method Test(item: Item)
      modifies this
      ensures Now() == WaitAll(old(Now()), [item])
    {
      if !item.wasNull { RequestFree(item.id); }
    }

    method Waitall(items: seq<Item>)
      modifies this
      ensures Now() == WaitAll(old(Now()), items)
    {
      for i := 0 to |items|
        invariant WaitAll(Now(), items[i..]) == WaitAll(old(Now()), items)
      {
        assert items[i..][1..] == items[i + 1..];
        if !items[i].wasNull { RequestFree(items[i].id); }
      }
    }

    method Testall(items: seq<Item>)
      modifies this
      ensures Now() == TestAll(old(Now()), items)
    {
      for i := 0 to |items|
        invariant TestAll(Now(), items[i..]) == TestAll(old(Now()), items)
      {
        assert items[i..][1..] == items[i + 1..];
        if !items[i].wasNull && items[i].isNull { RequestFree(items[i].id); }
      }
    }
  }

  // ----- runs -----

  /** MPI_Isend and MPI_Irecv (with `packed` false for the primitive types, which need no buffer),
      MPI_Send and MPI_Recv, MPI_Wait and MPI_Waitall, MPI_Testall, MPI_Test. */
  datatype Op =
    | Start(id: int, packed: bool, recv: bool, size: int, user: int, count: int, datatypeHandle: int)
    | Blocking(recv: bool, size: int, user: int, count: int, datatypeHandle: int)
    | Waits(items: seq<Item>)
    | Tests(items: seq<Item>)
    | Test(item: Item)

  /** A request and the call that posted it, which the program's own record does not tell. */
  datatype Posted = Posted(r: Request, recv: bool, blocking: bool)

  /** The state, who posted the outstanding requests, and every request so far in the order of its start, and in
      the order of completion. */
  datatype World = World(s: State, pending: seq<Posted>, started: seq<Posted>, done: seq<Posted>)

  /** A send is registered without user buffer, count and type. */
  function StartRequest(s: State, op: Op): (State, Request)
    requires op.Start?
  {
    if !op.packed then (s, Request(op.id, NoBuffer, 0, 0, 0))
    else
      var (s1, b) := Alloc(s, op.size);
      (s1, if op.recv then Request(op.id, b, op.user, op.count, op.datatypeHandle) else Request(op.id, b, 0, 0, 0))
  }

  function CompleteIn(w: World, id: int): (w': World)
    ensures w'.s == Complete(w.s, id) && w'.started == w.started
  {
    var i := Find(w.s.outstanding, id);
    if i >= |w.pending| then w.(s := Complete(w.s, id))
    else World(Complete(w.s, id), Without(w.pending, i), w.started, w.done + [w.pending[i]])
  }

  function WaitIn(w: World, items: seq<Item>): (w': World)
    ensures w'.s == WaitAll(w.s, items) && w'.started == w.started
    decreases |items|
  {
    if items == [] then w
    else WaitIn(if items[0].wasNull then w else CompleteIn(w, items[0].id), items[1..])
  }

  function TestIn(w: World, items: seq<Item>): (w': World)
    ensures w'.s == TestAll(w.s, items) && w'.started == w.started
    decreases |items|
  {
    if items == [] then w
    else TestIn(if !items[0].wasNull && items[0].isNull then CompleteIn(w, items[0].id) else w, items[1..])
  }

  /** MPI_Send and MPI_Recv; the receive unpacks whatever its user buffer. */
  function BlockingIn(w: World, op: Op): World
    requires op.Blocking?
  {
    var (s1, b) := Alloc(w.s, op.size);
    var r := Request(0, b, op.user, op.count, op.datatypeHandle);
    var s2 := if op.recv then s1.(log := s1.log + [Unpack(b, op.user, op.count, op.datatypeHandle)]) else s1;
    var p := Posted(r, op.recv, true);
    World(FreeBuffer(s2, b), w.pending, w.started + [p], w.done + [p])
  }

  function Step(w: World, op: Op): World {
    match op
    case Start(_, _, recv, _, _, _, _) =>
      var (s1, r) := StartRequest(w.s, op);
      var p := Posted(r, recv, false);
      World(s1.(outstanding := s1.outstanding + [r]), w.pending + [p], w.started + [p], w.done)
    case Blocking(_, _, _, _, _) => BlockingIn(w, op)
    case Waits(items) => WaitIn(w, items)
    case Tests(items) => TestIn(w, items)
    case Test(item) => WaitIn(w, [item])
  }

  /** No request is started again while it is outstanding. */
  predicate Legal(w: World, op: Op) {
    op.Start? ==> forall i :: 0 <= i < |w.s.outstanding| ==> w.s.outstanding[i].id != op.id
  }

  /** A blocking receive is unpacked; a request is, if the program takes it for a receive. */
  predicate Unpacked(p: Posted) { if p.blocking then p.recv else IsRecv(p.r) }

  /** What the completion of a posted operation does to its buffer. */
  function Treated(p: Posted): seq<Event> {
    if p.r.tmp == NoBuffer then []
    else (if Unpacked(p) then [Unpack(p.r.tmp, p.r.user, p.r.count, p.r.datatypeHandle)] else []) + [Release(p.r.tmp)]
  }

  function AllTreated(ps: seq<Posted>): seq<Event> {
    if ps == [] then [] else AllTreated(ps[..|ps| - 1]) + Treated(ps[|ps| - 1])
  }

  ghost predicate DistinctIds(rs: seq<Request>) {
    forall i, j :: 0 <= i < j < |rs| ==> rs[i].id != rs[j].id
  }

  /** No two requests were ever given the same buffer. */
  ghost predicate DistinctBuffers(ps: seq<Posted>) {
    forall i, j :: 0 <= i < j < |ps| && ps[i].r.tmp != NoBuffer ==> ps[i].r.tmp != ps[j].r.tmp
  }

  predicate HoldsScratch(ps: seq<Posted>) { exists i :: 0 <= i < |ps| && ps[i].r.tmp == Scratch }

  /** The buffers given out are accounted for by the allocator: the scratch buffer counts as taken exactly if
      some request was ever given it. */
  ghost predicate Allocated(s: State, ps: seq<Posted>) {
    && (s.scratchInUse <==> HoldsScratch(ps))
    && forall i :: 0 <= i < |ps| ==> ps[i].r.tmp.Heap? ==> ps[i].r.tmp.id < s.nextHeap
  }

  /** The list is that of the pending operations, none of them blocking. */
  predicate Listed(pending: seq<Posted>, outstanding: seq<Request>) {
    && |pending| == |outstanding|
    && forall i :: 0 <= i < |pending| ==> pending[i].r == outstanding[i] && !pending[i].blocking
  }

  /** A send that does not block has no user buffer. */
  predicate AllHonest(ps: seq<Posted>) { forall p <- ps :: !p.blocking && !p.recv ==> p.r.user == 0 }

  ghost predicate Invariant(w: World) {
    && DistinctIds(w.s.outstanding) && Listed(w.pending, w.s.outstanding)
    && multiset(w.started) == multiset(w.pending) + multiset(w.done)
    && w.s.log == AllTreated(w.done)
    && DistinctBuffers(w.started) && AllHonest(w.started) && Allocated(w.s, w.started)
  }

  function Run(w: World, ops: seq<Op>): World
    decreases |ops|
  {
    if ops == [] then w else Run(Step(w, ops[0]), ops[1..])
  }

  predicate AllLegal(w: World, ops: seq<Op>)
    decreases |ops|
  {
    ops == [] || (Legal(w, ops[0]) && AllLegal(Step(w, ops[0]), ops[1..]))
  }

  // ----- what every operation keeps -----

  lemma AddDone(ps: seq<Posted>, p: Posted)
    ensures AllTreated(ps + [p]) == AllTreated(ps) + Treated(p)
  {
    assert (ps + [p])[..|ps|] == ps;
  }

  lemma CompleteKeeps(w: World, id: int)
    requires Invariant(w)
    ensures Invariant(CompleteIn(w, id))
  {
    hide AllTreated, DistinctBuffers, AllHonest, DistinctIds, Without, Listed, Treated, Effects;
    SameLength(w.pending, w.s.outstanding);
    var i := Find(w.s.outstanding, id);
    if i < |w.pending| {
      PendingHolds(w, w.pending[i]);
      RemovalKeeps(w.pending, w.s.outstanding, i);
      AddDone(w.done, w.pending[i]);
      SamePosted(w.pending, w.s.outstanding, i);
      assert multiset(w.done + [w.pending[i]]) == multiset(w.done) + multiset([w.pending[i]]);
    }
  }

  lemma SamePosted(pending: seq<Posted>, outstanding: seq<Request>, i: nat)
    requires Listed(pending, outstanding) && i < |pending|
    ensures pending[i].r == outstanding[i]
  {}

  lemma SameLength(pending: seq<Posted>, outstanding: seq<Request>)
    requires Listed(pending, outstanding)
    ensures |pending| == |outstanding|
  {}

  /** What a pending request holds, a started one does. */
  lemma PendingHolds(w: World, p: Posted)
    requires multiset(w.started) == multiset(w.pending) + multiset(w.done) && p in w.pending
    ensures p.r.tmp == Scratch ==> HoldsScratch(w.started)
  {
    assert p in multiset(w.pending) && p in multiset(w.started);
    var i :| 0 <= i < |w.started| && w.started[i] == p;
  }

  lemma RemovalKeeps(ps: seq<Posted>, rs: seq<Request>, i: nat)
    requires i < |rs| && DistinctIds(rs) && Listed(ps, rs)
    ensures DistinctIds(Without(rs, i)) && Listed(Without(ps, i), Without(rs, i))
    ensures multiset(ps) == multiset(Without(ps, i)) + multiset([ps[i]])
    ensures Treated(ps[i]) == Effects(rs[i])
  {
    assert ps == ps[..i] + [ps[i]] + ps[i + 1..];
  }

  lemma {:induction false} WaitKeeps(w: World, items: seq<Item>)
    requires Invariant(w)
    ensures Invariant(WaitIn(w, items))
    decreases |items|
  {
    hide Invariant, CompleteIn;
    if items != [] {
      if !items[0].wasNull { CompleteKeeps(w, items[0].id); }
      WaitKeeps(if items[0].wasNull then w else CompleteIn(w, items[0].id), items[1..]);
    }
  }

  lemma {:induction false} TestKeeps(w: World, items: seq<Item>)
    requires Invariant(w)
    ensures Invariant(TestIn(w, items))
    decreases |items|
  {
    hide Invariant, CompleteIn;
    if items != [] {
      var completes := !items[0].wasNull && items[0].isNull;
      if completes { CompleteKeeps(w, items[0].id); }
      TestKeeps(if completes then CompleteIn(w, items[0].id) else w, items[1..]);
    }
  }

  lemma AllocIsNew(s: State, size: int, ps: seq<Posted>, p: Posted)
    requires Allocated(s, ps) && DistinctBuffers(ps) && p.r.tmp == Alloc(s, size).1
    ensures Allocated(Alloc(s, size).0, ps + [p]) && DistinctBuffers(ps + [p])
  {
    OneMoreHolds(ps, p);
  }

  lemma OneMoreHolds(ps: seq<Posted>, p: Posted)
    ensures HoldsScratch(ps + [p]) <==> HoldsScratch(ps) || p.r.tmp == Scratch
  {
    if p.r.tmp == Scratch { assert (ps + [p])[|ps|].r.tmp == Scratch; }
    if i :| 0 <= i < |ps| && ps[i].r.tmp == Scratch { assert (ps + [p])[i].r.tmp == Scratch; }
  }

  lemma UnbufferedKeeps(ps: seq<Posted>, p: Posted)
    requires DistinctBuffers(ps) && p.r.tmp == NoBuffer
    ensures DistinctBuffers(ps + [p])
  {}

  lemma StartKeeps(w: World, op: Op)
    requires Invariant(w) && op.Start? && Legal(w, op)
    ensures Invariant(Step(w, op))
  {
    hide AllTreated, DistinctBuffers, HoldsScratch;
    var (s1, r) := StartRequest(w.s, op);
    var p := Posted(r, op.recv, false);
    OneMoreHolds(w.started, p);
    if op.packed { AllocIsNew(w.s, op.size, w.started, p); } else { UnbufferedKeeps(w.started, p); }
    assert multiset(w.started + [p]) == multiset(w.started) + multiset([p]);
    assert multiset(w.pending + [p]) == multiset(w.pending) + multiset([p]);
  }

  lemma BlockingKeeps(w: World, op: Op)
    requires Invariant(w) && op.Blocking?
    ensures Invariant(Step(w, op))
  {
    hide AllTreated, DistinctBuffers, DistinctIds, Listed;
    var (s1, b) := Alloc(w.s, op.size);
    var p := Posted(Request(0, b, op.user, op.count, op.datatypeHandle), op.recv, true);
    AllocIsNew(w.s, op.size, w.started, p);
    OneMoreHolds(w.started, p);
    AddDone(w.done, p);
    assert multiset(w.started + [p]) == multiset(w.started) + multiset([p]);
    assert multiset(w.done + [p]) == multiset(w.done) + multiset([p]);
    assert Step(w, op).s.log == w.s.log + Treated(p);
  }

  /** OVER EVERY LEGAL RUN the list holds exactly the requests started and not completed, the buffer of each
      completed one was treated once and in order, and no buffer was ever given out twice. */
  lemma {:induction false} RunKeeps(w: World, ops: seq<Op>)
    requires Invariant(w) && AllLegal(w, ops)
    ensures Invariant(Run(w, ops))
    decreases |ops|
  {
    hide Invariant;
    if ops != [] {
      match ops[0] {
        case Start(_, _, _, _, _, _, _) => StartKeeps(w, ops[0]);
        case Blocking(_, _, _, _, _) => BlockingKeeps(w, ops[0]);
        case Waits(items) => WaitKeeps(w, items);
        case Tests(items) => TestKeeps(w, items);
        case Test(item) => WaitKeeps(w, [item]);
      }
      RunKeeps(Step(w, ops[0]), ops[1..]);
    }
  }

  /** The state after interposer_init, and every state reached from it. */
  const BEGIN := World(Initial(), [], [], [])

  lemma RunFromBegin(ops: seq<Op>)
    requires AllLegal(BEGIN, ops)
    ensures Invariant(Run(BEGIN, ops))
  {
    assert Invariant(BEGIN);
    RunKeeps(BEGIN, ops);
  }

  // ----- what the invariant says about one buffer -----

  /** The events that concern buffer b. */
  function Concerning(log: seq<Event>, b: Buffer): seq<Event> {
    if log == [] then []
    else
      var last := log[|log| - 1];
      Concerning(log[..|log| - 1], b) + (if last.tmp == b then [last] else [])
  }

  lemma {:induction false} ConcerningConcat(x: seq<Event>, y: seq<Event>, b: Buffer)
    ensures Concerning(x + y, b) == Concerning(x, b) + Concerning(y, b)
    decreases |y|
  {
    if y == [] {
      assert x + y == x;
    } else {
      var n := |y| - 1;
      ConcerningConcat(x, y[..n], b);
      assert (x + y)[..|x| + n] == x + y[..n] && (x + y)[|x| + n] == y[n];
    }
  }

  lemma TreatedConcerns(p: Posted, b: Buffer)
    requires b != NoBuffer
    ensures Concerning(Treated(p), b) == if p.r.tmp == b then Treated(p) else []
  {
    var release := Release(p.r.tmp);
    if p.r.tmp != NoBuffer && Unpacked(p) {
      var u := Unpack(p.r.tmp, p.r.user, p.r.count, p.r.datatypeHandle);
      ConcerningConcat([u], [release], b);
      assert Concerning([u], b) == if p.r.tmp == b then [u] else [] by { assert [u][..0] == []; }
    }
    assert Concerning([release], b) == if p.r.tmp == b then [release] else [] by { assert [release][..0] == []; }
  }

  lemma LastTreated(ps: seq<Posted>)
    ensures ps == [] ==> AllTreated(ps) == [] && forall b :: Concerning([], b) == []
    ensures ps != [] ==> AllTreated(ps) == AllTreated(ps[..|ps| - 1]) + Treated(ps[|ps| - 1])
  {}

  /** A buffer's whole history is that of its one completed owner, or empty. */
  lemma {:induction false} HistoryOf(ps: seq<Posted>, b: Buffer)
    requires DistinctBuffers(ps) && b != NoBuffer
    ensures (forall i :: 0 <= i < |ps| ==> ps[i].r.tmp != b) ==> Concerning(AllTreated(ps), b) == []
    ensures forall i :: 0 <= i < |ps| && ps[i].r.tmp == b ==> Concerning(AllTreated(ps), b) == Treated(ps[i])
  {
    hide Treated, Concerning, AllTreated;
    LastTreated(ps);
    if ps != [] {
      var n := |ps| - 1;
      HistoryOf(ps[..n], b);
      ConcerningConcat(AllTreated(ps[..n]), Treated(ps[n]), b);
      TreatedConcerns(ps[n], b);
    }
  }

  /** Removing elements keeps the buffers distinct. */
  lemma SubDistinct(all: seq<Posted>, part: seq<Posted>, rest: seq<Posted>)
    requires DistinctBuffers(all) && multiset(all) == multiset(rest) + multiset(part)
    ensures DistinctBuffers(part)
    ensures forall p <- part, q <- rest :: p.r.tmp != NoBuffer ==> p.r.tmp != q.r.tmp
  {
    forall i, j | 0 <= i < j < |part| && part[i].r.tmp != NoBuffer ensures part[i].r.tmp != part[j].r.tmp {
      if part[i].r.tmp == part[j].r.tmp {
        if part[i] == part[j] {
          TwiceIn(part, i, j);
          AtMostOnce(all, part[i]);
        } else {
          assert part[i] in multiset(part) && part[j] in multiset(part);
          assert part[i] in multiset(all) && part[j] in multiset(all);
          SameBufferSamePosted(all, part[i], part[j]);
        }
      }
    }
    forall p, q | p in part && q in rest && p.r.tmp != NoBuffer ensures p.r.tmp != q.r.tmp {
      assert p in multiset(part) && q in multiset(rest);
      if p == q {
        AtMostOnce(all, p);
      } else {
        assert p in multiset(all) && q in multiset(all);
        if p.r.tmp == q.r.tmp { SameBufferSamePosted(all, p, q); }
      }
    }
  }

  lemma TwiceIn(ps: seq<Posted>, i: int, j: int)
    requires 0 <= i < j < |ps| && ps[i] == ps[j]
    ensures multiset(ps)[ps[i]] >= 2
  {
    assert ps == ps[..j] + ps[j..];
    assert ps[i] in ps[..j] && ps[j..][0] == ps[i];
    assert ps[i] in multiset(ps[..j]) && ps[i] in multiset(ps[j..]);
  }

  lemma {:induction false} AtMostOnce(ps: seq<Posted>, p: Posted)
    requires DistinctBuffers(ps) && p.r.tmp != NoBuffer
    ensures multiset(ps)[p] <= 1
    decreases |ps|
  {
    if ps != [] {
      var n := |ps| - 1;
      assert ps == ps[..n] + [ps[n]];
      AtMostOnce(ps[..n], p);
      if ps[n] == p {
        assert forall i :: 0 <= i < n ==> ps[..n][i] != p;
        assert p !in multiset(ps[..n]);
      }
    }
  }

  lemma SameBufferSamePosted(ps: seq<Posted>, p: Posted, q: Posted)
    requires DistinctBuffers(ps) && p in multiset(ps) && q in multiset(ps) && p.r.tmp == q.r.tmp != NoBuffer
    ensures p == q
  {
    var i :| 0 <= i < |ps| && ps[i] == p;
    var j :| 0 <= j < |ps| && ps[j] == q;
    assert !(i < j) && !(j < i);
  }

  /** EXACTLY ONCE, or never.  At any point of a legal run, the buffer of a completed receive was unpacked once if
      the receive blocked or its user buffer is not NULL, and not at all otherwise; that of a completed send was
      not unpacked.  Then it was released once, and nothing else ever happened to it.  The buffer of an
      outstanding request has not been touched. */
  lemma BufferHistory(w: World, p: Posted)
    requires Invariant(w) && p.r.tmp != NoBuffer
    ensures p in w.done ==>
      var unpacks := p.recv && (p.blocking || p.r.user != 0);
      Concerning(w.s.log, p.r.tmp)
        == (if unpacks then [Unpack(p.r.tmp, p.r.user, p.r.count, p.r.datatypeHandle)] else []) + [Release(p.r.tmp)]
    ensures p in w.pending ==> Concerning(w.s.log, p.r.tmp) == []
    ensures p in w.pending ==> forall q <- w.pending :: q.r.tmp == p.r.tmp ==> q == p
  {
    SubDistinct(w.started, w.done, w.pending);
    HistoryOf(w.done, p.r.tmp);
    if p in w.done {
      assert p in multiset(w.done) && p in multiset(w.started);
      assert Unpacked(p) <==> p.recv && (p.blocking || p.r.user != 0);
    }
    if p in w.pending {
      SubDistinct(w.started, w.pending, w.done);
      forall q | q in w.pending && q.r.tmp == p.r.tmp ensures q == p {
        assert q in multiset(w.pending) && p in multiset(w.pending);
        SameBufferSamePosted(w.pending, p, q);
      }
    }
  }

  /** So over all legal runs: a receive whose buffer was given back has had its data unpacked, if and only if it
      blocked or its user buffer is not NULL. */
  lemma ReceivedExact(ops: seq<Op>, p: Posted)
    requires AllLegal(BEGIN, ops) && p in Run(BEGIN, ops).done && p.recv && p.r.tmp != NoBuffer
    ensures Unpack(p.r.tmp, p.r.user, p.r.count, p.r.datatypeHandle) in Run(BEGIN, ops).s.log
       <==> p.blocking || p.r.user != 0
  {
    hide AllLegal, Run, Invariant;
    RunFromBegin(ops);
    var log := Run(BEGIN, ops).s.log;
    BufferHistory(Run(BEGIN, ops), p);
    ConcerningHolds(log, Unpack(p.r.tmp, p.r.user, p.r.count, p.r.datatypeHandle));
  }

  lemma {:induction false} ConcerningHolds(log: seq<Event>, e: Event)
    ensures e in log <==> e in Concerning(log, e.tmp)
    decreases |log|
  {
    if log != [] {
      assert log == log[..|log| - 1] + [log[|log| - 1]];
      ConcerningHolds(log[..|log| - 1], e);
    }
  }

  /** MPI_Irecv(MPI_BOTTOM, ...) and MPI_Wait: the buffer is given back, the data are lost.  MPI_Recv unpacks them. */
  lemma ReceiveAtBottom()
    ensures var ops := [Start(7, true, true, 8, 0, 1, 60), Waits([Item(7, false, true)])];
      AllLegal(BEGIN, ops) && Run(BEGIN, ops).s.log == [Release(Scratch)]
    ensures Run(BEGIN, [Blocking(true, 8, 0, 1, 60)]).s.log == [Unpack(Scratch, 0, 1, 60), Release(Scratch)]
  {
    var start, wait := Start(7, true, true, 8, 0, 1, 60), Waits([Item(7, false, true)]);
    var w := Step(BEGIN, start);
    assert [start, wait][1..] == [wait] && [wait][1..] == [];
    assert w.s.outstanding == [Request(7, Scratch, 0, 1, 60)];
    assert WaitIn(w, wait.items) == WaitIn(CompleteIn(w, 7), []) by { assert wait.items[1..] == []; }
    var blocking := Blocking(true, 8, 0, 1, 60);
    assert [blocking][1..] == [];
  }

  /** MPI_Test completes a request whether it has finished or not: it does what MPI_Testall does if and only if the
      request was null, has finished, or is not in the list. */
  lemma TestExact(s: State, item: Item)
    ensures WaitAll(s, [item]) == TestAll(s, [item])
       <==> item.wasNull || item.isNull || Find(s.outstanding, item.id) == |s.outstanding|
  {
    assert [item][1..] == [];
    assert WaitAll(s, [item]) == if item.wasNull then s else Complete(s, item.id);
    assert TestAll(s, [item]) == if !item.wasNull && item.isNull then Complete(s, item.id) else s;
    var i := Find(s.outstanding, item.id);
    if i < |s.outstanding| { assert |Complete(s, item.id).outstanding| == |s.outstanding| - 1; }
  }

  /** Since giving it back marks it as taken, the scratch buffer serves one request in the whole run: at any point
      of a legal run it is handed out if and only if the size fits and no request was ever given it. */
  lemma ScratchServesOnce(ops: seq<Op>, more: seq<Op>, size: int)
    requires AllLegal(BEGIN, ops) && AllLegal(Run(BEGIN, ops), more)
    ensures Alloc(Run(BEGIN, ops).s, size).1 == Scratch <==>
      size <= SCRATCH_SIZE && !HoldsScratch(Run(BEGIN, ops).started)
    ensures HoldsScratch(Run(BEGIN, ops).started) ==> Alloc(Run(Run(BEGIN, ops), more).s, size).1 != Scratch
  {
    hide AllLegal, Run, HoldsScratch, DistinctBuffers, DistinctIds, AllTreated, AllHonest, Listed;
    var w := Run(BEGIN, ops);
    RunFromBegin(ops);
    RunKeeps(w, more);
    StartedStays(w, more);
    if HoldsScratch(w.started) { PrefixHolds(w.started, Run(w, more).started); }
  }

  lemma PrefixHolds(ps: seq<Posted>, all: seq<Posted>)
    requires HoldsScratch(ps) && ps <= all
    ensures HoldsScratch(all)
  {
    var i :| 0 <= i < |ps| && ps[i].r.tmp == Scratch;
    assert all[i].r.tmp == Scratch;
  }

  lemma {:induction false} StartedStays(w: World, ops: seq<Op>)
    ensures w.started <= Run(w, ops).started
    decreases |ops|
  {
    if ops != [] { StartedStays(Step(w, ops[0]), ops[1..]); }
  }
}
