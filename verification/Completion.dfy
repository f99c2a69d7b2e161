/** What one call completes: exactly the pending requests it names, in the order in which it names them.  And what
    one call starts. */
module Completion {
  import opened Requests

  /** Some entry of MPI_Waitall has this request's address, and its value was not null. */
  predicate Waited(items: seq<Item>, id: int) {
    exists i :: 0 <= i < |items| && items[i].id == id && !items[i].wasNull
  }

  /** For MPI_Testall its value must have become null as well. */
  predicate Tested(items: seq<Item>, id: int) {
    exists i :: 0 <= i < |items| && items[i].id == id && !items[i].wasNull && items[i].isNull
  }

  /** Entry i is the first that is not null and has this address. */
  predicate FirstWaited(items: seq<Item>, id: int, i: nat) {
    && i < |items| && items[i].id == id && !items[i].wasNull
    && forall j :: 0 <= j < i ==> items[j].id != id || items[j].wasNull
  }

  /** `ended` lists the requests of `pending` whose addresses are waited for, by their first entries. */
  ghost predicate InOrder(items: seq<Item>, ended: seq<Posted>) {
    forall a, b, i, j ::
      0 <= a < b < |ended| && FirstWaited(items, ended[a].r.id, i) && FirstWaited(items, ended[b].r.id, j) ==> i < j
  }

  predicate Follows(ps: seq<Posted>, p: Posted, q: Posted) {
    exists i, j :: 0 <= i < j < |ps| && ps[i] == p && ps[j] == q
  }

  /** The order of what stays is that of before. */
  ghost predicate KeepsOrder(before: seq<Posted>, after: seq<Posted>) {
    forall a, b :: 0 <= a < b < |after| ==> Follows(before, after[a], after[b])
  }

  /** What the call does to the lists. */
  ghost predicate CompletesExactly(items: seq<Item>, w: World, w': World) {
    && (forall p :: p in w'.pending <==> p in w.pending && !Waited(items, p.r.id))
    && KeepsOrder(w.pending, w'.pending)
    && w.done <= w'.done
    && (forall p :: p in w'.done[|w.done|..] <==> p in w.pending && Waited(items, p.r.id))
    && InOrder(items, w'.done[|w.done|..])
  }

  // ----- one entry -----

  lemma PendingIds(w: World, i: int, j: int)
    requires Invariant(w) && 0 <= i < |w.pending| && 0 <= j < |w.pending| && w.pending[i].r.id == w.pending[j].r.id
    ensures i == j
  {
    assert w.s.outstanding[i].id == w.s.outstanding[j].id;
    assert DistinctIds(w.s.outstanding);
    assert !(i < j) && !(j < i);
  }

  /** Completing an address removes the request that has it, if there is one, and no other. */
  lemma OneCompleted(w: World, id: int)
    requires Invariant(w)
    ensures var w' := CompleteIn(w, id);
      && (forall p :: p in w'.pending <==> p in w.pending && p.r.id != id)
      && KeepsOrder(w.pending, w'.pending)
      && (w'.done == w.done || exists p :: p in w.pending && p.r.id == id && w'.done == w.done + [p])
      && (w'.done == w.done ==> forall p <- w.pending :: p.r.id != id)
  {
    hide Invariant, Complete, KeepsOrder;
    var w', i := CompleteIn(w, id), Find(w.s.outstanding, id);
    AsListed(w);
    if i < |w.pending| {
      assert w'.pending == Without(w.pending, i) && w'.done == w.done + [w.pending[i]];
      assert w.pending[i] in w.pending && w.pending[i].r.id == id;
      forall p ensures p in w'.pending <==> p in w.pending && p.r.id != id { WithoutMember(w, i, p); }
      WithoutOrder(w.pending, i);
    } else {
      forall p | p in w.pending ensures p.r.id != id {
        var k :| 0 <= k < |w.pending| && w.pending[k] == p;
        assert w.s.outstanding[k].id != id;
      }
      SameOrder(w.pending);
    }
  }

  lemma AsListed(w: World)
    requires Invariant(w)
    ensures |w.pending| == |w.s.outstanding|
    ensures forall k :: 0 <= k < |w.pending| ==> w.pending[k].r == w.s.outstanding[k]
  {}

  lemma WithoutMember(w: World, i: nat, p: Posted)
    requires Invariant(w) && i < |w.pending|
    ensures p in Without(w.pending, i) <==> p in w.pending && p.r.id != w.pending[i].r.id
  {
    hide Invariant;
    var rest := Without(w.pending, i);
    if p in rest {
      var k :| 0 <= k < |rest| && rest[k] == p;
      var j := if k < i then k else k + 1;
      assert w.pending[j] == p;
      if p.r.id == w.pending[i].r.id { PendingIds(w, i, j); }
    }
    if p in w.pending && p.r.id != w.pending[i].r.id {
      var j :| 0 <= j < |w.pending| && w.pending[j] == p;
      assert rest[if j < i then j else j - 1] == p;
    }
  }

  lemma WithoutOrder(ps: seq<Posted>, i: nat)
    requires i < |ps|
    ensures KeepsOrder(ps, Without(ps, i))
  {
    var rest := Without(ps, i);
    forall a, b | 0 <= a < b < |rest| ensures Follows(ps, rest[a], rest[b]) {
      var k, l := if a < i then a else a + 1, if b < i then b else b + 1;
      assert ps[k] == rest[a] && ps[l] == rest[b];
    }
  }

  lemma SameOrder(ps: seq<Posted>)
    ensures KeepsOrder(ps, ps)
  {}

  /** Requests that come one after the other before, and again, do so in the end. */
  lemma OrderTransitive(w: World, mid: seq<Posted>, after: seq<Posted>)
    requires KeepsOrder(w.pending, mid) && KeepsOrder(mid, after)
    ensures KeepsOrder(w.pending, after)
  {
    forall a, b | 0 <= a < b < |after| ensures Follows(w.pending, after[a], after[b]) {
      assert Follows(mid, after[a], after[b]);
      var i, j :| 0 <= i < j < |mid| && mid[i] == after[a] && mid[j] == after[b];
      assert Follows(w.pending, mid[i], mid[j]);
    }
  }

  // ----- all entries -----

  lemma WaitedCons(items: seq<Item>, id: int)
    requires items != []
    ensures Waited(items, id) <==> (items[0].id == id && !items[0].wasNull) || Waited(items[1..], id)
  {
    if Waited(items[1..], id) {
      var i :| 0 <= i < |items[1..]| && items[1..][i].id == id && !items[1..][i].wasNull;
      assert items[i + 1].id == id;
    }
    if Waited(items, id) && !(items[0].id == id && !items[0].wasNull) {
      var i :| 0 <= i < |items| && items[i].id == id && !items[i].wasNull;
      assert items[1..][i - 1] == items[i];
    }
  }

  lemma FirstCons(items: seq<Item>, id: int, i: nat)
    requires items != []
    ensures FirstWaited(items, id, i) <==>
      if items[0].id == id && !items[0].wasNull then i == 0 else i >= 1 && FirstWaited(items[1..], id, i - 1)
  {
    if i >= 1 && FirstWaited(items[1..], id, i - 1) {
      forall j | 0 <= j < i ensures items[j].id != id || items[j].wasNull || j == 0 {
        if j > 0 { assert items[1..][j - 1] == items[j]; }
      }
    }
    if FirstWaited(items, id, i) && i >= 1 {
      assert items[1..][i - 1] == items[i];
      forall j | 0 <= j < i - 1 ensures items[1..][j].id != id || items[1..][j].wasNull {
        assert items[1..][j] == items[j + 1];
      }
    }
  }

  /** EVERY ENTRY COUNTS: of any number of requests, those named are completed, in the order of the entries, and the
      others stay. */
  lemma {:induction false} WaitInExact(w: World, items: seq<Item>)
    requires Invariant(w)
    ensures CompletesExactly(items, w, WaitIn(w, items))
    decreases |items|
  {
    hide Invariant, CompleteIn, CompletesExactly;
    if items == [] {
      NothingNamed(w);
    } else {
      var w1 := if items[0].wasNull then w else CompleteIn(w, items[0].id);
      if items[0].wasNull {
        SameOrder(w.pending);
      } else {
        CompleteKeeps(w, items[0].id);
        OneCompleted(w, items[0].id);
      }
      WaitInExact(w1, items[1..]);
      FirstThenRest(w, w1, WaitIn(w, items), items);
    }
  }

  lemma NothingNamed(w: World)
    ensures CompletesExactly([], w, w)
  {
    SameOrder(w.pending);
  }

  lemma FirstThenRest(w: World, w1: World, w': World, items: seq<Item>)
    requires Invariant(w) && items != [] && CompletesExactly(items[1..], w1, w')
    requires items[0].wasNull ==> w1 == w
    requires !items[0].wasNull ==>
      && (forall p :: p in w1.pending <==> p in w.pending && p.r.id != items[0].id)
      && KeepsOrder(w.pending, w1.pending)
      && (w1.done == w.done || exists p :: p in w.pending && p.r.id == items[0].id && w1.done == w.done + [p])
      && (w1.done == w.done ==> forall p <- w.pending :: p.r.id != items[0].id)
    ensures CompletesExactly(items, w, w')
  {
    hide Invariant, Waited, FirstWaited, KeepsOrder, InOrder;
    forall p: Posted ensures Waited(items, p.r.id) <==>
      (items[0].id == p.r.id && !items[0].wasNull) || Waited(items[1..], p.r.id) { WaitedCons(items, p.r.id); }
    if !items[0].wasNull { OrderTransitive(w, w1.pending, w'.pending); }
    var tail := w'.done[|w1.done|..];
    if w1.done == w.done {
      LaterInOrder(w, items, tail);
    } else {
      var p :| p in w.pending && p.r.id == items[0].id && w1.done == w.done + [p];
      assert w'.done[|w.done|..] == [p] + tail;
      SameIdSamePosted(w, items[0].id);
      NamedFirst(items, p, tail);
    }
  }

  /** Two pending requests with one address are one. */
  lemma SameIdSamePosted(w: World, id: int)
    requires Invariant(w)
    ensures forall p, q :: p in w.pending && q in w.pending && p.r.id == id && q.r.id == id ==> p == q
  {
    hide Invariant;
    forall p, q | p in w.pending && q in w.pending && p.r.id == id && q.r.id == id ensures p == q {
      var i :| 0 <= i < |w.pending| && w.pending[i] == p;
      var j :| 0 <= j < |w.pending| && w.pending[j] == q;
      PendingIds(w, i, j);
    }
  }

  /** Requests that the first entry does not name are named by the others in the same order. */
  lemma LaterInOrder(w: World, items: seq<Item>, tail: seq<Posted>)
    requires items != [] && InOrder(items[1..], tail)
    requires forall p <- tail :: items[0].wasNull || p.r.id != items[0].id
    ensures InOrder(items, tail)
  {
    hide FirstWaited;
    forall a, b, i, j |
      0 <= a < b < |tail| && FirstWaited(items, tail[a].r.id, i) && FirstWaited(items, tail[b].r.id, j) ensures i < j
    {
      FirstCons(items, tail[a].r.id, i);
      FirstCons(items, tail[b].r.id, j);
      assert tail[a] in tail && tail[b] in tail;
    }
  }

  lemma NamedFirst(items: seq<Item>, p: Posted, tail: seq<Posted>)
    requires items != [] && !items[0].wasNull && p.r.id == items[0].id && InOrder(items[1..], tail)
    requires forall q <- tail :: q.r.id != items[0].id
    ensures InOrder(items, [p] + tail)
  {
    hide FirstWaited;
    var ended := [p] + tail;
    forall a, b, i, j |
      0 <= a < b < |ended| && FirstWaited(items, ended[a].r.id, i) && FirstWaited(items, ended[b].r.id, j) ensures i < j
    {
      FirstCons(items, ended[a].r.id, i);
      FirstCons(items, ended[b].r.id, j);
      assert ended[b] == tail[b - 1] && tail[b - 1] in tail;
      if a > 0 { assert ended[a] == tail[a - 1] && tail[a - 1] in tail; }
    }
  }

  /** MPI_Wait and MPI_Waitall. */
  lemma WaitsExact(w: World, items: seq<Item>)
    requires Invariant(w)
    ensures CompletesExactly(items, w, Step(w, Waits(items)))
    ensures forall p <- w.pending :: p in Step(w, Waits(items)).pending <==>
      forall i :: 0 <= i < |items| && items[i].id == p.r.id ==> items[i].wasNull
  {
    hide Invariant;
    WaitInExact(w, items);
    forall p | p in w.pending
      ensures !Waited(items, p.r.id) <==> forall i :: 0 <= i < |items| && items[i].id == p.r.id ==> items[i].wasNull {}
  }

  // ----- MPI_Testall -----

  /** The entries that MPI_Testall does not act on, marked as null. */
  function Masked(items: seq<Item>): (r: seq<Item>)
    ensures |r| == |items|
    ensures forall i :: 0 <= i < |r| ==>
      r[i] == Item(items[i].id, items[i].wasNull || !items[i].isNull, items[i].isNull)
  {
    seq(|items|, i requires 0 <= i < |items| => items[i].(wasNull := items[i].wasNull || !items[i].isNull))
  }

  lemma {:induction false} TestIsWait(w: World, items: seq<Item>)
    ensures TestIn(w, items) == WaitIn(w, Masked(items))
    decreases |items|
  {
    hide CompleteIn;
    if items != [] {
      assert Masked(items)[1..] == Masked(items[1..]);
      TestIsWait(if !items[0].wasNull && items[0].isNull then CompleteIn(w, items[0].id) else w, items[1..]);
    }
  }

  /** The same for MPI_Testall: those whose value became null. */
  lemma TestsExact(w: World, items: seq<Item>)
    requires Invariant(w)
    ensures CompletesExactly(Masked(items), w, Step(w, Tests(items)))
    ensures forall p :: p in Step(w, Tests(items)).pending <==> p in w.pending && !Tested(items, p.r.id)
    ensures forall p <- w.pending :: Tested(items, p.r.id) ==> p in Step(w, Tests(items)).done
  {
    hide Invariant;
    TestIsWait(w, items);
    WaitInExact(w, Masked(items));
    forall id ensures Waited(Masked(items), id) <==> Tested(items, id) { MaskedTested(items, id); }
    var w' := Step(w, Tests(items));
    forall p | p in w.pending && Tested(items, p.r.id) ensures p in w'.done {
      assert p in w'.done[|w.done|..];
    }
  }

  lemma MaskedTested(items: seq<Item>, id: int)
    ensures Waited(Masked(items), id) <==> Tested(items, id)
  {
    var m := Masked(items);
    if Waited(m, id) {
      var i :| 0 <= i < |m| && m[i].id == id && !m[i].wasNull;
      assert items[i].id == id && !items[i].wasNull && items[i].isNull;
    }
    if Tested(items, id) {
      var i :| 0 <= i < |items| && items[i].id == id && !items[i].wasNull && items[i].isNull;
      assert m[i].id == id && !m[i].wasNull;
    }
  }

  // ----- what a call starts -----

  /** The buffer a call gets, by the size it asks for: the scratch buffer if that is at most two mebibytes and no call
      ever had it, else a new one. */
  ghost predicate Given(w: World, size: int, b: Buffer) {
    if size <= 2097152 && forall p <- w.started :: p.r.tmp != Scratch then b == Scratch
    else b == Heap(w.s.nextHeap)
  }

  lemma AllocGives(w: World, size: int)
    requires Invariant(w)
    ensures Given(w, size, Alloc(w.s, size).1)
    ensures forall p <- w.started :: Alloc(w.s, size).1 != p.r.tmp
  {
    hide DistinctIds, DistinctBuffers, Listed, AllTreated, AllHonest;
    if HoldsScratch(w.started) {
      var i :| 0 <= i < |w.started| && w.started[i].r.tmp == Scratch;
      assert w.started[i] in w.started;
    }
  }

  /** A nonblocking call joins both lists at their ends, with a buffer of its own for its size, and touches nothing
      else; only a receive leaves its user buffer, count and type. */
  lemma StartsExactly(w: World, id: int, recv: bool, size: int, user: int, count: int, handle: int)
    requires Invariant(w)
    ensures var w' := Step(w, Start(id, true, recv, size, user, count, handle));
      exists b: Buffer ::
        && Given(w, size, b) && (forall p <- w.started :: p.r.tmp != b)
        && var p := Posted(if recv then Request(id, b, user, count, handle) else Request(id, b, 0, 0, 0), recv, false);
           && w'.pending == w.pending + [p] && w'.started == w.started + [p]
           && w'.done == w.done && w'.s.log == w.s.log
  {
    hide Given, Invariant;
    AllocGives(w, size);
  }

  /** A blocking call is over when it returns: its buffer was unpacked if it receives, and given back. */
  lemma BlockingExactly(w: World, recv: bool, size: int, user: int, count: int, handle: int)
    requires Invariant(w)
    ensures var w' := Step(w, Blocking(recv, size, user, count, handle));
      exists b: Buffer ::
        && Given(w, size, b) && (forall p <- w.started :: p.r.tmp != b)
        && w'.pending == w.pending && |w'.done| == |w.done| + 1 && |w'.started| == |w.started| + 1
        && w'.s.log == w.s.log + (if recv then [Unpack(b, user, count, handle)] else []) + [Release(b)]
  {
    hide Given, Invariant;
    AllocGives(w, size);
  }
}
