/** The order in which handles are given out, and what a look-up of a handle that nobody holds does. */
module HandleOrder {
  import opened Handles

  lemma OneMake<T>(w: World<T>, t: T)
    requires Consistent(w) && Gapless(w)
    ensures HandlesAreNumbers(w.table) && Legal(w, MakeType(t))
    ensures Consistent(Step(w, MakeType(t))) && Gapless(Step(w, MakeType(t)))
    ensures var w', h := Step(w, MakeType(t)), Create(w.table).1;
      if w.table.free != [] then
        h == w.table.free[0] && w'.table.free == w.table.free[1..] && w'.table.fallback == w.table.fallback
      else h == 50 + |w.table.fallback| && w'.table.free == [] && |w'.table.fallback| == |w.table.fallback| + 1
  {
    StepKeeps(w, MakeType(t));
    if w.table.free == [] {
      var h := 50 + |w.table.fallback|;
      assert h !in w.table.fallback;
      OneMore(w.table.fallback, h, Ref(t));
      assert Step(w, MakeType(t)).table.fallback == w.table.fallback[h := Ref(t)];
    } else {
      assert w.table.free[0] in w.table.free;
    }
  }

  /** n creates take the first n numbers from the queue; when it is empty, they number on from fifty. */
  lemma {:induction false} QueueOrder<T>(w: World<T>, n: nat, t: T) returns (w': World<T>)
    requires Consistent(w) && Gapless(w)
    ensures AllLegal(w, Makes(n, t)) && w' == Run(w, Makes(n, t)) && Consistent(w') && Gapless(w')
    ensures n <= |w.table.free| ==> w'.table.free == w.table.free[n..] && w'.table.fallback == w.table.fallback
    ensures n > |w.table.free| ==>
      w'.table.free == [] && |w'.table.fallback| == |w.table.fallback| + (n - |w.table.free|)
    decreases n
  {
    hide Consistent, Gapless, Create, Store, HandlesAreNumbers;
    if n == 0 {
      w' := w;
    } else {
      OneMake(w, t);
      StepKeeps(w, MakeType(t));
      assert Makes(n, t)[1..] == Makes(n - 1, t) && Makes(n, t)[0] == MakeType(t);
      w' := QueueOrder(Step(w, MakeType(t)), n - 1, t);
    }
  }

  /** FIRST COME: from initialisation, creates give out 0, 1, 2, ... */
  lemma CreatesCount<T>(n: nat, t: T) returns (w: World<T>)
    ensures LegalFromBegin(Makes(n, t)) && w == Reached(Makes(n, t)) && Create(w.table).1 == n
  {
    InitiallyConsistent<T>();
    w := QueueOrder(Begin(), n, t);
    var free := Begin<T>().table.free;
    assert |free| == 50;
    assert forall i :: 0 <= i < 50 ==> free[i] == i;
  }

  /** OLDEST FIRST: a freed fast handle is given out again after all that were free before it, and not earlier. */
  lemma FreedIsLast<T>(w: World<T>, h: int, n: nat, t: T) returns (w1: World<T>, w': World<T>)
    requires Consistent(w) && Gapless(w) && h in w.live && h < 50 && n <= |w.table.free|
    ensures HandlesAreNumbers(w.table) && w1 == Step(w, Drop(h)) && Consistent(w1) && Gapless(w1)
    ensures AllLegal(w1, Makes(n, t)) && w' == Run(w1, Makes(n, t))
    ensures Create(w'.table).1 == (if n < |w.table.free| then w.table.free[n] else h)
    ensures n < |w.table.free| ==> Create(w'.table).1 != h
  {
    hide AllLegal, Run;
    StepKeeps(w, Drop(h));
    w1 := Step(w, Drop(h));
    assert w1.table.free == w.table.free + [h];
    w' := QueueOrder(w1, n, t);
    if n < |w.table.free| {
      assert w'.table.free[0] == w.table.free[n];
      assert w.table.free[n] !in w.live;
    } else {
      assert w'.table.free == [h];
    }
  }

  /** Looking up an overflow handle that is not there takes a number: the next overflow handle is one higher.  Any
      other look-up leaves the table alone. */
  lemma LookUpExact<T>(t: Table<T>, h: int)
    requires HandlesAreNumbers(t) && h >= 0
    ensures h < 50 || h in t.fallback ==> Retrieve(t, h).0 == t
    ensures h >= 50 && h !in t.fallback ==>
      var t' := Retrieve(t, h).0;
      && Retrieve(t, h).1 == Null && t'.free == t.free && t'.slots == t.slots
      && (t.free == [] ==> Create(t').1 == Create(t).1 + 1)
  {
    if h >= 50 && h !in t.fallback { OneMore(t.fallback, h, Null); }
  }
}
