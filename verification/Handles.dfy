/** The interposer's table of datatype handles: fifty fast slots with a free queue, and an overflow
    map whose next number is fifty plus its size. */
module Handles {
  import opened Datatypes

  const FAST: int := 50   // DDT_FAST_CACHE_SIZE

  /** A pointer to a type object, `Datatype*`. */
  datatype Ref<T> = Null | Ref(t: T)

  /** g_types, g_types_freelist and g_types_fallback. */
  datatype Table<T> = Table(slots: seq<Ref<T>>, free: seq<int>, fallback: map<int, Ref<T>>)

  // ----- the operations on values -----

  function Initial<T>(): Table<T> {
    Table(seq(FAST, _ => Null), seq(FAST, i => i), map[])
  }

  function Create<T>(t: Table<T>): (Table<T>, int) {
    if t.free != [] then (t.(free := t.free[1..]), t.free[0])
    else
      var h := FAST + |t.fallback|;
      (t.(fallback := t.fallback[h := Null]), h)
  }

  function Free<T>(t: Table<T>, h: int): Table<T> {
    if h < FAST then t.(free := t.free + [h]) else t.(fallback := t.fallback - {h})
  }

  function Store<T>(t: Table<T>, h: int, value: Ref<T>): Table<T>
    requires |t.slots| == FAST && h >= 0
  {
    if h < FAST then t.(slots := t.slots[h := value]) else t.(fallback := t.fallback[h := value])
  }

  /** Looking up an overflow handle that is not there inserts it (std::map's operator[]). */
  function Retrieve<T>(t: Table<T>, h: int): (Table<T>, Ref<T>)
    requires |t.slots| == FAST && h >= 0
  {
    if h < FAST then (t, t.slots[h])
    else if h in t.fallback then (t, t.fallback[h])
    else (t.(fallback := t.fallback[h := Null]), Null)
  }

  // ----- the same operations as the program runs them -----

  class HandleTable<T> {
    const types: array<Ref<T>>
    var freelist: seq<int>
    var fallback: map<int, Ref<T>>

    function State(): Table<T>
      reads this, types
    {
      Table(types[..], freelist, fallback)
    }

    predicate Valid()
      reads this
    {
      types.Length == FAST
    }

    /** interposer_init. */
    constructor ()
      ensures Valid() && State() == Initial() && fresh(types)
    {
      types := new Ref<T>[FAST](_ => Null);
      freelist, fallback := [], map[];
      new;
      for i := 0 to FAST
        invariant freelist == seq(i, j => j) && fallback == map[] && forall j :: 0 <= j < FAST ==> types[j] == Null
      {
        freelist := freelist + [i];
      }
      assert types[..] == seq(FAST, _ => Null);
    }

    method HandleCreate() returns (h: int)
      requires Valid()
      modifies this
      ensures (State(), h) == Create(old(State()))
    {
      if freelist != [] {
        h := freelist[0];
        freelist := freelist[1..];
      } else {
        h := FAST + |fallback|;
        fallback := fallback[h := Null];
      }
    }

    method HandleFree(h: int)
      requires Valid()
      modifies this
      ensures State() == Free(old(State()), h)
    {
      if h < FAST { freelist := freelist + [h]; } else { fallback := fallback - {h}; }
    }

    method HandleStore(h: int, value: Ref<T>)
      requires Valid() && h >= 0
      modifies this, types
      ensures State() == Store(old(State()), h, value)
    {
      if h < FAST { types[h] := value; } else { fallback := fallback[h := value]; }
    }

    method HandleRetrieve(h: int) returns (value: Ref<T>)
      requires Valid() && h >= 0
      modifies this
      ensures (State(), value) == Retrieve(old(State()), h)
    {
      if h < FAST {
        value := types[h];
      } else {
        if h !in fallback { fallback := fallback[h := Null]; }
        value := fallback[h];
      }
    }

    /** interposer_contiguous and its fellows: a handle first, then the type behind it. */
    method MakeType(t: T) returns (h: int)
      requires Valid() && HandlesAreNumbers(State())
      modifies this, types
      ensures State() == Make(old(State()), t).0 && h == Make(old(State()), t).1
    {
      h := HandleCreate();
      HandleStore(h, Ref(t));
    }
  }

  predicate HandlesAreNumbers<T>(t: Table<T>) {
    |t.slots| == FAST && forall i :: 0 <= i < |t.free| ==> 0 <= t.free[i] < FAST
  }

  function Make<T>(t: Table<T>, value: T): (Table<T>, int)
    requires HandlesAreNumbers(t)
  {
    var (t1, h) := Create(t);
    (Store(t1, h, Ref(value)), h)
  }

  // ----- runs -----

  /** The table and what its users believe: the live handles, with the type each was last given. */
  datatype World<T> = World(table: Table<T>, live: map<int, T>)

  /** Every fast number is either queued, once, or live; the overflow map has exactly the live overflow
      handles; looking up a live handle gives its type. */
  ghost predicate Consistent<T>(w: World<T>) {
    var t := w.table;
    && |t.slots| == FAST
    && (forall i :: 0 <= i < |t.free| ==> 0 <= t.free[i] < FAST && t.free[i] !in w.live)
    && (forall i, j :: 0 <= i < j < |t.free| ==> t.free[i] != t.free[j])
    && (forall h :: 0 <= h < FAST && h !in w.live ==> h in t.free)
    && (forall h <- w.live :: h >= 0)
    && (forall h :: h in t.fallback <==> h in w.live && h >= FAST)
    && (forall h <- w.live :: Retrieve(t, h).1 == Ref(w.live[h]))
  }

  /** The overflow handles are numbered without gaps. */
  ghost predicate Gapless<T>(w: World<T>) {
    forall h :: h in w.table.fallback <==> FAST <= h < FAST + |w.table.fallback|
  }

  datatype Op<T> = MakeType(t: T) | Restore(h: int, t: T) | Drop(h: int)

  /** No double free, no use of a dead handle, and overflow handles are freed newest first. */
  predicate Legal<T>(w: World<T>, op: Op<T>) {
    match op
    case MakeType(_) => true
    case Restore(h, _) => h in w.live
    case Drop(h) => h in w.live && (h >= FAST ==> h == FAST + |w.table.fallback| - 1)
  }

  function Step<T>(w: World<T>, op: Op<T>): World<T>
    requires HandlesAreNumbers(w.table) && (op.Restore? ==> op.h >= 0)
  {
    match op
    case MakeType(t) => var (table, h) := Make(w.table, t); World(table, w.live[h := t])
    case Restore(h, t) => World(Store(w.table, h, Ref(t)), w.live[h := t])
    case Drop(h) => World(Free(w.table, h), w.live - {h})
  }

  /** The handle that the next create returns is new EXACTLY IF a fast slot is free or the number fifty
      plus the size of the map is not taken. */
  lemma CreateIsFresh<T>(w: World<T>)
    requires Consistent(w)
    ensures Create(w.table).1 !in w.live <==> w.table.free != [] || FAST + |w.table.fallback| !in w.table.fallback
  {}

  /** The state after interposer_init. */
  function Begin<T>(): World<T> { World(Initial(), map[]) }

  lemma InitiallyConsistent<T>()
    ensures Consistent(Begin<T>()) && Gapless(Begin<T>())
  {
    forall h | 0 <= h < FAST ensures h in Initial<T>().free { assert Initial<T>().free[h] == h; }
  }

  lemma MakeKeeps<T>(w: World<T>, t: T)
    requires Consistent(w) && Create(w.table).1 !in w.live
    ensures HandlesAreNumbers(w.table) && Consistent(Step(w, MakeType(t)))
    ensures Make(w.table, t).1 !in w.live && Step(w, MakeType(t)).live == w.live[Make(w.table, t).1 := t]
  {
    var w' := Step(w, MakeType(t));
    var (t1, h) := Create(w.table);
    if w.table.free != [] {
      forall k | 0 <= k < FAST && k !in w'.live ensures k in w'.table.free {
        assert k in w.table.free && k != w.table.free[0];
      }
      forall k | k in w'.live ensures Retrieve(w'.table, k).1 == Ref(w'.live[k]) {
        if k != h { assert Retrieve(w.table, k).1 == Ref(w.live[k]); }
      }
    } else {
      assert h >= FAST && w'.table.fallback == w.table.fallback[h := Ref(t)];
      forall k | k in w'.live ensures Retrieve(w'.table, k).1 == Ref(w'.live[k]) {
        if k != h { assert Retrieve(w.table, k).1 == Ref(w.live[k]); }
      }
    }
  }

  lemma MakeStaysGapless<T>(w: World<T>, t: T)
    requires Consistent(w) && Gapless(w)
    ensures Create(w.table).1 !in w.live && HandlesAreNumbers(w.table) && Gapless(Step(w, MakeType(t)))
  {
    var w' := Step(w, MakeType(t));
    var h := FAST + |w.table.fallback|;
    if w.table.free == [] {
      assert h !in w.table.fallback;
      assert w'.table.fallback == w.table.fallback[h := Ref(t)];
      OneMore(w.table.fallback, h, Ref(t));
    } else {
      assert w'.table.fallback == w.table.fallback;
    }
  }

  lemma OneMore<T>(m: map<int, Ref<T>>, h: int, v: Ref<T>)
    requires h !in m
    ensures |m[h := v]| == |m| + 1
  {
    assert m[h := v].Keys == m.Keys + {h};
    assert |m[h := v].Keys| == |m.Keys| + 1;
  }

  lemma RestoreKeeps<T>(w: World<T>, h: int, t: T)
    requires Consistent(w) && h in w.live
    ensures HandlesAreNumbers(w.table) && Consistent(Step(w, Restore(h, t)))
    ensures Gapless(w) ==> Gapless(Step(w, Restore(h, t)))
  {
    var w' := Step(w, Restore(h, t));
    assert w'.live.Keys == w.live.Keys;
    if h >= FAST { assert w'.table.fallback.Keys == w.table.fallback.Keys; }
    forall k | k in w'.live ensures Retrieve(w'.table, k).1 == Ref(w'.live[k]) {
      if k != h { assert Retrieve(w.table, k).1 == Ref(w.live[k]); }
    }
  }

  /** Freeing keeps the table consistent in any order. */
  lemma DropKeeps<T>(w: World<T>, h: int)
    requires Consistent(w) && h in w.live
    ensures HandlesAreNumbers(w.table) && Consistent(Step(w, Drop(h)))
  {
    var w' := Step(w, Drop(h));
    if h < FAST {
      assert w'.table.free[|w.table.free|] == h;
      forall k | 0 <= k < FAST && k !in w'.live ensures k in w'.table.free {
        if k != h { assert k in w.table.free; }
      }
    }
    forall k | k in w'.live ensures Retrieve(w'.table, k).1 == Ref(w'.live[k]) {
      assert Retrieve(w.table, k).1 == Ref(w.live[k]);
    }
  }

  /** Newest first keeps the numbering gapless; any other order does not. */
  lemma DropStaysGapless<T>(w: World<T>, h: int)
    requires Consistent(w) && Gapless(w) && h in w.live
    ensures Gapless(Step(w, Drop(h))) <==> Legal(w, Drop(h))
  {
    var w' := Step(w, Drop(h));
    var n := |w.table.fallback|;
    if h >= FAST {
      assert h in w.table.fallback && w'.table.fallback.Keys == w.table.fallback.Keys - {h};
      assert |w'.table.fallback| == n - 1;
      if h != FAST + n - 1 {
        assert FAST + n - 1 in w'.table.fallback;
      }
    }
  }

  function Run<T>(w: World<T>, ops: seq<Op<T>>): World<T>
    requires Consistent(w) && Gapless(w) && AllLegal(w, ops)
    decreases |ops|
  {
    if ops == [] then w
    else
      StepKeeps(w, ops[0]);
      Run(Step(w, ops[0]), ops[1..])
  }

  ghost predicate AllLegal<T>(w: World<T>, ops: seq<Op<T>>)
    requires Consistent(w) && Gapless(w)
    decreases |ops|
  {
    if ops == [] then true
    else
      Legal(w, ops[0]) && (StepKeeps(w, ops[0]); AllLegal(Step(w, ops[0]), ops[1..]))
  }

  lemma StepKeeps<T>(w: World<T>, op: Op<T>)
    requires Consistent(w) && Gapless(w) && Legal(w, op)
    ensures HandlesAreNumbers(w.table) && (op.Restore? ==> op.h >= 0)
    ensures Consistent(Step(w, op)) && Gapless(Step(w, op))
  {
    match op
    case MakeType(t) => MakeStaysGapless(w, t); MakeKeeps(w, t);
    case Restore(h, t) => RestoreKeeps(w, h, t);
    case Drop(h) => DropKeeps(w, h); DropStaysGapless(w, h);
  }

  /** OVER EVERY LEGAL RUN from the start: the queue and the live fast handles partition 0..49, every
      live handle retrieves the type it was last given, and the next handle is not in use. */
  lemma {:induction false} RunIsConsistent<T>(w: World<T>, ops: seq<Op<T>>)
    requires Consistent(w) && Gapless(w) && AllLegal(w, ops)
    ensures Consistent(Run(w, ops)) && Gapless(Run(w, ops))
    ensures Create(Run(w, ops).table).1 !in Run(w, ops).live
    decreases |ops|
  {
    if ops == [] {
      CreateIsFresh(w);
    } else {
      StepKeeps(w, ops[0]);
      RunIsConsistent(Step(w, ops[0]), ops[1..]);
    }
  }

  ghost predicate LegalFromBegin<T>(ops: seq<Op<T>>) {
    InitiallyConsistent<T>();
    AllLegal(Begin(), ops)
  }

  /** What a legal run reaches from interposer_init. */
  ghost function Reached<T>(ops: seq<Op<T>>): World<T>
    requires LegalFromBegin(ops)
  {
    InitiallyConsistent<T>();
    Run(Begin(), ops)
  }

  lemma RunFromBegin<T>(ops: seq<Op<T>>)
    requires LegalFromBegin(ops)
    ensures Consistent(Reached(ops)) && Gapless(Reached(ops))
    ensures Create(Reached(ops).table).1 !in Reached(ops).live
  {
    InitiallyConsistent<T>();
    RunIsConsistent(Begin(), ops);
  }

  // ----- a collision -----

  /** n creates in a row. */
  function Makes<T>(n: nat, t: T): seq<Op<T>> { seq(n, _ => MakeType(t)) }

  ghost predicate AllAre<T>(w: World<T>, t: T) { forall h <- w.live :: w.live[h] == t }

  lemma CreateCounts<T>(w: World<T>, t: T)
    requires Consistent(w) && Gapless(w)
    ensures HandlesAreNumbers(w.table) && Legal(w, MakeType(t))
    ensures var w' := Step(w, MakeType(t));
      && |w'.table.free| == (if w.table.free == [] then 0 else |w.table.free| - 1)
      && |w'.table.fallback| == |w.table.fallback| + (if w.table.free == [] then 1 else 0)
      && (AllAre(w, t) ==> AllAre(w', t))
  {
    var h := FAST + |w.table.fallback|;
    if w.table.free == [] {
      OneMore(w.table.fallback, h, Null);
      OneMore(w.table.fallback, h, Ref(t));
    }
  }

  /** The queue empties first, then the overflow map grows. */
  lemma {:induction false} ManyCreates<T>(w: World<T>, n: nat, t: T) returns (w': World<T>)
    requires Consistent(w) && Gapless(w) && AllAre(w, t)
    ensures AllLegal(w, Makes(n, t)) && w' == Run(w, Makes(n, t)) && AllAre(w', t)
    ensures Consistent(w') && Gapless(w')
    ensures |w'.table.free| == (if n <= |w.table.free| then |w.table.free| - n else 0)
    ensures |w'.table.fallback| == |w.table.fallback| + (if n <= |w.table.free| then 0 else n - |w.table.free|)
    decreases n
  {
    hide Consistent, Gapless, Create, Store, AllAre, HandlesAreNumbers;
    if n == 0 {
      w' := w;
    } else {
      CreateCounts(w, t);
      StepKeeps(w, MakeType(t));
      assert Makes(n, t)[1..] == Makes(n - 1, t) && Makes(n, t)[0] == MakeType(t);
      w' := ManyCreates(Step(w, MakeType(t)), n - 1, t);
    }
  }

  /** After 52 creates, all live, the overflow handles are 50 and 51.  Freeing 50 first makes the next create return
      51 again: two users now hold one handle, and the first user's type is gone. */
  lemma CollisionCounterexample() returns (w: World<Datatype>)
    ensures LegalFromBegin(Makes(52, Primitive(BYTE))) && w == Reached(Makes(52, Primitive(BYTE)))
    ensures Consistent(w) && 50 in w.live && 51 in w.live && !Legal(w, Drop(50)) && HandlesAreNumbers(w.table)
    ensures var w1, t := Step(w, Drop(50)), Primitive(CHAR);
      && Consistent(w1) && 51 in w1.live && HandlesAreNumbers(w1.table)
      && Make(w1.table, t).1 == 51
      && Retrieve(Make(w1.table, t).0, 51).1 != Ref(w1.live[51])
  {
    InitiallyConsistent<Datatype>();
    w := ManyCreates(Begin(), 52, Primitive(BYTE));
    CollidesFrom(w);
  }

  lemma CollidesFrom(w: World<Datatype>)
    requires Consistent(w) && Gapless(w) && AllAre(w, Primitive(BYTE)) && w.table.free == [] && |w.table.fallback| == 2
    ensures 50 in w.live && 51 in w.live && !Legal(w, Drop(50)) && HandlesAreNumbers(w.table)
    ensures var w1, t := Step(w, Drop(50)), Primitive(CHAR);
      && Consistent(w1) && 51 in w1.live && HandlesAreNumbers(w1.table)
      && Make(w1.table, t).1 == 51
      && Retrieve(Make(w1.table, t).0, 51).1 != Ref(w1.live[51])
  {
    assert 50 in w.table.fallback && 51 in w.table.fallback;
    DropKeeps(w, 50);
    var w1 := Step(w, Drop(50));
    assert w1.table.fallback.Keys == w.table.fallback.Keys - {50};
    assert |w1.table.fallback| == 1;
  }
}
