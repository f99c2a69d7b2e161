/** What packing and unpacking do to memory: a list of byte transfers, done in order.  A typemap, the
    address of the data and the address of the packed buffer give the list; packing reads through
    the typemap, unpacking writes through it. */
module Transfers {
  import opened Datatypes
  import opened Typemap
  import opened Machine

  datatype Transfer = Transfer(dst: int, src: int)

  function Copy(mem: Memory, ts: seq<Transfer>): Memory
    decreases |ts|
  {
    if ts == [] then mem
    else
      var t := ts[0];
      Copy(if t.src in mem then mem[t.dst := mem[t.src]] else mem, ts[1..])
  }

  /** Every address is mapped and no byte is both read and written: the two buffers of a pack
      function do not alias (ddt_jit.cpp declares them so). */
  ghost predicate Ready(mem: Memory, ts: seq<Transfer>) {
    && (forall i :: 0 <= i < |ts| ==> ts[i].dst in mem && ts[i].src in mem)
    && (forall i, j :: 0 <= i < |ts| && 0 <= j < |ts| ==> ts[i].dst != ts[j].src)
  }

  /** The transfers of a typemap from `inbuf` to `outbuf`. */
  function Moves(pack: bool, tm: seq<int>, inbuf: int, outbuf: int): seq<Transfer> {
    seq(|tm|, p requires 0 <= p < |tm| =>
      if pack then Transfer(Addr(outbuf, p), Addr(inbuf, tm[p]))
      else Transfer(Addr(outbuf, tm[p]), Addr(inbuf, p)))
  }

  // ----- composition -----

  lemma {:induction false} CopyConcat(mem: Memory, a: seq<Transfer>, b: seq<Transfer>)
    ensures Copy(mem, a + b) == Copy(Copy(mem, a), b)
    decreases |a|
  {
    if a == [] {
      assert a + b == b;
    } else {
      var t := a[0];
      assert (a + b)[0] == t && (a + b)[1..] == a[1..] + b;
      CopyConcat(if t.src in mem then mem[t.dst := mem[t.src]] else mem, a[1..], b);
    }
  }

  lemma {:induction false} CopyKeepsKeys(mem: Memory, ts: seq<Transfer>)
    requires Ready(mem, ts)
    ensures Copy(mem, ts).Keys == mem.Keys
    decreases |ts|
  {
    if ts != [] {
      var mem' := mem[ts[0].dst := mem[ts[0].src]];
      assert mem'.Keys == mem.Keys;
      CopyKeepsKeys(mem', ts[1..]);
    }
  }

  lemma ReadyParts(mem: Memory, a: seq<Transfer>, b: seq<Transfer>)
    requires Ready(mem, a + b)
    ensures Ready(mem, a) && Ready(Copy(mem, a), b)
  {
    var c := a + b;
    assert forall i :: 0 <= i < |a| ==> c[i] == a[i];
    assert forall i :: 0 <= i < |b| ==> c[|a| + i] == b[i];
    assert Ready(mem, a);
    CopyKeepsKeys(mem, a);
  }

  lemma MovesConcat(pack: bool, a: seq<int>, b: seq<int>, inbuf: int, outbuf: int)
    ensures Moves(pack, a + b, inbuf, outbuf)
         == Moves(pack, a, inbuf, outbuf)
          + Moves(pack, b, if pack then inbuf else inbuf + |a|, if pack then outbuf + |a| else outbuf)
  {}

  lemma MovesShift(pack: bool, tm: seq<int>, d: int, inbuf: int, outbuf: int)
    ensures Moves(pack, Shift(tm, d), inbuf, outbuf)
         == Moves(pack, tm, if pack then inbuf + d else inbuf, if pack then outbuf else outbuf + d)
  {}

  lemma WrapWrap(x: int, y: int)
    ensures Wrap(Wrap(x) + y) == Wrap(x + y)
  {}

  /** Pointers at different distances from the same address differ: no early exit. */
  lemma WrapInjective(x: int, a: int, b: int)
    requires 0 <= a < W && 0 <= b < W && Wrap(x + a) == Wrap(x + b)
    ensures a == b
  {
    assert x + a == (x + a) / W * W + Wrap(x + a);
    assert x + b == (x + b) / W * W + Wrap(x + b);
  }

  lemma MovesWrap(pack: bool, tm: seq<int>, inbuf: int, outbuf: int)
    ensures Moves(pack, tm, Wrap(inbuf), Wrap(outbuf)) == Moves(pack, tm, inbuf, outbuf)
  {
    forall p | 0 <= p < |tm|
      ensures Moves(pack, tm, Wrap(inbuf), Wrap(outbuf))[p] == Moves(pack, tm, inbuf, outbuf)[p]
    {
      WrapWrap(inbuf, p); WrapWrap(inbuf, tm[p]);
      WrapWrap(outbuf, p); WrapWrap(outbuf, tm[p]);
    }
  }

  /** The step of a pointer: the data side advances by `data`, the packed side by `packed`. */
  function InStep(pack: bool, data: int, packed: int): int { if pack then data else packed }
  function OutStep(pack: bool, data: int, packed: int): int { if pack then packed else data }

  /** n copies are one copy at the buffers, then n - 1 copies at the advanced buffers. */
  lemma MovesRep(pack: bool, tm: seq<int>, step: int, n: int, inbuf: int, outbuf: int)
    requires n >= 1
    ensures Moves(pack, Rep(tm, step, n), inbuf, outbuf)
         == Moves(pack, tm, inbuf, outbuf)
          + Moves(pack, Rep(tm, step, n - 1), Wrap(inbuf + InStep(pack, step, |tm|)),
                  Wrap(outbuf + OutStep(pack, step, |tm|)))
  {
    var rest := Rep(tm, step, n - 1);
    MovesConcat(pack, tm, Shift(rest, step), inbuf, outbuf);
    if pack {
      MovesShift(pack, rest, step, inbuf, outbuf + |tm|);
      MovesWrap(pack, rest, inbuf + step, outbuf + |tm|);
    } else {
      MovesShift(pack, rest, step, inbuf + |tm|, outbuf);
      MovesWrap(pack, rest, inbuf + |tm|, outbuf + step);
    }
  }

  // ----- contiguous runs -----

  function Iota(n: nat): seq<int> { seq(n, k => k) }

  lemma {:induction false} RepIota(size: nat, n: nat)
    ensures n * size >= 0 && Rep(Iota(size), size, n) == Iota(n * size)
  {
    if n > 0 {
      RepIota(size, n - 1);
      assert n * size == size + (n - 1) * size;
    }
  }

  lemma RunFootprint(pack: bool, mem: Memory, n: nat, inbuf: int, outbuf: int)
    requires Ready(mem, Moves(pack, Iota(n), inbuf, outbuf))
    ensures Mapped(mem, inbuf, n) && Mapped(mem, outbuf, n) && !Overlap(outbuf, inbuf, n)
  {
    var ts := Moves(pack, Iota(n), inbuf, outbuf);
    assert forall k :: 0 <= k < n ==> ts[k] == Transfer(Addr(outbuf, k), Addr(inbuf, k));
  }

  lemma MappedTail(mem: Memory, at: int, n: nat)
    requires Mapped(mem, at, n) && n > 0
    ensures Mapped(mem, at + 1, n - 1)
  {
    assert forall k {:trigger Addr(at + 1, k)} :: Addr(at + 1, k) == Addr(at, k + 1);
  }

  /** On buffers that do not alias, loading a run and storing it is transferring its bytes. */
  lemma {:induction false} RunIsCopied(pack: bool, mem: Memory, n: nat, inbuf: int, outbuf: int)
    requires Ready(mem, Moves(pack, Iota(n), inbuf, outbuf))
    requires Mapped(mem, inbuf, n)
    ensures Store(mem, outbuf, Load(mem, inbuf, n)) == Copy(mem, Moves(pack, Iota(n), inbuf, outbuf))
    decreases n
  {
    if n > 0 {
      var ts := Moves(pack, Iota(n), inbuf, outbuf);
      var rest := Moves(pack, Iota(n - 1), inbuf + 1, outbuf + 1);
      forall k | 0 <= k < n - 1 ensures ts[1..][k] == rest[k] {
        assert ts[k + 1] == Transfer(Addr(outbuf, k + 1), Addr(inbuf, k + 1));
      }
      assert ts[1..] == rest;
      assert ts == [ts[0]] + rest;
      ReadyParts(mem, [ts[0]], rest);
      assert Copy(mem, [ts[0]]) == mem[ts[0].dst := mem[ts[0].src]];
      var mem' := mem[ts[0].dst := mem[ts[0].src]];
      MappedTail(mem', inbuf, n);
      RunIsCopied(pack, mem', n - 1, inbuf + 1, outbuf + 1);
      var bytes := Load(mem, inbuf, n);
      forall k | 0 <= k < n - 1 ensures Load(mem', inbuf + 1, n - 1)[k] == bytes[1..][k] {
        assert Addr(inbuf + 1, k) == Addr(inbuf, k + 1) == ts[k + 1].src;
      }
      assert Load(mem', inbuf + 1, n - 1) == bytes[1..];
      assert Addr(outbuf, 0) == ts[0].dst;
    }
  }

  /** The transfers of n consecutive bytes, which are the same in both directions. */
  function Bytes(n: nat, inbuf: int, outbuf: int): seq<Transfer> { Moves(true, Iota(n), inbuf, outbuf) }

  lemma BytesSplit(m: nat, n: nat, inbuf: int, outbuf: int)
    ensures Bytes(m + n, inbuf, outbuf) == Bytes(m, inbuf, outbuf) + Bytes(n, Wrap(inbuf + m), Wrap(outbuf + m))
  {
    MovesWrap(true, Iota(n), inbuf + m, outbuf + m);
    var whole, rest := Bytes(m + n, inbuf, outbuf), Bytes(n, inbuf + m, outbuf + m);
    forall k | m <= k < m + n ensures whole[k] == rest[k - m] {
      assert Addr(inbuf + m, k - m) == Addr(inbuf, k) && Addr(outbuf + m, k - m) == Addr(outbuf, k);
    }
    assert whole == Bytes(m, inbuf, outbuf) + rest;
  }

  // ----- the memory afterwards -----

  /** Index of the last transfer that writes address a, or -1. */
  function Writer(ts: seq<Transfer>, a: int): (w: int)
    ensures -1 <= w < |ts|
    ensures w >= 0 ==> ts[w].dst == a
    ensures forall i :: w < i < |ts| ==> ts[i].dst != a
  {
    if ts == [] then -1
    else if ts[|ts| - 1].dst == a then |ts| - 1
    else Writer(ts[..|ts| - 1], a)
  }

  /** Each address ends with the byte its last writer read; all others keep theirs. */
  lemma {:induction false} CopyEffect(mem: Memory, ts: seq<Transfer>, a: int)
    requires Ready(mem, ts) && a in mem
    ensures a in Copy(mem, ts)
    ensures Copy(mem, ts)[a] == if Writer(ts, a) < 0 then mem[a] else mem[ts[Writer(ts, a)].src]
    decreases |ts|
  {
    if ts != [] {
      var n := |ts| - 1;
      var init, last := ts[..n], ts[n];
      assert ts == init + [last];
      ReadyParts(mem, init, [last]);
      CopyKeepsKeys(mem, init);
      CopyConcat(mem, init, [last]);
      CopyEffect(mem, init, a);
      CopyEffect(mem, init, last.src);
      assert Writer(init, last.src) < 0;
      assert Copy(Copy(mem, init), [last]) == Copy(mem, init)[last.dst := mem[last.src]];
    }
  }
}
