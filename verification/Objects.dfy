/** The datatype objects on the heap: constructors that clone their arguments and compute size and
    bounds in loops, clone, compress, and the destructor.  No two trees ever share an object, so
    freeing one leaves the meaning of every other one alone. */
module Objects {
  import opened Datatypes
  import opened Typemap
  import opened Compression
  import opened Emission
  import opened Bounds
  import opened Machine
  import opened Compilation
  import opened Codegen

  /** The class of an object and its own fields; the base types are separate objects. */
  datatype Shape =
    | PrimitiveShape(prim: PrimitiveType)
    | ContiguousShape(count: int)
    | VectorShape(count: int, blocklen: int, stride: int)
    | HVectorShape(count: int, blocklen: int, stride: int)
    | IndexedBlockShape(blocklen: int, displs: seq<int>)
    | HIndexedShape(entries: seq<Entry>)
    | StructShape(entries: seq<Entry>)
    | ResizedShape(lb: int, extent: int)

  function Arity(shape: Shape): nat {
    match shape
    case PrimitiveShape(_) => 0
    case StructShape(entries) => |entries|
    case _ => 1
  }

  /** The tree with this root over these subtrees. */
  function Tree(shape: Shape, ts: seq<Datatype>): Datatype
    requires |ts| == Arity(shape)
  {
    match shape
    case PrimitiveShape(p) => Primitive(p)
    case ContiguousShape(count) => Contiguous(count, ts[0])
    case VectorShape(count, blocklen, stride) => Vector(count, blocklen, stride, ts[0])
    case HVectorShape(count, blocklen, stride) => HVector(count, blocklen, stride, ts[0])
    case IndexedBlockShape(blocklen, displs) => IndexedBlock(blocklen, displs, ts[0])
    case HIndexedShape(entries) => HIndexed(entries, ts[0])
    case StructShape(entries) => Struct(FieldsOver(entries, ts))
    case ResizedShape(lb, extent) => Resized(lb, extent, ts[0])
  }

  function FieldsOver(entries: seq<Entry>, ts: seq<Datatype>): seq<Field>
    requires |entries| == |ts|
  {
    seq(|ts|, i requires 0 <= i < |ts| => Field(entries[i].displ, entries[i].blocklen, ts[i]))
  }

  /** The fields of each class, by their names. */
  lemma ShapesMean(a: int, b: int, c: int, displs: seq<int>, e: Entry, t: Datatype)
    ensures Tree(ContiguousShape(a), [t]) == Datatype.Contiguous(count := a, base := t)
    ensures Tree(VectorShape(a, b, c), [t]) == Datatype.Vector(count := a, blocklen := b, stride := c, base := t)
    ensures Tree(HVectorShape(a, b, c), [t]) == Datatype.HVector(count := a, blocklen := b, stride := c, base := t)
    ensures Tree(IndexedBlockShape(a, displs), [t])
         == Datatype.IndexedBlock(blocklen := a, displs := displs, base := t)
    ensures Tree(HIndexedShape([e]), [t]) == Datatype.HIndexed(entries := [e], base := t)
    ensures Tree(StructShape([e]), [t]) == Struct([Field(displ := e.displ, blocklen := e.blocklen, typ := t)])
    ensures Tree(ResizedShape(a, b), [t]) == Datatype.Resized(lb := a, extent := b, base := t)
  {}

  lemma SubtreeIsLower(shape: Shape, ts: seq<Datatype>, i: nat)
    requires |ts| == Arity(shape) && i < |ts|
    ensures Height(ts[i]) < Height(Tree(shape, ts))
  {
    if shape.StructShape? { FieldIsLower(FieldsOver(shape.entries, ts), i); }
  }

  lemma {:induction false} FieldIsLower(fields: seq<Field>, i: nat)
    requires i < |fields|
    ensures Height(fields[i].typ) <= FieldsHeight(fields)
  {
    if i > 0 { FieldIsLower(fields[1..], i - 1); }
  }

  class Node {
    var shape: Shape
    var children: seq<Node>
    var size: int
    var lower_bound: int
    var upper_bound: int
    var freed: bool
    ghost var Repr: set<Node>
    ghost var Ts: seq<Datatype>   // the trees of the children

    ghost function T(): Datatype
      reads this
    {
      if |Ts| == Arity(shape) then Tree(shape, Ts) else Primitive(BYTE)
    }

    /** The stored numbers are those of the tree. */
    ghost predicate Measured(t: Datatype)
      reads this
    {
      size == Size(t) && lower_bound == Lb(t) && upper_bound == Ub(t)
    }

    /** The objects of the tree are distinct and not freed, and every stored number is right. */
    ghost predicate Valid()
      reads this, Repr
      decreases Repr
    {
      && this in Repr && !freed && |children| == |Ts| == Arity(shape) && Measured(T())
      && (forall i :: 0 <= i < |children| ==>
            children[i] in Repr && children[i].Repr < Repr && this !in children[i].Repr)
      && (forall i :: 0 <= i < |children| ==> children[i].Valid() && children[i].T() == Ts[i])
      && (forall i, j :: 0 <= i < j < |children| ==> children[i].Repr !! children[j].Repr)
      && (forall o <- Repr :: o == this || Owned(o, children))
    }

    /** The base types must be separate trees that belong to nobody else. */
    constructor (shape: Shape, children: seq<Node>, size: int, lower_bound: int, upper_bound: int,
                 ghost ts: seq<Datatype>, ghost repr: set<Node>)
      requires |ts| == Arity(shape) && Trees(children, ts)
      requires forall i :: 0 <= i < |children| ==> children[i] in children[i].Repr
      requires forall i, j :: 0 <= i < j < |children| ==> children[i].Repr !! children[j].Repr
      requires IsUnion(repr, children)
      requires size == Size(Tree(shape, ts)) && lower_bound == Lb(Tree(shape, ts)) && upper_bound == Ub(Tree(shape, ts))
      ensures Valid() && this.shape == shape && Ts == ts && Repr == repr + {this}
    {
      hide Node.Valid, Tree, Size, Lb, Ub, Height, Arity, Owned;
      this.shape, this.children := shape, children;
      this.size, this.lower_bound, this.upper_bound, freed := size, lower_bound, upper_bound, false;
      Ts := ts;
      Repr := repr + {this};
      new;
      Fold(this);
    }

    method Clone() returns (r: Node)
      requires Valid()
      ensures fresh(r.Repr) && r in r.Repr && r.Valid() && r.T() == T()
      decreases Height(T()), 1
    {
      r := New(shape, children, Ts);
    }

    /** The destructor. */
    method Delete()
      requires Valid()
      modifies Repr
      ensures forall o <- old(Repr) :: o.freed
      decreases Repr
    {
      hide Node.Valid, Tree, Height, Owned, Size, Lb, Ub, Arity;
      Unfold(this);
      ghost var owner := map o | o in Repr && o != this :: Owner(o, children);
      for i := 0 to |children|
        invariant children == old(children) && Repr == old(Repr)
        invariant forall j :: i <= j < |children| ==> children[j].Valid()
        invariant forall j :: i <= j < |children| ==> children[j].Repr == old(children[j].Repr)
        invariant forall j :: 0 <= j < i ==> forall o <- old(children[j].Repr) :: o.freed
      {
        children[i].Delete();
      }
      freed := true;
      forall o | o in old(Repr) ensures o.freed {
        if o != this { assert o in old(children[owner[o]].Repr); }
      }
    }
  }

  ghost predicate IsUnion(repr: set<Node>, nodes: seq<Node>)
    reads nodes
  {
    && (forall i :: 0 <= i < |nodes| ==> nodes[i].Repr <= repr)
    && (forall o <- repr :: Owned(o, nodes))
  }

  ghost predicate Owned(o: Node, nodes: seq<Node>)
    reads nodes
  {
    exists i :: 0 <= i < |nodes| && o in nodes[i].Repr
  }

  ghost function Owner(o: Node, nodes: seq<Node>): (i: nat)
    requires Owned(o, nodes)
    reads nodes
    ensures i < |nodes| && o in nodes[i].Repr
  {
    var i :| 0 <= i < |nodes| && o in nodes[i].Repr;
    i
  }

  lemma UnionGrows(repr: set<Node>, nodes: seq<Node>, n: Node)
    requires IsUnion(repr, nodes)
    ensures IsUnion(repr + n.Repr, nodes + [n])
  {
    forall o | o in repr + n.Repr ensures Owned(o, nodes + [n]) {
      if o in repr {
        var i := Owner(o, nodes);
        assert (nodes + [n])[i] == nodes[i];
      } else {
        assert (nodes + [n])[|nodes|] == n;
      }
    }
  }

  lemma Unfold(n: Node)
    requires n.Valid()
    ensures n in n.Repr && !n.freed && |n.children| == |n.Ts| == Arity(n.shape) && n.Measured(n.T())
    ensures forall i :: 0 <= i < |n.children| ==>
      n.children[i] in n.Repr && n.children[i].Repr < n.Repr && n !in n.children[i].Repr
    ensures Trees(n.children, n.Ts) && forall i :: 0 <= i < |n.children| ==> n.children[i] in n.children[i].Repr
    ensures forall i, j :: 0 <= i < j < |n.children| ==> n.children[i].Repr !! n.children[j].Repr
    ensures forall o <- n.Repr :: o == n || Owned(o, n.children)
  {}

  ghost predicate Trees(nodes: seq<Node>, ts: seq<Datatype>)
    reads *
  {
    |nodes| == |ts| && forall i :: 0 <= i < |nodes| ==> nodes[i].Valid() && nodes[i].T() == ts[i]
  }

  ghost predicate AllMeasured(nodes: seq<Node>)
    reads nodes
  {
    forall i :: 0 <= i < |nodes| ==> nodes[i].Measured(nodes[i].T())
  }

  ghost function TreesOf(nodes: seq<Node>): (ts: seq<Datatype>)
    reads nodes
    ensures |ts| == |nodes| && forall i :: 0 <= i < |ts| ==> ts[i] == nodes[i].T()
  {
    if nodes == [] then [] else [nodes[0].T()] + TreesOf(nodes[1..])
  }

  lemma TreesAreMeasured(nodes: seq<Node>, ts: seq<Datatype>)
    requires Trees(nodes, ts)
    ensures AllMeasured(nodes) && TreesOf(nodes) == ts
  {}

  /** A constructor call: clone the base types, compute the numbers. */
  method New(shape: Shape, bases: seq<Node>, ghost ts: seq<Datatype>) returns (r: Node)
    requires |bases| == Arity(shape) && Trees(bases, ts)
    ensures fresh(r.Repr) && r in r.Repr && r.Valid() && r.T() == Tree(shape, ts)
    decreases Height(Tree(shape, ts)), 0
  {
    hide Node.Valid, Tree, Size, Lb, Ub, Height, AllMeasured, Arity, Owned;
    ghost var repr;
    var copies;
    copies, repr := CloneAll(shape, bases, ts);
    TreesAreMeasured(copies, ts);
    var size, lb, ub := Measure(shape, copies);
    r := new Node(shape, copies, size, lb, ub, ts, repr);
  }

  lemma Fold(n: Node)
    requires n in n.Repr && !n.freed && |n.children| == |n.Ts| == Arity(n.shape) && n.Measured(n.T())
    requires forall i :: 0 <= i < |n.children| ==>
      n.children[i] in n.Repr && n.children[i].Repr < n.Repr && n !in n.children[i].Repr
    requires Trees(n.children, n.Ts)
    requires forall i, j :: 0 <= i < j < |n.children| ==> n.children[i].Repr !! n.children[j].Repr
    requires forall o <- n.Repr :: o == n || Owned(o, n.children)
    ensures n.Valid()
  {}

  method CloneAll(ghost shape: Shape, bases: seq<Node>, ghost ts: seq<Datatype>)
    returns (copies: seq<Node>, ghost repr: set<Node>)
    requires |bases| == Arity(shape) && Trees(bases, ts)
    ensures |copies| == |ts| && Trees(copies, ts) && (forall i :: 0 <= i < |copies| ==> copies[i] in copies[i].Repr)
    ensures fresh(repr) && IsUnion(repr, copies)
    ensures forall i, j :: 0 <= i < j < |copies| ==> copies[i].Repr !! copies[j].Repr
    decreases Height(Tree(shape, ts)), 0, 0
  {
    hide Node.Valid, Tree, Height, Owned;
    copies, repr := [], {};
    for i := 0 to |bases|
      invariant |copies| == i && Trees(bases, ts)
      invariant forall j :: 0 <= j < i ==> copies[j].Valid() && copies[j].T() == ts[j]
      invariant forall j :: 0 <= j < i ==> copies[j] in copies[j].Repr
      invariant fresh(repr) && IsUnion(repr, copies)
      invariant forall j, k :: 0 <= j < k < i ==> copies[j].Repr !! copies[k].Repr
    {
      SubtreeIsLower(shape, ts, i);
      var copy := bases[i].Clone();
      Unfold(copy);
      UnionGrows(repr, copies, copy);
      copies, repr := copies + [copy], repr + copy.Repr;
    }
  }

  // ----- compress and compile -----

  /** compress(): always a new tree; intermediate trees that were folded away are freed. */
  method CompressNode(n: Node) returns (r: Node)
    requires n.Valid()
    ensures fresh(r.Repr) && r in r.Repr && r.Valid() && r.T() == Compress(n.T())
    decreases Height(n.T())
  {
    hide Node.Valid, Size, Lb, Ub, Height, Owned, Map;
    Unfold(n);
    if n.shape.PrimitiveShape? || n.shape.StructShape? {
      // a struct is rebuilt from its uncompressed children
      r := New(n.shape, n.children, n.Ts);
    } else {
      SubtreeIsLower(n.shape, n.Ts, 0);
      var base := CompressNode(n.children[0]);
      Unfold(base);
      match n.shape
      case ContiguousShape(count) => r := FoldedContiguous(count, base);
      case VectorShape(count, blocklen, stride) =>
        var v := FoldedVector(n, base);
        r := PromotedVector(v);
      case HVectorShape(count, blocklen, stride) =>
        var v := FoldedHVector(n, base);
        r := PromotedHVector(v);
      case IndexedBlockShape(_, _) => r := New(n.shape, [base], [base.T()]);
      case HIndexedShape(_) => r := New(n.shape, [base], [base.T()]);
      case ResizedShape(_, _) => r := New(n.shape, [base], [base.T()]);
    }
  }

  method FoldedContiguous(count: int, base: Node) returns (r: Node)
    requires base.Valid()
    modifies base.Repr
    ensures fresh(r.Repr) && r in r.Repr && r.Valid()
    ensures var t := old(base.T());
      r.T() == if Foldable(t) then Contiguous(count * t.count, t.base) else Contiguous(count, t)
    ensures if Foldable(old(base.T())) then forall o <- old(base.Repr) :: o.freed
            else base.Valid() && base.T() == old(base.T())
  {
    hide Node.Valid, Size, Lb, Ub, Height;
    Unfold(base);
    if base.shape.ContiguousShape? && base.upper_bound - base.lower_bound == base.size {
      r := New(ContiguousShape(count * base.shape.count), base.children, base.Ts);
      base.Delete();
    } else {
      r := New(ContiguousShape(count), [base], [base.T()]);
    }
  }

  /** The first half of VectorDatatype::compress. */
  method FoldedVector(n: Node, base: Node) returns (v: Node)
    requires n.shape.VectorShape? && base.Valid() && n !in base.Repr
    modifies base.Repr
    ensures fresh(v.Repr) && v in v.Repr && v.Valid()
    ensures var (count, blocklen, stride) := (old(n.shape.count), old(n.shape.blocklen), old(n.shape.stride));
      var t := old(base.T());
      v.T() == if Foldable(t) then Vector(count, blocklen * t.count, stride * t.count, t.base)
               else Vector(count, blocklen, stride, t)
    ensures if Foldable(old(base.T())) then forall o <- old(base.Repr) :: o.freed
            else base.Valid() && base.T() == old(base.T())
  {
    hide Node.Valid, Size, Lb, Ub, Height;
    Unfold(base);
    var shape := n.shape;
    if base.shape.ContiguousShape? && base.upper_bound - base.lower_bound == base.size {
      v := New(VectorShape(shape.count, shape.blocklen * base.shape.count, shape.stride * base.shape.count),
               base.children, base.Ts);
      base.Delete();
    } else {
      v := New(shape, [base], [base.T()]);
    }
  }

  /** The second half: a vector without gaps becomes contiguous. */
  method PromotedVector(v: Node) returns (r: Node)
    requires v.Valid() && v.shape.VectorShape?
    modifies v.Repr
    ensures r in r.Repr && r.Valid() && r.T() == PromoteVector(old(v.T()))
      && ((r == v && r.Repr == old(v.Repr)) || fresh(r.Repr))
    ensures r == v || forall o <- old(v.Repr) :: o.freed
  {
    hide Node.Valid, Size, Lb, Ub, Height;
    Unfold(v);
    if v.shape.stride == v.shape.blocklen {
      r := New(ContiguousShape(v.shape.count * v.shape.blocklen), v.children, v.Ts);
      v.Delete();
    } else {
      r := v;
    }
  }

  method FoldedHVector(n: Node, base: Node) returns (v: Node)
    requires n.shape.HVectorShape? && base.Valid() && n !in base.Repr
    modifies base.Repr
    ensures fresh(v.Repr) && v in v.Repr && v.Valid()
    ensures var (count, blocklen, stride) := (old(n.shape.count), old(n.shape.blocklen), old(n.shape.stride));
      var t := old(base.T());
      v.T() == if Foldable(t) then HVector(count, blocklen * t.count, stride, t.base)
               else HVector(count, blocklen, stride, t)
    ensures if Foldable(old(base.T())) then forall o <- old(base.Repr) :: o.freed
            else base.Valid() && base.T() == old(base.T())
  {
    hide Node.Valid, Size, Lb, Ub, Height;
    Unfold(base);
    var shape := n.shape;
    if base.shape.ContiguousShape? && base.upper_bound - base.lower_bound == base.size {
      v := New(HVectorShape(shape.count, shape.blocklen * base.shape.count, shape.stride), base.children, base.Ts);
      base.Delete();
    } else {
      v := New(shape, [base], [base.T()]);
    }
  }

  method PromotedHVector(v: Node) returns (r: Node)
    requires v.Valid() && v.shape.HVectorShape?
    modifies v.Repr
    ensures r in r.Repr && r.Valid() && r.T() == PromoteHVector(old(v.T()))
      && ((r == v && r.Repr == old(v.Repr)) || fresh(r.Repr))
    ensures r == v || forall o <- old(v.Repr) :: o.freed
  {
    hide Node.Valid, Size, Lb, Ub, Height;
    Unfold(v);
    var base := v.children[0];
    Unfold(base);
    if v.shape.stride == v.shape.blocklen * (base.upper_bound - base.lower_bound) {
      r := New(ContiguousShape(v.shape.count * v.shape.blocklen), v.children, v.Ts);
      v.Delete();
    } else {
      r := v;
    }
  }

  /** What the code generators see when they walk the objects. */
  method Walk(n: Node) returns (t: Datatype)
    requires n.Valid()
    ensures t == n.T()
    decreases n.Repr
  {
    hide Node.Valid, Size, Lb, Ub, Height;
    Unfold(n);
    var ts := [];
    for i := 0 to |n.children|
      invariant ts == n.Ts[..i]
    {
      var sub := Walk(n.children[i]);
      ts := ts + [sub];
    }
    t := Tree(n.shape, ts);
  }

  /** Datatype::compile: the compressed tree is generated from and freed; nothing that existed before
      is touched, so every type keeps its meaning. */
  method CompileNode(n: Node, pack: bool) returns (p: seq<Block>, ghost compressed: Node, ghost gone: set<Node>)
    requires n.Valid()
    ensures p == Compile(n.T(), pack) && n.Valid() && n.T() == old(n.T())
    ensures fresh(gone) && compressed in gone && forall o <- gone :: o.freed
  {
    hide Node.Valid, Size, Lb, Ub, Emission.Emit, Compress, Compilation.Function;
    var c := CompressNode(n);
    var t := Walk(c);
    p := Generate(t, pack);
    compressed, gone := c, c.Repr;
    c.Delete();
  }

  /** Freeing several trees that share no object. */
  method DeleteAll(nodes: seq<Node>, ghost repr: set<Node>)
    requires IsUnion(repr, nodes) && forall i :: 0 <= i < |nodes| ==> nodes[i].Valid()
    requires forall i, j :: 0 <= i < j < |nodes| ==> nodes[i].Repr !! nodes[j].Repr
    modifies repr
    ensures forall o <- repr :: o.freed
  {
    hide Node.Valid, Owned;
    ghost var owner := map o | o in repr :: Owner(o, nodes);
    forall i | 0 <= i < |nodes| ensures nodes[i] in nodes[i].Repr { Unfold(nodes[i]); }
    for i := 0 to |nodes|
      invariant forall j :: i <= j < |nodes| ==> nodes[j].Valid() && nodes[j].Repr == old(nodes[j].Repr)
      invariant forall j :: i <= j < |nodes| ==> nodes[j] in nodes[j].Repr
      invariant forall j :: 0 <= j < i ==> forall o <- old(nodes[j].Repr) :: o.freed
    {
      nodes[i].Delete();
    }
    forall o | o in repr ensures o.freed { assert o in old(nodes[owner[o]].Repr); }
  }

  /** Types may be freed as soon as they have been used: the type built from them, and all others whose
      objects are not theirs, stay as they are.  A struct may be built from any number of them. */
  method FreeAfterUse(shape: Shape, bases: seq<Node>, ghost ts: seq<Datatype>, ghost repr: set<Node>, other: Node)
    returns (r: Node)
    requires |bases| == Arity(shape) && Trees(bases, ts) && IsUnion(repr, bases)
    requires forall i, j :: 0 <= i < j < |bases| ==> bases[i].Repr !! bases[j].Repr
    requires other.Valid() && repr !! other.Repr
    modifies repr
    ensures r.Valid() && r.T() == Tree(shape, ts)
    ensures other.Valid() && other.T() == old(other.T()) && forall o <- repr :: o.freed
  {
    hide Node.Valid, Owned, Tree;
    Unfold(other);
    r := New(shape, bases, ts);
    Unfold(r);
    DeleteAll(bases, repr);
  }

  /** The numbers a constructor stores, from those stored in its base types. */
  method Measure(shape: Shape, bases: seq<Node>) returns (size: int, lb: int, ub: int)
    requires |bases| == Arity(shape) && AllMeasured(bases)
    ensures var t := Tree(shape, TreesOf(bases)); size == Size(t) && lb == Lb(t) && ub == Ub(t)
  {
    match shape
    case PrimitiveShape(p) => size, lb, ub := PrimitiveSize(p), 0, PrimitiveSize(p);
    case ContiguousShape(count) =>
      var base := bases[0];
      var extent := base.upper_bound - base.lower_bound;
      size, lb := count * base.size, base.lower_bound;
      ub := base.lower_bound + extent + extent * (count - 1);
    case VectorShape(count, blocklen, stride) =>
      var base := bases[0];
      var extent := base.upper_bound - base.lower_bound;
      size := count * (blocklen * base.size);
      if stride > 0 {
        lb, ub := base.lower_bound, base.upper_bound + (stride * (count - 1) + blocklen - 1) * extent;
      } else {
        lb, ub := base.upper_bound + (stride * (count - 1) + blocklen - 1) * extent, blocklen * extent;
      }
    case HVectorShape(count, blocklen, stride) =>
      var base := bases[0];
      var extent := base.upper_bound - base.lower_bound;
      size := count * (blocklen * base.size);
      if count == 0 {
        lb, ub := 0, 0;
      } else if stride > 0 {
        lb, ub := base.lower_bound, base.upper_bound + stride * (count - 1) + (blocklen - 1) * extent;
      } else {
        lb, ub := base.upper_bound + (stride * (count - 1) + blocklen - 1) * extent, blocklen * extent;
      }
    case IndexedBlockShape(blocklen, displs) =>
      var base := bases[0];
      size := base.size * |displs|;
      lb, ub := IndexedBlockBounds(blocklen, displs, base.upper_bound - base.lower_bound);
    case HIndexedShape(entries) =>
      size, lb, ub := HIndexedNumbers(entries, bases[0].size, bases[0].upper_bound - bases[0].lower_bound);
    case StructShape(entries) => size, lb, ub := StructNumbers(entries, bases);
    case ResizedShape(l, extent) => size, lb, ub := bases[0].size, l, l + extent;
  }

  /** The loop of the IndexedBlockDatatype constructor. */
  method IndexedBlockBounds(blocklen: int, displs: seq<int>, extent: int) returns (lb: int, ub: int)
    ensures lb == IndexedBlockLb(displs, extent) && ub == IndexedBlockUb(displs, blocklen, extent)
  {
    lb, ub := 0, 0;
    if displs != [] { lb, ub := displs[0], displs[0] + blocklen * extent; }
    ghost var lbs, ubs := Scaled(displs, extent), ScaledEnds(displs, blocklen, extent);
    for i := 0 to |displs|
      invariant displs != [] ==> lb == MinFrom(displs[0], lbs[..i])
      invariant displs != [] ==> ub == MaxFrom(displs[0] + blocklen * extent, ubs[..i])
      invariant displs == [] ==> lb == 0 && ub == 0
    {
      assert lbs[..i + 1][..i] == lbs[..i] && ubs[..i + 1][..i] == ubs[..i];
      var tmp_ub := (displs[i] + blocklen) * extent;
      var tmp_lb := displs[i] * extent;
      if tmp_ub > ub { ub := tmp_ub; }
      if tmp_lb < lb { lb := tmp_lb; }
    }
    assert lbs[..|displs|] == lbs && ubs[..|displs|] == ubs;
  }

  lemma {:induction false} EntriesSizeSplit(entries: seq<Entry>, i: nat, size: int)
    requires i < |entries|
    ensures EntriesSize(entries[..i + 1], size) == EntriesSize(entries[..i], size) + size * entries[i].blocklen
  {
    if i == 0 {
      assert EntriesSize(entries[..1][1..], size) == 0;
    } else {
      EntriesSizeSplit(entries[1..], i - 1, size);
      assert entries[..i + 1][1..] == entries[1..][..i] && entries[..i][1..] == entries[1..][..i - 1];
    }
  }

  /** The loop of the HIndexedDatatype constructor. */
  method HIndexedNumbers(entries: seq<Entry>, baseSize: int, extent: int) returns (size: int, lb: int, ub: int)
    ensures size == EntriesSize(entries, baseSize) && lb == HIndexedLb(entries) && ub == HIndexedUb(entries, extent)
  {
    size, lb, ub := 0, 0, 0;
    if entries != [] { lb, ub := entries[0].displ, entries[0].displ + entries[0].blocklen * extent; }
    ghost var lbs, ubs := EntryDispls(entries), EntryEnds(entries, extent);
    for i := 0 to |entries|
      invariant size == EntriesSize(entries[..i], baseSize)
      invariant entries != [] ==> lb == MinFrom(entries[0].displ, lbs[..i])
      invariant entries != [] ==> ub == MaxFrom(EntryEnd(entries[0], extent), ubs[..i])
      invariant entries == [] ==> lb == 0 && ub == 0
    {
      assert lbs[..i + 1][..i] == lbs[..i] && ubs[..i + 1][..i] == ubs[..i];
      EntriesSizeSplit(entries, i, baseSize);
      size := size + baseSize * entries[i].blocklen;
      var tmp_ub := entries[i].displ + entries[i].blocklen * extent;
      var tmp_lb := entries[i].displ;
      if tmp_ub > ub { ub := tmp_ub; }
      if tmp_lb < lb { lb := tmp_lb; }
    }
    assert entries[..|entries|] == entries && lbs[..|entries|] == lbs && ubs[..|entries|] == ubs;
  }

  lemma {:induction false} FieldsSizeSplit(fields: seq<Field>, i: nat)
    requires i < |fields|
    ensures FieldsSize(fields[..i + 1]) == FieldsSize(fields[..i]) + Size(fields[i].typ) * fields[i].blocklen
  {
    if i == 0 {
      assert FieldsSize(fields[..1][1..]) == 0;
    } else {
      FieldsSizeSplit(fields[1..], i - 1);
      assert fields[..i + 1][1..] == fields[1..][..i] && fields[..i][1..] == fields[1..][..i - 1];
    }
  }

  lemma StructOfFields(fields: seq<Field>)
    ensures var t := Struct(fields);
      Size(t) == FieldsSize(fields) && Lb(t) == StructLb(fields) && Ub(t) == StructUb(fields)
  {}

  lemma NoFieldNumbers()
    ensures FieldsSize([]) == StructLb([]) == StructUb([]) == 0
  {}

  lemma BoundsSplit(fields: seq<Field>, i: nat)
    requires i < |fields|
    ensures StructLb(fields[..i + 1]) == Min(StructLb(fields[..i]), fields[i].displ)
    ensures StructUb(fields[..i + 1]) == Max(StructUb(fields[..i]), FieldEnd(fields[i]))
  {
    hide FieldEnd;
    assert fields[..i + 1][..i] == fields[..i] && fields[..i + 1][i] == fields[i];
  }

  /** The loop of the StructDatatype constructor. */
  method StructNumbers(entries: seq<Entry>, bases: seq<Node>) returns (size: int, lb: int, ub: int)
    requires |bases| == |entries| && AllMeasured(bases)
    ensures var t := Struct(FieldsOver(entries, TreesOf(bases))); size == Size(t) && lb == Lb(t) && ub == Ub(t)
  {
    hide TreesOf, Size, Lb, Ub, FieldsSize, StructLb, StructUb;
    size, lb, ub := 0, 0, 0;
    ghost var fields := FieldsOver(entries, TreesOf(bases));
    StructOfFields(fields);
    NoFieldNumbers();
    for i := 0 to |entries|
      invariant size == FieldsSize(fields[..i]) && lb == StructLb(fields[..i]) && ub == StructUb(fields[..i])
    {
      FieldsSizeSplit(fields, i);
      BoundsSplit(fields, i);
      var base := bases[i];
      size := size + base.size * entries[i].blocklen;
      var tmp_ub := entries[i].displ + entries[i].blocklen * (base.upper_bound - base.lower_bound);
      var tmp_lb := entries[i].displ;
      assert FieldEnd(fields[i]) == tmp_ub;
      if tmp_ub > ub { ub := tmp_ub; }
      if tmp_lb < lb { lb := tmp_lb; }
    }
    assert fields[..|entries|] == fields;
  }
}
