/** Which trees the code generators handle correctly.  Each condition is one a caller can check on
    the tree; modules Defects and Visibility say when the trees shut out here are compiled wrongly. */
module Support {
  import opened Datatypes
  import opened Typemap
  import opened Wellformed
  import opened Bounds
  import opened Compression
  import opened Emission

  /** Good(t, pack): the code emitted for t to pack (or unpack) is right, as far as t's shape goes. */
  predicate Good(t: Datatype, pack: bool)
    decreases t, 0
  {
    match t
    case Primitive(_) => true
    case Contiguous(_, base) => Good(base, pack) && Sized(base)
    case Vector(_, _, _, base) => Good(base, pack) && Sized(base)
    case HVector(_, _, _, base) => Good(base, pack) && Sized(base)
    case IndexedBlock(blocklen, displs, base) =>
      if |displs| > IDXB_LOOP_THRESHOLD then
        // the table loop: one primitive at a time, at non-negative displacements
        blocklen == 1 && base.Primitive? && forall d <- displs :: d >= 0
      else
        // the unrolled loop: displacements are scaled by the size of the base
        && Good(base, pack) && Sized(base)
        && (Size(base) == Extent(base) || forall d <- displs :: d == 0)
    case HIndexed(_, base) => Good(base, pack) && Sized(base)
    case Struct(fields) => GoodFields(fields, pack)
    case Resized(_, extent, base) =>
      match base
      case Primitive(_) => pack || extent == Size(base)
      case Contiguous(_, inner) =>
        Good(inner, true) && Sized(inner) && (pack || (GapFree(base) && extent == Size(base)))
      case Vector(_, _, _, inner) => Good(inner, pack) && Sized(inner)
      case HVector(_, _, _, inner) => Good(inner, pack) && Sized(inner)
      case _ => false
  }

  predicate GoodFields(fields: seq<Field>, pack: bool)
    decreases fields, 0
  {
    if fields == [] then true
    else
      var f := fields[0];
      assert f.typ < f;
      Good(f.typ, pack) && Sized(f.typ) && GoodFields(fields[1..], pack)
  }

  predicate Supported(t: Datatype, pack: bool) {
    Positive(t) && Fits(t) && Good(t, pack)
  }

  lemma SizedLength(t: Datatype, n: int)
    requires Positive(t) && Sized(t) && n >= 0
    ensures |Map(t)| == Size(t) && |Copies(t, n)| == n * Size(t)
  {
    SizeIsMapLength(t);
    CopiesLength(t, n);
  }
}
