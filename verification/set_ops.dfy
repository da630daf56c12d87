/** In-place set operations on unordered sets. */
module SetOps {
  /** `intersect_inplace(target, other)`: walks the target and erases
      every element the other set lacks. */
  method IntersectInPlace(target: set<nat>, other: set<nat>) returns (r: set<nat>)
    ensures forall x :: x in r <==> x in target && x in other
  {
    r := target;
    var pending := target;
    while pending != {}
      invariant pending <= target
      invariant forall x :: x in r <==> x in target && (x in pending || x in other)
      decreases |pending|
    {
      var x :| x in pending;
      if x !in other {
        r := r - {x};
      }
      pending := pending - {x};
    }
  }

  /** `union_inplace(target, other)`: inserts every element of the other
      set. */
  method UnionInPlace(target: set<nat>, other: set<nat>) returns (r: set<nat>)
    ensures forall x :: x in r <==> x in target || x in other
  {
    r := target;
    var pending := other;
    while pending != {}
      invariant pending <= other
      invariant forall x :: x in r <==> x in target || (x in other && x !in pending)
      decreases |pending|
    {
      var x :| x in pending;
      r := r + {x};
      pending := pending - {x};
    }
  }
}
