/** The hash-consing repository of planning formalism elements
    (`formalism::planning::Repository`), for one element type: each stored
    element carries the index assigned when it was created, and a
    repository may overlay a parent whose indices come first. The source
    keeps one such container per element type; they do not interact. */
module PlanningRepository {
  import opened Wrappers
  import IndexMixins

  /** A stored element with its assigned index. */
  datatype Entry<T> = Entry(data: T, index: nat)

  /** A root repository, or one that overlays a parent. */
  datatype Repo<T> = Root(local: seq<Entry<T>>) | Child(parent: Repo<T>, local: seq<Entry<T>>)

  /** The index of the entry holding `x` in the local container
      (`find_impl`). */
  function FindLocal<T(==)>(local: seq<Entry<T>>, x: T): (r: Option<nat>)
    ensures r.Some? ==> exists k :: 0 <= k < |local| && local[k].data == x && local[k].index == r.value
    ensures r.None? <==> forall k :: 0 <= k < |local| ==> local[k].data != x
    decreases |local|
  {
    if |local| == 0 then None
    else if local[|local| - 1].data == x then Some(local[|local| - 1].index)
    else FindLocal(local[..|local| - 1], x)
  }

  /** The number of elements stored by the parent chain. */
  function ParentSize<T>(r: Repo<T>): nat {
    match r
    case Root(_) => 0
    case Child(p, _) => Size(p)
  }

  /** `size`: parent size plus local size. */
  function Size<T>(r: Repo<T>): (n: nat)
    ensures n >= |r.local|
  {
    match r
    case Root(local) => |local|
    case Child(p, local) => Size(p) + |local|
  }

  /** `find`: the parent's hit when there is one, otherwise the local
      lookup. */
  function Find<T(==)>(r: Repo<T>, x: T): Option<nat> {
    match r
    case Root(local) => FindLocal(local, x)
    case Child(p, local) => if Find(p, x).Some? then Find(p, x) else FindLocal(local, x)
  }

  /** `get_or_create`: the repository afterwards, the index and whether
      a new element was created. A miss everywhere stores the element under
      index parent size + local size. */
  function GetOrCreate<T(==)>(r: Repo<T>, x: T): (res: (Repo<T>, nat, bool))
    ensures Find(r, x).Some? ==> res == (r, Find(r, x).value, false)
    ensures Find(r, x).None? ==> res.2 && res.1 == Size(r) && Size(res.0) == Size(r) + 1
  {
    if r.Child? && Find(r.parent, x).Some? then (r, Find(r.parent, x).value, false)
    else
      var idx := ParentSize(r) + |r.local|;
      match FindLocal(r.local, x)
      case Some(j) => (r, j, false)
      case None => (r.(local := r.local + [Entry(x, idx)]), idx, true)
  }

  /** `operator[]`: indices below the parent size are the parent's; the
      others are read locally after subtracting the parent size. The
      sentinel is not an index. */
  function At<T>(r: Repo<T>, i: nat): T
    requires i != IndexMixins.Max && i < Size(r)
  {
    match r
    case Root(local) => local[i].data
    case Child(p, local) => if i < Size(p) then At(p, i) else local[i - Size(p)].data
  }

  /** `front`: the first element of the root-most non-empty repository. */
  function Front<T>(r: Repo<T>): T
    requires Size(r) > 0
  {
    match r
    case Root(local) => local[0].data
    case Child(p, local) => if Size(p) > 0 then Front(p) else local[0].data
  }

  /** `clear`: empties the local slots only. */
  function Clear<T>(r: Repo<T>): (c: Repo<T>)
    ensures Size(c) == ParentSize(r) && ParentSize(c) == ParentSize(r)
  {
    r.(local := [])
  }

  /** Every entry is stored under the index it is read back with, no
      element is stored twice, and no local element is also in the
      parent. */
  predicate WellIndexed<T(==)>(r: Repo<T>) {
    (r.Child? ==> WellIndexed(r.parent))
    && (forall k :: 0 <= k < |r.local| ==> r.local[k].index == ParentSize(r) + k)
    && (forall j, k :: 0 <= j < k < |r.local| ==> r.local[j].data != r.local[k].data)
    && (r.Child? ==> forall k :: 0 <= k < |r.local| ==> Find(r.parent, r.local[k].data).None?)
  }

  /** A found index is in range and reads back the element searched for. */
  lemma {:induction false} FindSound<T>(r: Repo<T>, x: T)
    requires WellIndexed(r) && Find(r, x).Some?
    ensures Find(r, x).value < Size(r)
    ensures Find(r, x).value != IndexMixins.Max ==> At(r, Find(r, x).value) == x
  {
    if r.Child? && Find(r.parent, x).Some? {
      FindSound(r.parent, x);
    } else {
      var k :| 0 <= k < |r.local| && r.local[k].data == x && r.local[k].index == Find(r, x).value;
    }
  }

  /** Every stored index is found again from the element it reads: find
      and `operator[]` are inverse on a well-indexed repository. */
  lemma {:induction false} FindComplete<T>(r: Repo<T>, i: nat)
    requires WellIndexed(r) && i != IndexMixins.Max && i < Size(r)
    ensures Find(r, At(r, i)) == Some(i)
  {
    if r.Child? && i < Size(r.parent) {
      FindComplete(r.parent, i);
    } else {
      var k := i - ParentSize(r);
      FindLocalAt(r.local, k);
    }
  }

  /** In a container without duplicates, the lookup of the `k`th element
      gives its index. */
  lemma {:induction false} FindLocalAt<T>(local: seq<Entry<T>>, k: nat)
    requires k < |local|
    requires forall j, l :: 0 <= j < l < |local| ==> local[j].data != local[l].data
    ensures FindLocal(local, local[k].data) == Some(local[k].index)
    decreases |local|
  {
    if k < |local| - 1 {
      var init := local[..|local| - 1];
      assert init[k] == local[k];
      FindLocalAt(init, k);
    }
  }

  /** Appending an entry changes no lookup of another element, and the
      appended element is found under its index. */
  lemma {:induction false} FindLocalAppend<T>(local: seq<Entry<T>>, e: Entry<T>, y: T)
    ensures FindLocal(local + [e], y) == if y == e.data then Some(e.index) else FindLocal(local, y)
  {
    assert (local + [e])[..|local|] == local;
  }

  /** A creation leaves every other lookup as it was. */
  lemma GetOrCreateFinds<T>(r: Repo<T>, x: T, y: T)
    ensures Find(GetOrCreate(r, x).0, y) == if y == x then Some(GetOrCreate(r, x).1) else Find(r, y)
  {
    if Find(r, x).None? {
      FindLocalAppend(r.local, Entry(x, ParentSize(r) + |r.local|), y);
    }
  }

  /** `get_or_create` keeps the repository well indexed and leaves every
      existing index reading the same element. */
  lemma GetOrCreatePreserves<T>(r: Repo<T>, x: T)
    requires WellIndexed(r)
    ensures WellIndexed(GetOrCreate(r, x).0)
    ensures ParentSize(GetOrCreate(r, x).0) == ParentSize(r)
    ensures forall i :: 0 <= i < Size(r) && i != IndexMixins.Max ==>
              i < Size(GetOrCreate(r, x).0) && At(GetOrCreate(r, x).0, i) == At(r, i)
  {
    var r2 := GetOrCreate(r, x).0;
    if Find(r, x).None? {
      assert r2.local == r.local + [Entry(x, ParentSize(r) + |r.local|)];
      assert forall k :: 0 <= k < |r.local| ==> r2.local[k] == r.local[k];
    }
  }

  /** Creating the same element twice: the second call finds the index
      the first produced and creates nothing. */
  lemma GetOrCreateIdempotent<T>(r: Repo<T>, x: T)
    ensures var (r1, i1, _) := GetOrCreate(r, x);
            GetOrCreate(r1, x) == (r1, i1, false)
  {
    GetOrCreateFinds(r, x, x);
  }

  /** `front` is the element at index 0. */
  lemma {:induction false} FrontIsFirst<T>(r: Repo<T>)
    requires Size(r) > 0
    ensures 0 != IndexMixins.Max && At(r, 0) == Front(r)
  {
    if r.Child? && Size(r.parent) > 0 {
      FrontIsFirst(r.parent);
    }
  }

  /** After `clear`, lookups fall back to the parent, and the repository
      stays well indexed. */
  lemma ClearFinds<T>(r: Repo<T>, x: T)
    ensures Find(Clear(r), x) == if r.Child? then Find(r.parent, x) else None
    ensures WellIndexed(r) ==> WellIndexed(Clear(r))
  {
  }
}
