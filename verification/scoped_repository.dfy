/** A repository seen through a read-only global repository and a
    writable local one (`ScopedRepository`). Global elements come first;
    a locally created element is given the next index after both. */
module ScopedRepository {
  import opened Wrappers
  import opened PlanningRepository
  import IndexMixins

  /** The global repository and the local container (a repository without
      parent). */
  datatype Scoped<T> = Scoped(global: Repo<T>, local: seq<Entry<T>>)

  /** The number of elements visible through the scope. */
  function ScopedSize<T>(s: Scoped<T>): nat {
    Size(s.global) + |s.local|
  }

  /** `find`: global first, then local. */
  function ScopedFind<T(==)>(s: Scoped<T>, x: T): (r: Option<nat>)
    ensures Find(s.global, x).Some? ==> r == Find(s.global, x)
    ensures Find(s.global, x).None? ==> r == FindLocal(s.local, x)
  {
    if Find(s.global, x).Some? then Find(s.global, x) else FindLocal(s.local, x)
  }

  /** `get_or_create`: a global hit is returned without touching the local
      container; otherwise the element is inserted locally under index
      global size + local size, unless the local container already holds
      it. */
  function ScopedGetOrCreate<T(==)>(s: Scoped<T>, x: T): (res: (Scoped<T>, nat, bool))
    ensures ScopedFind(s, x).Some? ==> res == (s, ScopedFind(s, x).value, false)
    ensures ScopedFind(s, x).None? ==>
      res.2 && res.1 == ScopedSize(s) && res.0.global == s.global && ScopedSize(res.0) == ScopedSize(s) + 1
  {
    if Find(s.global, x).Some? then (s, Find(s.global, x).value, false)
    else
      var idx := Size(s.global) + |s.local|;
      match FindLocal(s.local, x)
      case Some(j) => (s, j, false)
      case None => (s.(local := s.local + [Entry(x, idx)]), idx, true)
  }

  /** `operator[]` as written: a local read uses the index unchanged, so it
      addresses local position `i` rather than `i - global size`. `None`
      stands for a read past the end of the local container. */
  function ScopedAtAsWritten<T>(s: Scoped<T>, i: nat): Option<T>
    requires i != IndexMixins.Max
  {
    if i < Size(s.global) then Some(At(s.global, i))
    else if i < |s.local| then Some(s.local[i].data)
    else None
  }

  /** `operator[]` with the local index shifted by the global size, as the
      planning repository does. */
  function ScopedAt<T>(s: Scoped<T>, i: nat): T
    requires i != IndexMixins.Max && i < ScopedSize(s)
  {
    if i < Size(s.global) then At(s.global, i) else s.local[i - Size(s.global)].data
  }

  /** Local entries stored under global size + position, without
      duplicates, none of them already global. */
  predicate ScopedWellIndexed<T(==)>(s: Scoped<T>) {
    WellIndexed(s.global)
    && (forall k :: 0 <= k < |s.local| ==> s.local[k].index == Size(s.global) + k)
    && (forall j, k :: 0 <= j < k < |s.local| ==> s.local[j].data != s.local[k].data)
    && (forall k :: 0 <= k < |s.local| ==> Find(s.global, s.local[k].data).None?)
  }

  /** The scope behaves as a repository whose parent is the global one. */
  function AsChild<T>(s: Scoped<T>): Repo<T> {
    Child(s.global, s.local)
  }

  lemma AsChildAgrees<T>(s: Scoped<T>, x: T)
    ensures ScopedFind(s, x) == Find(AsChild(s), x)
    ensures ScopedSize(s) == Size(AsChild(s))
    ensures ScopedWellIndexed(s) <==> WellIndexed(AsChild(s))
    ensures ScopedGetOrCreate(s, x).1 == GetOrCreate(AsChild(s), x).1
    ensures ScopedGetOrCreate(s, x).2 == GetOrCreate(AsChild(s), x).2
    ensures AsChild(ScopedGetOrCreate(s, x).0) == GetOrCreate(AsChild(s), x).0
  {
  }

  /** With the shift, the scope's find and `operator[]` are inverse. */
  lemma ScopedFindSound<T>(s: Scoped<T>, x: T)
    requires ScopedWellIndexed(s) && ScopedFind(s, x).Some? && ScopedFind(s, x).value != IndexMixins.Max
    ensures ScopedFind(s, x).value < ScopedSize(s)
    ensures ScopedAt(s, ScopedFind(s, x).value) == x
  {
    AsChildAgrees(s, x);
    FindSound(AsChild(s), x);
  }

  /** As written, an element created locally under a non-empty global
      repository is not read back: its index points past the local
      container. */
  lemma AsWrittenMissesLocal(g: int, l: int)
    ensures var s := Scoped(Root([Entry(g, 0)]), []);
            var (s1, i, created) := ScopedGetOrCreate(s, l);
            g != l ==> created && i == 1 && ScopedAtAsWritten(s1, i) == None && ScopedAt(s1, i) == l
  {
    var s := Scoped(Root([Entry(g, 0)]), []);
    if g != l {
      assert Find(s.global, l) == None;
      assert FindLocal(s.local, l) == None;
    }
  }
}
