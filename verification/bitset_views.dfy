/** Views into a dynamic bitset (`DynamicBitsetView` and
    `DynamicBitsetConstView`, which share every operation except `set`)
    and the dense consistency graph of the `kpkc` grounder. A view is the
    half-open bit range [begin, end) of the bitset it points into. */
module BitsetViews {
  import opened Ranks

  /** A `boost::dynamic_bitset`: its size and set bits. */
  datatype Bitset = Bitset(width: nat, bits: set<nat>)

  predicate ValidBitset(data: Bitset) {
    forall x :: x in data.bits ==> x < data.width
  }

  datatype View = View(begin: nat, end: nat)

  /** The view over the whole bitset. */
  function Whole(data: Bitset): (v: View)
    ensures v.begin == 0 && v.begin <= v.end && Size(v) == data.width
  {
    View(0, data.width)
  }

  /** The constructor over [begin, end), which asserts begin <= end. */
  function Range(begin: nat, end: nat): (v: View)
    requires begin <= end
    ensures v.begin == begin && v.begin <= v.end && Size(v) == end - begin
  {
    View(begin, end)
  }

  /** `size`: end - begin, for the ordered ranges every constructor
      produces. */
  function Size(v: View): nat
    requires v.begin <= v.end
  {
    v.end - v.begin
  }

  /** The nested constructor: [relBegin, relEnd) relative to the parent,
      which must fit inside it. */
  function Nested(parent: View, relBegin: nat, relEnd: nat): (v: View)
    requires relBegin <= relEnd && parent.begin + relEnd <= parent.end
    ensures parent.begin <= v.begin <= v.end <= parent.end
    ensures v.begin == parent.begin + relBegin && Size(v) == relEnd - relBegin
  {
    View(parent.begin + relBegin, parent.begin + relEnd)
  }

  /** `slice(i, d)`: the i-th run of d bits, which asserts d > 0. */
  function Slice(v: View, i: nat, d: nat): (r: View)
    requires d > 0
    ensures r.begin <= r.end && Size(r) == d
    ensures r.begin == v.begin + PairRank(i, 0, d)
  {
    View(v.begin + d * i, v.begin + d * (i + 1))
  }

  /** `test(bit)`: bit begin + bit of the underlying bitset. Both the view
      and the bitset assert that the position is in range. */
  predicate Test(data: Bitset, v: View, bit: nat)
    requires v.begin <= v.end && bit < Size(v) && v.begin + bit < data.width
  {
    v.begin + bit in data.bits
  }

  /** `set(bit)` on a mutable view. */
  function Set(data: Bitset, v: View, bit: nat): (r: Bitset)
    requires v.begin <= v.end && bit < Size(v) && v.begin + bit < data.width
    ensures r.width == data.width && Test(r, v, bit)
    ensures ValidBitset(data) ==> ValidBitset(r)
    ensures forall x :: x != v.begin + bit ==> (x in r.bits <==> x in data.bits)
  {
    data.(bits := data.bits + {v.begin + bit})
  }

  /** Setting a bit through one view changes what another view reads at
      a bit exactly when both address the same underlying position. */
  lemma SetThroughView(data: Bitset, v: View, bit: nat, w: View, b: nat)
    requires v.begin <= v.end && bit < Size(v) && v.begin + bit < data.width
    requires w.begin <= w.end && b < Size(w) && w.begin + b < data.width
    ensures Test(Set(data, v, bit), w, b) <==> Test(data, w, b) || w.begin + b == v.begin + bit
  {
  }

  /** Bit b of slice i is bit i * d + b of the parent, so two slices of
      the same width share no bit. */
  lemma SliceBits(v: View, i: nat, b: nat, j: nat, c: nat, d: nat)
    requires d > 0 && b < d && c < d
    ensures Slice(v, i, d).begin + b == v.begin + PairRank(i, b, d)
    ensures Slice(v, i, d).begin + b == Slice(v, j, d).begin + c <==> i == j && b == c
  {
    PairRankInjective(i, b, j, c, d);
  }

  /** Writing row i of a matrix stored row by row leaves every other row
      as it was. */
  lemma SetRowIndependent(data: Bitset, v: View, i: nat, b: nat, j: nat, c: nat, d: nat)
    requires d > 0 && b < d && c < d
    requires Slice(v, i, d).begin + b < data.width && Slice(v, j, d).begin + c < data.width
    ensures Test(Set(data, Slice(v, i, d), b), Slice(v, j, d), c)
            <==> Test(data, Slice(v, j, d), c) || (i == j && b == c)
  {
    SliceBits(v, i, b, j, c, d);
    SetThroughView(data, Slice(v, i, d), b, Slice(v, j, d), c);
  }

  /** `DenseConsistencyGraph`: the V x V adjacency bits, the vertex
      partitioning and the partition offsets. */
  datatype DenseConsistencyGraph = DenseConsistencyGraph(adjacency: Bitset, vertexPartitioning: seq<nat>,
                                                         partitionOffsets: seq<nat>, numVertices: nat, k: nat)

  /** The constructor: V * V cleared adjacency bits, k zeroed partition
      entries and k + 1 zeroed offsets. */
  function NewDenseGraph(numVertices: nat, k: nat): (g: DenseConsistencyGraph)
    ensures g.adjacency.width == numVertices * numVertices && g.adjacency.bits == {}
    ensures |g.vertexPartitioning| == k && |g.partitionOffsets| == k + 1
    ensures forall p :: 0 <= p < k ==> g.vertexPartitioning[p] == 0
    ensures forall p :: 0 <= p <= k ==> g.partitionOffsets[p] == 0
    ensures g.numVertices == numVertices && g.k == k
  {
    DenseConsistencyGraph(Bitset(numVertices * numVertices, {}), seq(k, _ => 0), seq(k + 1, _ => 0), numVertices, k)
  }

  /** Row u of the adjacency matrix, seen as a slice of the whole bitset,
      has V bits, all inside the matrix, and reads bit u * V + v. */
  lemma AdjacencyRow(g: DenseConsistencyGraph, u: nat, v: nat)
    requires g.adjacency.width == g.numVertices * g.numVertices && u < g.numVertices && v < g.numVertices
    ensures Slice(Whole(g.adjacency), u, g.numVertices).begin + v < g.adjacency.width
    ensures Test(g.adjacency, Slice(Whole(g.adjacency), u, g.numVertices), v) <==> PairRank(u, v, g.numVertices) in g.adjacency.bits
  {
    PairRankBounds(u, v, g.numVertices);
  }
}
