/** The read-only span over a contiguous container (`SpanProxy`) and its
    random-access iterator. An iterator is a position relative to the
    span's first element; the element it reaches is the element at that
    position. */
module Span {
  datatype SpanProxy<T> = SpanProxy(data: seq<T>)

  /** An iterator: a position that may be moved anywhere; only positions
      inside the span can be dereferenced. */
  datatype Iterator = Iterator(pos: int)

  function Size<T>(s: SpanProxy<T>): nat {
    |s.data|
  }

  predicate Empty<T>(s: SpanProxy<T>) {
    |s.data| == 0
  }

  function At<T>(s: SpanProxy<T>, i: nat): T
    requires i < Size(s)
  {
    s.data[i]
  }

  function Begin<T>(s: SpanProxy<T>): Iterator {
    Iterator(0)
  }

  function End<T>(s: SpanProxy<T>): Iterator {
    Iterator(|s.data|)
  }

  /** `it + n` (and `n + it`, and `it += n`). */
  function Add(it: Iterator, n: int): Iterator {
    Iterator(it.pos + n)
  }

  /** `it - n` (and `it -= n`). */
  function Sub(it: Iterator, n: int): Iterator {
    Iterator(it.pos - n)
  }

  /** `++it` and `--it`; the postfix forms return the iterator before the
      move. */
  function Next(it: Iterator): Iterator {
    Iterator(it.pos + 1)
  }

  function Prev(it: Iterator): Iterator {
    Iterator(it.pos - 1)
  }

  function PostIncrement(it: Iterator): (res: (Iterator, Iterator)) {
    (it, Next(it))
  }

  /** `lhs - rhs`: the distance between two iterators. */
  function Diff(lhs: Iterator, rhs: Iterator): int {
    lhs.pos - rhs.pos
  }

  predicate Less(lhs: Iterator, rhs: Iterator) {
    lhs.pos < rhs.pos
  }

  predicate Greater(lhs: Iterator, rhs: Iterator) {
    Less(rhs, lhs)
  }

  predicate LessEq(lhs: Iterator, rhs: Iterator) {
    !Less(rhs, lhs)
  }

  predicate GreaterEq(lhs: Iterator, rhs: Iterator) {
    !Less(lhs, rhs)
  }

  /** `*it`. */
  function Deref<T>(s: SpanProxy<T>, it: Iterator): T
    requires 0 <= it.pos < |s.data|
  {
    s.data[it.pos]
  }

  /** `it[n]`: the element n places on. */
  function IndexFrom<T>(s: SpanProxy<T>, it: Iterator, n: int): T
    requires 0 <= it.pos + n < |s.data|
  {
    Deref(s, Add(it, n))
  }

  /** The iterators span exactly the elements: `end - begin` is the size,
      `empty` holds iff the size is 0 iff begin and end meet, and the
      span's i-th element is the one i places from `begin`. */
  lemma IteratorsCoverSpan<T>(s: SpanProxy<T>)
    ensures Diff(End(s), Begin(s)) == Size(s)
    ensures Empty(s) <==> Size(s) == 0
    ensures Empty(s) <==> End(s) == Begin(s)
    ensures forall i: nat :: i < Size(s) ==> IndexFrom(s, Begin(s), i) == At(s, i) == Deref(s, Add(Begin(s), i))
  {
  }

  /** Moving by n and back by n returns to the same iterator; `++` and
      `--` move by one and undo each other; `+` commutes. */
  lemma MovesInvert(it: Iterator, n: int)
    ensures Sub(Add(it, n), n) == it && Add(Sub(it, n), n) == it
    ensures Next(it) == Add(it, 1) && Prev(it) == Sub(it, 1)
    ensures Prev(Next(it)) == it && Next(Prev(it)) == it
    ensures Diff(Add(it, n), it) == n
    ensures PostIncrement(it).0 == it && PostIncrement(it).1 == Next(it)
  {
  }

  /** The comparisons order iterators by position, consistently with
      their distance, and equality is equality of positions. */
  lemma ComparisonsFollowDistance(a: Iterator, b: Iterator)
    ensures Less(a, b) <==> Diff(b, a) > 0
    ensures LessEq(a, b) <==> Diff(b, a) >= 0
    ensures Greater(a, b) <==> Diff(a, b) > 0
    ensures GreaterEq(a, b) <==> Diff(a, b) >= 0
    ensures a == b <==> Diff(a, b) == 0
    ensures Less(a, b) || a == b || Greater(a, b)
  {
  }
}
