/** The packing of planning states (`TaskMixin`): a state's atom bitsets
    are stored as the sorted lists of their set bits, packed states are
    hash-consed into a table whose positions are the state indices, and the
    task's static atoms and static numeric values are laid out once. The
    slots of the packed sequences are hash-consed, so a slot stands for the
    sequence it holds; the model stores the sequences themselves. */
module TaskStates {
  import opened Wrappers
  import opened Sorting

  /** A dynamic bitset: bit i is `b[i]`; bits past the end are clear. */
  type Bits = seq<bool>

  predicate IsSet(b: Bits, i: nat) {
    i < |b| && b[i]
  }

  /** `create_atoms_slot`: the set bits, in ascending order. */
  method CreateAtomsSlot(b: Bits) returns (buffer: seq<nat>)
    ensures StrictlySorted(buffer)
    ensures forall i: nat :: i in buffer <==> IsSet(b, i)
  {
    buffer := [];
    var i := 0;
    while i < |b|
      invariant i <= |b|
      invariant StrictlySorted(buffer)
      invariant forall x :: x in buffer ==> x < i
      invariant forall x: nat :: x in buffer <==> x < i && IsSet(b, x)
    {
      if b[i] {
        StrictConcat(buffer, [i]);
        buffer := buffer + [i];
      }
      i := i + 1;
    }
  }

  /** The set bits in ascending order, as a function. */
  function SetBits(b: Bits): (r: seq<nat>)
    ensures StrictlySorted(r)
    ensures forall x: nat :: x in r <==> IsSet(b, x)
    ensures forall x :: x in r ==> x < |b|
    decreases |b|
  {
    if |b| == 0 then []
    else
      var init := b[..|b| - 1];
      assert forall x: nat :: IsSet(init, x) <==> x < |b| - 1 && IsSet(b, x);
      var tail: seq<nat> := if b[|b| - 1] then [|b| - 1] else [];
      StrictConcat(SetBits(init), tail);
      SetBits(init) + tail
  }

  /** `resize(n, false)`: truncation or padding with clear bits. */
  function Resize(b: Bits, n: nat): (r: Bits)
    ensures |r| == n && forall i: nat :: i < n ==> (IsSet(r, i) <==> IsSet(b, i))
  {
    seq(n, i requires 0 <= i < n => i < |b| && b[i])
  }

  /** `fill_atoms`: an empty list leaves the bitset as it is; otherwise it
      is resized to the last index + 1 and every listed index is set. */
  function FillAtoms(buffer: seq<nat>, b: Bits): (r: Bits)
    requires Sorted(buffer)
  {
    if |buffer| == 0 then b
    else
      var last := buffer[|buffer| - 1];
      var resized := Resize(b, last + 1);
      seq(last + 1, i requires 0 <= i <= last => resized[i] || i in buffer)
  }

  /** Filling sets exactly the listed bits besides the bits kept from
      before, and sizes the bitset to the largest listed index. */
  lemma FillAtomsMeaning(buffer: seq<nat>, b: Bits)
    requires Sorted(buffer)
    ensures |buffer| == 0 ==> FillAtoms(buffer, b) == b
    ensures |buffer| > 0 ==> |FillAtoms(buffer, b)| == buffer[|buffer| - 1] + 1
    ensures |buffer| > 0 ==> forall i: nat :: IsSet(FillAtoms(buffer, b), i) <==>
              i in buffer || (i <= buffer[|buffer| - 1] && IsSet(b, i))
  {
    if |buffer| > 0 {
      var last := buffer[|buffer| - 1];
      forall i | i in buffer ensures i <= last {
        var k :| 0 <= k < |buffer| && buffer[k] == i;
      }
    }
  }

  /** The last element of a strictly increasing list is its largest, and
      the list without it holds exactly the smaller elements. */
  lemma StrictInit(a: seq<nat>)
    requires StrictlySorted(a) && |a| > 0
    ensures forall x :: x in a ==> x <= a[|a| - 1]
    ensures forall x :: x in a[..|a| - 1] <==> x in a && x < a[|a| - 1]
    ensures StrictlySorted(a[..|a| - 1])
  {
    var m := a[|a| - 1];
    forall x | x in a ensures x <= m {
      var k :| 0 <= k < |a| && a[k] == x;
    }
    forall x | x in a && x < m ensures x in a[..|a| - 1] {
      var k :| 0 <= k < |a| && a[k] == x;
      assert a[..|a| - 1][k] == x;
    }
  }

  /** Two strictly increasing lists with the same elements are equal. */
  lemma {:induction false} StrictlySortedUnique(a: seq<nat>, c: seq<nat>)
    requires StrictlySorted(a) && StrictlySorted(c)
    requires forall x :: x in a <==> x in c
    ensures a == c
    decreases |a|
  {
    assert |a| > 0 ==> a[0] in a;
    assert |c| > 0 ==> c[0] in c;
    if |a| > 0 && |c| > 0 {
      StrictInit(a);
      StrictInit(c);
      var m, n := a[|a| - 1], c[|c| - 1];
      assert m in c && n in a;
      assert m == n;
      var a0, c0 := a[..|a| - 1], c[..|c| - 1];
      forall x ensures x in a0 <==> x in c0 {
        assert x in a0 <==> x in a && x < m;
        assert x in c0 <==> x in c && x < n;
      }
      StrictlySortedUnique(a[..|a| - 1], c[..|c| - 1]);
      assert a == a[..|a| - 1] + [m] && c == c[..|c| - 1] + [n];
    }
  }

  /** Unpacking a packed bitset into a cleared one gives back the set bits
      of the original, and packing a strictly increasing list that was
      unpacked gives the list back. */
  lemma PackUnpack(b: Bits, buffer: seq<nat>)
    requires StrictlySorted(buffer)
    ensures forall i: nat :: IsSet(FillAtoms(SetBits(b), []), i) <==> IsSet(b, i)
    ensures SetBits(FillAtoms(buffer, [])) == buffer
  {
    FillAtomsMeaning(SetBits(b), []);
    FillAtomsMeaning(buffer, []);
    StrictlySortedUnique(SetBits(FillAtoms(buffer, [])), buffer);
  }

  /** The static atom bitset of the constructor: each listed atom index is
      set, growing the bitset to index + 1 when it is too short. */
  method StaticAtomsBitset(atoms: seq<nat>) returns (b: Bits)
    ensures forall i: nat :: IsSet(b, i) <==> i in atoms
    ensures |b| == 0 || |b| - 1 in atoms
  {
    b := [];
    var k := 0;
    while k < |atoms|
      invariant k <= |atoms|
      invariant forall i: nat :: IsSet(b, i) <==> i in atoms[..k]
      invariant |b| == 0 || |b| - 1 in atoms[..k]
    {
      var a := atoms[k];
      if a >= |b| {
        b := Resize(b, a + 1);
      }
      b := b[a := true];
      assert atoms[..k + 1] == atoms[..k] + [a];
      k := k + 1;
    }
    assert atoms[..k] == atoms;
  }

  /** The value the last assignment to `i` in the list gives it; undefined
      (NaN) when there is none. */
  function LastValue(values: seq<(nat, real)>, i: nat): (v: Option<real>)
    ensures v.None? <==> forall k :: 0 <= k < |values| ==> values[k].0 != i
    decreases |values|
  {
    if |values| == 0 then None
    else if values[|values| - 1].0 == i then Some(values[|values| - 1].1)
    else LastValue(values[..|values| - 1], i)
  }

  /** The static numeric variables of the constructor: each (index, value)
      pair is written, growing the vector with undefined entries to
      index + 1 when it is too short. */
  method StaticNumericVariables(values: seq<(nat, real)>) returns (vars: seq<Option<real>>)
    ensures forall i :: 0 <= i < |vars| ==> vars[i] == LastValue(values, i)
    ensures forall k :: 0 <= k < |values| ==> values[k].0 < |vars|
    ensures |vars| == 0 || exists k :: 0 <= k < |values| && values[k].0 == |vars| - 1
  {
    vars := [];
    var k := 0;
    while k < |values|
      invariant k <= |values|
      invariant forall i :: 0 <= i < |vars| ==> vars[i] == LastValue(values[..k], i)
      invariant forall j :: 0 <= j < k ==> values[j].0 < |vars|
      invariant |vars| == 0 || exists j :: 0 <= j < k && values[j].0 == |vars| - 1
    {
      var (i, v) := values[k];
      assert values[..k + 1][..k] == values[..k];
      if i >= |vars| {
        forall j | |vars| <= j <= i ensures LastValue(values[..k], j) == None {
        }
        vars := vars + seq(i + 1 - |vars|, _ => None);
      }
      vars := vars[i := Some(v)];
      k := k + 1;
    }
    assert values[..k] == values;
  }

  /** A state as the successor generator produces it. */
  datatype UnpackedState = UnpackedState(fluentAtoms: Bits, derivedAtoms: Bits, numericVariables: seq<Option<real>>)

  /** A packed state: the contents of its three slots. Its index is its
      position in the table and is not part of its identity. */
  datatype PackedState = PackedState(fluentAtoms: seq<nat>, derivedAtoms: seq<nat>, numericVariables: seq<Option<real>>)

  function Pack(s: UnpackedState): PackedState {
    PackedState(SetBits(s.fluentAtoms), SetBits(s.derivedAtoms), s.numericVariables)
  }

  /** Two states pack the same iff they set the same atoms and have the same
      numeric variables. */
  lemma PackSame(s: UnpackedState, t: UnpackedState)
    ensures Pack(s) == Pack(t) <==>
              (forall i: nat :: IsSet(s.fluentAtoms, i) <==> IsSet(t.fluentAtoms, i))
              && (forall i: nat :: IsSet(s.derivedAtoms, i) <==> IsSet(t.derivedAtoms, i))
              && s.numericVariables == t.numericVariables
  {
    if (forall i: nat :: IsSet(s.fluentAtoms, i) <==> IsSet(t.fluentAtoms, i))
       && (forall i: nat :: IsSet(s.derivedAtoms, i) <==> IsSet(t.derivedAtoms, i)) {
      StrictlySortedUnique(SetBits(s.fluentAtoms), SetBits(t.fluentAtoms));
      StrictlySortedUnique(SetBits(s.derivedAtoms), SetBits(t.derivedAtoms));
    }
  }

  /** The position of a packed state in the table. */
  function IndexOf(table: seq<PackedState>, p: PackedState): (r: Option<nat>)
    ensures r.Some? ==> r.value < |table| && table[r.value] == p
    ensures r.None? <==> p !in table
    decreases |table|
  {
    if |table| == 0 then None
    else if table[|table| - 1] == p then Some(|table| - 1)
    else IndexOf(table[..|table| - 1], p)
  }

  /** `register_state`: the index of the packed state, inserting it under
      the number of states so far when it is new. */
  function RegisterState(table: seq<PackedState>, s: UnpackedState): (res: (seq<PackedState>, nat))
    ensures res.1 < |res.0| && res.0[res.1] == Pack(s)
    ensures Pack(s) in table ==> res.0 == table
    ensures Pack(s) !in table ==> res.0 == table + [Pack(s)] && res.1 == |table|
  {
    match IndexOf(table, Pack(s))
    case Some(i) => (table, i)
    case None => (table + [Pack(s)], |table|)
  }

  /** `get_state` after the unpacked state was cleared. */
  function GetState(table: seq<PackedState>, i: nat): UnpackedState
    requires i < |table|
    requires StrictlySorted(table[i].fluentAtoms) && StrictlySorted(table[i].derivedAtoms)
  {
    UnpackedState(FillAtoms(table[i].fluentAtoms, []), FillAtoms(table[i].derivedAtoms, []), table[i].numericVariables)
  }

  /** A registered state is read back with the same atoms and numeric
      variables; and two states get the same index iff they are equal up
      to trailing clear bits. */
  lemma RegisterThenGet(table: seq<PackedState>, s: UnpackedState, t: UnpackedState)
    ensures var (table1, i) := RegisterState(table, s);
            var u := GetState(table1, i);
            (forall a: nat :: IsSet(u.fluentAtoms, a) <==> IsSet(s.fluentAtoms, a))
            && (forall a: nat :: IsSet(u.derivedAtoms, a) <==> IsSet(s.derivedAtoms, a))
            && u.numericVariables == s.numericVariables
    ensures var (table1, i) := RegisterState(table, s);
            (RegisterState(table1, t).1 == i <==> Pack(t) == Pack(s))
  {
    PackUnpack(s.fluentAtoms, []);
    PackUnpack(s.derivedAtoms, []);
  }
}
