/** Masks of layers (quantum/action_layer.c), one bit per layer in the default 16-bit build, and the
    sets of layers they stand for. */
module LayerMasks {

  type Mask = bv16

  /** `(layer_state_t)1 << i`; nothing is left of it past the width. */
  function BitOf(i: nat): Mask
  {
    if i == 0 then 0x0001 else if i == 1 then 0x0002 else if i == 2 then 0x0004 else if i == 3 then 0x0008
    else if i == 4 then 0x0010 else if i == 5 then 0x0020 else if i == 6 then 0x0040 else if i == 7 then 0x0080
    else if i == 8 then 0x0100 else if i == 9 then 0x0200 else if i == 10 then 0x0400 else if i == 11 then 0x0800
    else if i == 12 then 0x1000 else if i == 13 then 0x2000 else if i == 14 then 0x4000 else if i == 15 then 0x8000
    else 0
  }

  // The operators by name, so that proofs need not look into bits.

  function Join(a: Mask, b: Mask): Mask { a | b }

  function Meet(a: Mask, b: Mask): Mask { a & b }

  function Differ(a: Mask, b: Mask): Mask { a ^ b }

  function Without(a: Mask, b: Mask): Mask { a & !b }

  predicate IsOn(m: Mask, i: nat) { Meet(m, BitOf(i)) != 0 }

  function LayersOf(m: Mask): set<nat>
  {
    set i | 0 <= i < 16 && IsOn(m, i)
  }

  lemma JoinAt(a: Mask, b: Mask, m: Mask)
    ensures Meet(Join(a, b), m) == Join(Meet(a, m), Meet(b, m))
  {
  }

  lemma MeetAt(a: Mask, b: Mask, m: Mask)
    ensures Meet(Meet(a, b), m) == Meet(Meet(a, m), Meet(b, m))
  {
  }

  lemma DifferAt(a: Mask, b: Mask, m: Mask)
    ensures Meet(Differ(a, b), m) == Differ(Meet(a, m), Meet(b, m))
  {
  }

  lemma WithoutAt(a: Mask, b: Mask, m: Mask)
    ensures Meet(Without(a, b), m) == Without(Meet(a, m), Meet(b, m))
  {
  }

  /** One bit is off or on. */
  lemma OneBitOf(a: Mask, i: nat)
    requires i < 16
    ensures Meet(a, BitOf(i)) == 0 || Meet(a, BitOf(i)) == BitOf(i)
    ensures BitOf(i) != 0
  {
  }

  lemma Extremes(m: Mask)
    ensures Join(0, 0) == 0 && Join(0, m) == m && Join(m, 0) == m && Join(m, m) == m
    ensures Meet(0, 0) == 0 && Meet(0, m) == 0 && Meet(m, 0) == 0 && Meet(m, m) == m
    ensures Differ(0, 0) == 0 && Differ(0, m) == m && Differ(m, 0) == m && Differ(m, m) == 0
    ensures Without(0, 0) == 0 && Without(0, m) == 0 && Without(m, 0) == m && Without(m, m) == 0
  {
  }

  /** The operators, bit by bit. */
  lemma BitwiseAt(a: Mask, b: Mask, i: nat)
    requires i < 16
    ensures IsOn(Join(a, b), i) <==> IsOn(a, i) || IsOn(b, i)
    ensures IsOn(Meet(a, b), i) <==> IsOn(a, i) && IsOn(b, i)
    ensures IsOn(Differ(a, b), i) <==> IsOn(a, i) != IsOn(b, i)
    ensures IsOn(Without(a, b), i) <==> IsOn(a, i) && !IsOn(b, i)
  {
    hide Join, Meet, Differ, Without, BitOf;
    JoinAt(a, b, BitOf(i));
    MeetAt(a, b, BitOf(i));
    DifferAt(a, b, BitOf(i));
    WithoutAt(a, b, BitOf(i));
    OneBitOf(a, i);
    OneBitOf(b, i);
    Extremes(BitOf(i));
  }

  lemma BitsApart(i: nat, j: nat)
    requires j < 16
    ensures IsOn(BitOf(i), j) <==> i == j
  {
  }

  /** Masks combine as the sets of their layers do. */
  lemma MasksAreSets(a: Mask, b: Mask)
    ensures LayersOf(Join(a, b)) == LayersOf(a) + LayersOf(b)
    ensures LayersOf(Meet(a, b)) == LayersOf(a) * LayersOf(b)
    ensures LayersOf(Differ(a, b)) == (LayersOf(a) - LayersOf(b)) + (LayersOf(b) - LayersOf(a))
    ensures LayersOf(Without(a, b)) == LayersOf(a) - LayersOf(b)
  {
    hide IsOn, Join, Meet, Differ, Without;
    forall i | 0 <= i < 16
      ensures IsOn(Join(a, b), i) <==> IsOn(a, i) || IsOn(b, i)
      ensures IsOn(Meet(a, b), i) <==> IsOn(a, i) && IsOn(b, i)
      ensures IsOn(Differ(a, b), i) <==> IsOn(a, i) != IsOn(b, i)
      ensures IsOn(Without(a, b), i) <==> IsOn(a, i) && !IsOn(b, i)
    {
      BitwiseAt(a, b, i);
    }
  }

  lemma OneBit(i: nat)
    ensures LayersOf(BitOf(i)) == if i < 16 then {i} else {}
  {
    hide IsOn;
    forall j | 0 <= j < 16 ensures IsOn(BitOf(i), j) <==> i == j {
      BitsApart(i, j);
    }
  }

  lemma NoBits()
    ensures LayersOf(0) == {}
  {
  }

  lemma LayersFit(m: Mask)
    ensures forall i :: i in LayersOf(m) ==> i < 16
  {
    hide IsOn;
  }
}
