/** The 8-bit CRC of quantum/crc.c, bit by bit: which changes to a message it notices. */
module Crc {

  const LOOP_POLYNOMIAL: bv8 := 0x31
  const TABLE_POLYNOMIAL: bv8 := 0x07

  function Xor(a: bv8, b: bv8): bv8 { a ^ b }

  function Shifted(crc: bv8): bv8
  {
    var one: bv8 := 1;
    crc << one
  }

  /** Shift one bit out and reduce. */
  function Bit(poly: bv8, crc: bv8): bv8
  {
    if crc & 0x80 != 0 then Xor(Shifted(crc), poly) else Shifted(crc)
  }

  function Bits(poly: bv8, crc: bv8, n: nat): bv8
  {
    if n == 0 then crc else Bit(poly, Bits(poly, crc, n - 1))
  }

  function Step(poly: bv8, crc: bv8, data: bv8): bv8 { Bits(poly, Xor(crc, data), 8) }

  function Checksum(poly: bv8, data: seq<bv8>): bv8
  {
    if data == [] then 0xff else Step(poly, Checksum(poly, data[..|data| - 1]), data[|data| - 1])
  }

  // ---------------------------------------------------------------- what changes are noticed

  /** A polynomial with a constant term, as both of the source's are. */
  predicate Odd(poly: bv8) { poly & 1 == 1 }

  lemma BitLoses(poly: bv8, a: bv8, b: bv8)
    requires Odd(poly) && Bit(poly, a) == Bit(poly, b)
    ensures a == b
  {
    hide Bit, Odd, Xor;
    BitLinear(poly, a, b);
    XorOfEqual(Bit(poly, a), Bit(poly, b));
    XorOfEqual(a, b);
    BitZero(poly, Xor(a, b));
  }

  lemma XorOfEqual(a: bv8, b: bv8)
    ensures Xor(a, b) == 0 <==> a == b
  {
  }

  lemma BitZero(poly: bv8, a: bv8)
    requires Odd(poly) && Bit(poly, a) == 0
    ensures a == 0
  {
  }

  lemma {:induction false} BitsLose(poly: bv8, a: bv8, b: bv8, n: nat)
    requires Odd(poly) && Bits(poly, a, n) == Bits(poly, b, n)
    ensures a == b
  {
    if n > 0 {
      hide Bit, Odd;
      BitLoses(poly, Bits(poly, a, n - 1), Bits(poly, b, n - 1));
      BitsLose(poly, a, b, n - 1);
    }
  }

  /** A step loses nothing, neither of the state nor of the data. */
  lemma StepInjective(poly: bv8, crc: bv8, crc': bv8, data: bv8, data': bv8)
    requires Odd(poly)
    ensures Step(poly, crc, data) == Step(poly, crc', data') <==> Xor(crc, data) == Xor(crc', data')
    ensures Step(poly, crc, data) == Step(poly, crc', data) <==> crc == crc'
    ensures Step(poly, crc, data) == Step(poly, crc, data') <==> data == data'
  {
    hide Bits, Odd, Xor;
    XorCancels(crc, crc', data);
    XorCancels(data, data', crc);
    StepsAgree(poly, Xor(crc, data), Xor(crc', data'));
    StepsAgree(poly, Xor(crc, data), Xor(crc', data));
    StepsAgree(poly, Xor(crc, data), Xor(crc, data'));
  }

  lemma StepsAgree(poly: bv8, a: bv8, b: bv8)
    requires Odd(poly)
    ensures Bits(poly, a, 8) == Bits(poly, b, 8) <==> a == b
  {
    if Bits(poly, a, 8) == Bits(poly, b, 8) {
      BitsLose(poly, a, b, 8);
    }
  }

  lemma XorCancels(a: bv8, b: bv8, c: bv8)
    ensures Xor(a, c) == Xor(b, c) <==> a == b
    ensures Xor(c, a) == Xor(c, b) <==> a == b
  {
  }

  /** A common suffix keeps two messages apart, or together. */
  lemma {:induction false} SuffixKeepsApart(poly: bv8, a: seq<bv8>, b: seq<bv8>, suffix: seq<bv8>)
    requires Odd(poly)
    ensures Checksum(poly, a + suffix) == Checksum(poly, b + suffix) <==> Checksum(poly, a) == Checksum(poly, b)
  {
    if suffix == [] {
      assert a + suffix == a && b + suffix == b;
    } else {
      hide Step, Odd;
      var init, last := suffix[..|suffix| - 1], suffix[|suffix| - 1];
      SuffixKeepsApart(poly, a, b, init);
      CrcSnoc(poly, a + init, last);
      CrcSnoc(poly, b + init, last);
      assert a + suffix == a + init + [last] && b + suffix == b + init + [last];
      StepInjective(poly, Checksum(poly, a + init), Checksum(poly, b + init), last, last);
    }
  }

  lemma CrcSnoc(poly: bv8, a: seq<bv8>, d: bv8)
    ensures Checksum(poly, a + [d]) == Step(poly, Checksum(poly, a), d)
  {
    assert (a + [d])[..|a|] == a;
  }

  /** Changing any one byte of a message of any length changes its CRC. */
  lemma OneByteNoticed(poly: bv8, data: seq<bv8>, k: nat, value: bv8)
    requires Odd(poly) && k < |data|
    ensures Checksum(poly, data[k := value]) == Checksum(poly, data) <==> value == data[k]
  {
    hide Checksum, Step, Odd;
    var prefix, suffix := data[..k], data[k + 1..];
    CrcSnoc(poly, prefix, data[k]);
    CrcSnoc(poly, prefix, value);
    assert data == prefix + [data[k]] + suffix && data[k := value] == prefix + [value] + suffix;
    SuffixKeepsApart(poly, prefix + [data[k]], prefix + [value], suffix);
    StepInjective(poly, Checksum(poly, prefix), Checksum(poly, prefix), data[k], value);
  }

  // ---------------------------------------------------------------- bursts across two bytes

  lemma XorGroups(a: bv8, b: bv8, c: bv8)
    ensures Xor(Xor(a, b), c) == Xor(a, Xor(b, c)) == Xor(Xor(a, c), b)
    ensures Xor(Xor(a, c), Xor(b, c)) == Xor(a, b)
  {
    hide Xor;
    XorAssociates(a, b, c);
    XorAssociates(a, c, b);
    XorCommutes(b, c);
    XorAssociates(a, c, Xor(b, c));
    XorAssociates(c, c, b);
    XorOfEqual(c, c);
    XorCommutes(b, 0);
  }

  lemma XorAssociates(a: bv8, b: bv8, c: bv8)
    ensures Xor(Xor(a, b), c) == Xor(a, Xor(b, c))
  {
  }

  lemma XorCommutes(a: bv8, b: bv8)
    ensures Xor(a, b) == Xor(b, a) && Xor(a, 0) == a
  {
  }

  lemma ShiftLinear(a: bv8, b: bv8)
    ensures Shifted(Xor(a, b)) == Xor(Shifted(a), Shifted(b))
    ensures Xor(a, b) & 0x80 != 0 <==> ((a & 0x80 != 0) != (b & 0x80 != 0))
  {
  }

  lemma BitLinear(poly: bv8, a: bv8, b: bv8)
    ensures Bit(poly, Xor(a, b)) == Xor(Bit(poly, a), Bit(poly, b))
  {
    hide Xor, Shifted;
    ShiftLinear(a, b);
    XorGroups(Shifted(a), Shifted(b), poly);
  }

  lemma {:induction false} BitsLinear(poly: bv8, a: bv8, b: bv8, n: nat)
    ensures Bits(poly, Xor(a, b), n) == Xor(Bits(poly, a, n), Bits(poly, b, n))
  {
    if n > 0 {
      hide Bit, Xor;
      BitsLinear(poly, a, b, n - 1);
      BitLinear(poly, Bits(poly, a, n - 1), Bits(poly, b, n - 1));
    }
  }

  /** An error in two neighbouring bytes whose changed bits lie within eight consecutive ones, the most
      significant bit of a byte being sent first. */
  predicate Burst(first: bv8, second: bv8)
  {
    || first == 0 || second == 0
    || (first & 0xfe == 0 && second & 0x01 == 0) || (first & 0xfc == 0 && second & 0x03 == 0)
    || (first & 0xf8 == 0 && second & 0x07 == 0) || (first & 0xf0 == 0 && second & 0x0f == 0)
    || (first & 0xe0 == 0 && second & 0x1f == 0) || (first & 0xc0 == 0 && second & 0x3f == 0)
    || (first & 0x80 == 0 && second & 0x7f == 0)
  }

  function EightBits(poly: bv8, crc: bv8): bv8
  {
    Bit(poly, Bit(poly, Bit(poly, Bit(poly, Bit(poly, Bit(poly, Bit(poly, Bit(poly, crc))))))))
  }

  lemma EightAreBits(poly: bv8, crc: bv8)
    ensures Bits(poly, crc, 8) == EightBits(poly, crc)
  {
    hide Bit;
    assert Bits(poly, crc, 1) == Bit(poly, crc);
    var two := Bit(poly, Bit(poly, crc));
    assert Bits(poly, crc, 2) == two;
    assert Bits(poly, crc, 3) == Bit(poly, two);
    var four := Bit(poly, Bit(poly, two));
    assert Bits(poly, crc, 4) == four;
    assert Bits(poly, crc, 5) == Bit(poly, four);
    assert Bits(poly, crc, 6) == Bit(poly, Bit(poly, four));
    assert Bits(poly, crc, 7) == Bit(poly, Bit(poly, Bit(poly, four)));
  }

  lemma BurstNotCancelled(poly: bv8, first: bv8, second: bv8)
    requires Odd(poly) && Burst(first, second) && EightBits(poly, first) == second
    ensures first == 0 && second == 0
  {
  }

  /** Any burst of up to eight bits is noticed, also one across a byte boundary. */
  lemma BurstNoticed(poly: bv8, prefix: seq<bv8>, x: bv8, y: bv8, suffix: seq<bv8>, first: bv8, second: bv8)
    requires Odd(poly) && Burst(first, second)
    ensures Checksum(poly, prefix + [Xor(x, first), Xor(y, second)] + suffix) ==
      Checksum(poly, prefix + [x, y] + suffix)
      <==> first == 0 && second == 0
  {
    hide Checksum, Bits, Burst, Odd, EightBits, Xor;
    var c := Checksum(poly, prefix);
    var s, e := Step(poly, c, x), EightBits(poly, first);
    TwoSteps(poly, prefix, x, y);
    TwoSteps(poly, prefix, Xor(x, first), Xor(y, second));
    SuffixKeepsApart(poly, prefix + [Xor(x, first), Xor(y, second)], prefix + [x, y], suffix);
    XorGroups(c, x, first);
    BitsLinear(poly, Xor(c, x), first, 8);
    EightAreBits(poly, first);
    assert Step(poly, c, Xor(x, first)) == Xor(s, e);
    StepInjective(poly, Xor(s, e), s, Xor(y, second), y);
    Cancels(s, e, y, second);
    NoBurst(poly);
    if e == second {
      BurstNotCancelled(poly, first, second);
    }
  }

  lemma NoBurst(poly: bv8)
    ensures EightBits(poly, 0) == 0
  {
  }

  lemma TwoSteps(poly: bv8, prefix: seq<bv8>, x: bv8, y: bv8)
    ensures Checksum(poly, prefix + [x, y]) == Step(poly, Step(poly, Checksum(poly, prefix), x), y)
  {
    hide Checksum, Step;
    assert prefix + [x, y] == prefix + [x] + [y];
    CrcSnoc(poly, prefix, x);
    CrcSnoc(poly, prefix + [x], y);
  }

  lemma Cancels(s: bv8, e: bv8, y: bv8, second: bv8)
    ensures Xor(Xor(s, e), Xor(y, second)) == Xor(s, y) <==> e == second
  {
  }

  // ---------------------------------------------------------------- the loops

  /** The bit-serial loop. */
  method Crc8(data: seq<bv8>) returns (crc: bv8)
    ensures crc == Checksum(LOOP_POLYNOMIAL, data)
  {
    crc := 0xff;
    assert data[..|data|] == data;
    for i := 0 to |data|
      invariant crc == Checksum(LOOP_POLYNOMIAL, data[..i])
    {
      ghost var start := Xor(crc, data[i]);
      crc := crc ^ data[i];
      for j := 0 to 8
        invariant crc == Bits(LOOP_POLYNOMIAL, start, j)
      {
        if crc & 0x80 != 0 {
          crc := Shifted(crc) ^ 0x31;
        } else {
          crc := Shifted(crc);
        }
      }
      assert data[..i + 1] == data[..i] + [data[i]];
      CrcSnoc(LOOP_POLYNOMIAL, data[..i], data[i]);
    }
  }

  /** The low byte of a register that is wider than the code. */
  function Low(crc: bv32): bv8 { (crc & 0xff) as bv8 }

  function WideShifted(crc: bv32): bv32
  {
    var one: bv32 := 1;
    crc << one
  }

  lemma WideBit(crc: bv32)
    ensures crc & 0x80 != 0 <==> Low(crc) & 0x80 != 0
    ensures Low(WideShifted(crc) ^ 0x31) == Xor(Shifted(Low(crc)), 0x31) && Low(WideShifted(crc)) == Shifted(Low(crc))
  {
  }

  lemma WideXor(crc: bv32, d: bv8)
    ensures Low(crc ^ (d as bv32)) == Xor(Low(crc), d)
  {
  }

  /** The same loop on a register of 32 bits, whose upper bits are never cleared: the returned low byte
      is the same. */
  method Crc8Wide(data: seq<bv8>) returns (r: bv8)
    ensures r == Checksum(LOOP_POLYNOMIAL, data)
  {
    hide Low, WideShifted, Xor, Shifted;
    var crc: bv32 := 0xff;
    LowStart();
    assert data[..|data|] == data;
    for i := 0 to |data|
      invariant Low(crc) == Checksum(LOOP_POLYNOMIAL, data[..i])
    {
      ghost var start := Xor(Low(crc), data[i]);
      WideXor(crc, data[i]);
      crc := crc ^ (data[i] as bv32);
      for j := 0 to 8
        invariant Low(crc) == Bits(LOOP_POLYNOMIAL, start, j)
      {
        WideBit(crc);
        if crc & 0x80 != 0 {
          crc := WideShifted(crc) ^ 0x31;
        } else {
          crc := WideShifted(crc);
        }
      }
      assert data[..i + 1] == data[..i] + [data[i]];
      CrcSnoc(LOOP_POLYNOMIAL, data[..i], data[i]);
    }
    return Low(crc);
  }

  lemma LowStart()
    ensures Low(0xff) == 0xff
  {
  }
}
