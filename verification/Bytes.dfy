/** Numbers spelled in bytes, in either order. */
module Bytes {
  import opened Keyboard
  import opened Arithmetic

  type byte = uint8

  function Pow256(n: nat): (p: nat)
    ensures p > 0
  {
    if n == 0 then 1 else 256 * Pow256(n - 1)
  }

  /** The byte of a value that has `n` bytes below it. */
  function ByteAt(value: nat, n: nat): byte { (value / Pow256(n)) % 256 }

  lemma PowersOf256(value: nat, n: nat)
    ensures value / Pow256(0) == value
    ensures value / Pow256(n + 1) == value / Pow256(n) / 256
  {
    DivDiv(value, Pow256(n), 256);
  }

  /** The value that `size` bytes from `addr` spell, most significant first. */
  function ValueIn(mem: seq<byte>, addr: nat, size: nat): nat
    requires addr + size <= |mem|
  {
    if size == 0 then 0 else 256 * ValueIn(mem, addr, size - 1) + mem[addr + size - 1]
  }

  lemma ModOf256(u: nat, p: nat)
    requires p > 0
    ensures 256 * p > 0 && u % (256 * p) == 256 * ((u / 256) % p) + u % 256
  {
    var v := u / 256;
    var q, s, t := v / p, v % p, u % 256;
    assert v == p * q + s;
    assert u == 256 * (p * q + s) + t;
    MulAssoc(q, 256, p);
    assert u == q * (256 * p) + (256 * s + t);
    DivMod(q, 256 * p, 256 * s + t);
  }

  /** The bytes from `addr` are those of the value, most significant first. */
  predicate Spelled(mem: seq<byte>, addr: nat, value: nat, size: nat)
  {
    && addr + size <= |mem|
    && forall a :: addr <= a < addr + size ==> mem[a] == ByteAt(value, addr + size - 1 - a)
  }

  lemma {:induction false} SpelledValue(mem: seq<byte>, addr: nat, value: nat, size: nat, n: nat)
    requires n <= size && Spelled(mem, addr, value, size)
    ensures ValueIn(mem, addr, n) == (value / Pow256(size - n)) % Pow256(n)
  {
    hide ByteAt;
    if n > 0 {
      SpelledValue(mem, addr, value, size, n - 1);
      var u := value / Pow256(size - n);
      PowersOf256(value, size - n);
      ModOf256(u, Pow256(n - 1));
      assert mem[addr + n - 1] == ByteAt(value, size - n);
      assert ByteAt(value, size - n) == u % 256 by { ByteOf(value, size - n); }
    }
  }

  /** The bytes of a value laid out big-endian so that they end before `end`. */
  function BytesOf(value: nat, end: nat): nat -> byte
  {
    a => if a < end then ByteAt(value, end - 1 - a) else 0
  }

  lemma ByteOf(value: nat, n: nat)
    ensures ByteAt(value, n) == value / Pow256(n) % 256
  {
  }

  lemma ValueBelow(mem: seq<byte>, addr: nat, size: nat)
    requires addr + size <= |mem|
    ensures ValueIn(mem, addr, size) < Pow256(size)
  {
    if size > 0 {
      ValueBelow(mem, addr, size - 1);
    }
  }

  function LittleValue(bytes: seq<byte>): nat
  {
    if bytes == [] then 0 else bytes[0] + 256 * LittleValue(bytes[1..])
  }

  function LittleEndian(value: nat, size: nat): (r: seq<byte>)
    ensures |r| == size
  {
    if size == 0 then [] else [value % 256] + LittleEndian(value / 256, size - 1)
  }

  lemma {:induction false} LittleRoundTrip(bytes: seq<byte>)
    ensures LittleEndian(LittleValue(bytes), |bytes|) == bytes
  {
    if bytes != [] {
      LittleRoundTrip(bytes[1..]);
    }
  }
}
