/** The I2C EEPROM driver (drivers/eeprom/eeprom_i2c.c) and its update forms
    (drivers/eeprom/eeprom_driver.c), over a chip that wraps inside a page and may keep part of the
    memory location, the bank, in its I2C address (drivers/eeprom/eeprom_i2c.h). */
module EepromI2c {
  import opened Keyboard
  import opened Arithmetic
  import opened Bytes
  import opened PageDevices

  function Overwrite(old': byte, new': byte): byte { new' }

  // ---------------------------------------------------------------- the copy counter

  /** The 8-bit counter of the copy loop after a number of rounds. */
  function Counter(rounds: nat): uint8 { rounds % 256 }

  /** The loop over a bite ends exactly when the bite is shorter than 256 bytes: its counter never
      reaches more. */
  lemma CopyEndsIff(length: nat)
    ensures (exists rounds :: Counter(rounds) >= length) <==> length < 256
  {
    if length < 256 {
      assert Counter(length) >= length;
    }
  }

  /** A whole page of 256 bytes: the counter comes back to 0 before it gets there. */
  lemma WholeLargePage()
    ensures Bite(256, 0, 256) == 256 && forall rounds :: Counter(rounds) < 256
    ensures Counter(255) == 255 && Counter(256) == 0
  {
  }

  /** How much of a block goes into the page of its first byte. */
  function Bite(page: nat, addr: nat, len: nat): (n: nat)
    requires page > 0
    ensures n <= len && addr % page + n <= page && (len > 0 ==> n > 0)
  {
    if page - addr % page > len then len else page - addr % page
  }

  /** Every bite of a block is short enough for the counter. */
  predicate BitesEnd(page: nat, addr: nat, len: nat)
    requires page > 0
    decreases len
  {
    len > 0 ==>
      var n := Bite(page, addr, len);
      n < 256 && BitesEnd(page, addr + n, len - n)
  }

  /** So it is on chips with smaller pages, and for short blocks on any chip. */
  lemma {:induction false} SmallBitesEnd(page: nat, addr: nat, len: nat)
    requires page > 0 && (page < 256 || len < 256)
    ensures BitesEnd(page, addr, len)
    decreases len
  {
    if len > 0 {
      var n := Bite(page, addr, len);
      assert n < 256;
      SmallBitesEnd(page, addr + n, len - n);
    }
  }

  // ---------------------------------------------------------------- banks

  /** The part of a location that goes into the address bytes. */
  function Low(size: nat, addr: nat): (r: nat)
    requires size > 0
    ensures r < size
  {
    addr % size
  }

  /** The bank of a location begins here. */
  function BankStart(size: nat, addr: nat): nat
    requires size > 0
  {
    addr / size * size
  }

  /** Does a block stay in the bank of its first byte? */
  predicate OneBank(size: nat, addr: nat, len: nat)
    requires size > 0
  {
    Low(size, addr) + len <= size
  }

  function Stored(mem: seq<byte>, at: nat, value: byte): (r: seq<byte>)
    ensures |r| == |mem|
  {
    if at < |mem| then mem[at := value] else mem
  }

  /** The bytes as the driver places them: all in one bank, which begins at `base`, each at the low
      part of its own location. */
  function Scattered(mem: seq<byte>, base: nat, size: nat, addr: nat, data: seq<byte>): (r: seq<byte>)
    requires size > 0
    ensures |r| == |mem|
    decreases |data|
  {
    if data == [] then mem
    else Scattered(Stored(mem, base + Low(size, addr), data[0]), base, size, addr + 1, data[1..])
  }

  lemma {:induction false} ScatterConcat(mem: seq<byte>, base: nat, size: nat, addr: nat, a: seq<byte>, b: seq<byte>)
    requires size > 0
    ensures Scattered(mem, base, size, addr, a + b)
         == Scattered(Scattered(mem, base, size, addr, a), base, size, addr + |a|, b)
    decreases |a|
  {
    hide Stored, Low;
    if a == [] {
      assert a + b == b;
    } else {
      assert (a + b)[1..] == a[1..] + b && (a + b)[0] == a[0];
      ScatterConcat(Stored(mem, base + Low(size, addr), a[0]), base, size, addr + 1, a[1..], b);
      assert addr + 1 + |a[1..]| == addr + |a|;
    }
  }

  /** A stretch that does not leave its bank is laid out flat. */
  lemma {:induction false} ScatterIsFlat(mem: seq<byte>, base: nat, size: nat, addr: nat, data: seq<byte>)
    requires size > 0 && OneBank(size, addr, |data|) && base + Low(size, addr) + |data| <= |mem|
    ensures Scattered(mem, base, size, addr, data) == Flat(mem, base + Low(size, addr), data, Overwrite)
    decreases |data|
  {
    hide Low, Flat;
    if data == [] {
      FlatNothing(mem, base + Low(size, addr), data, Overwrite);
    } else {
      var at := base + Low(size, addr);
      FlatStep(mem, at, data, Overwrite);
      if |data| > 1 {
        Within(addr, 1, size);
        ScatterIsFlat(Stored(mem, at, data[0]), base, size, addr + 1, data[1..]);
      } else {
        assert data[1..] == [];
        FlatNothing(Stored(mem, at, data[0]), at + 1, data[1..], Overwrite);
      }
    }
  }

  lemma Within(addr: nat, k: nat, size: nat)
    requires size > 0 && Low(size, addr) + k < size
    ensures Low(size, addr + k) == Low(size, addr) + k
  {
    var q, r := addr / size, addr % size;
    assert addr == size * q + r;
    assert addr + k == q * size + (r + k);
    DivMod(q, size, r + k);
  }

  lemma {:induction false} OtherBanksKept(mem: seq<byte>, base: nat, size: nat, addr: nat, data: seq<byte>, a: nat)
    requires size > 0 && a < |mem| && !(base <= a < base + size)
    ensures Scattered(mem, base, size, addr, data)[a] == mem[a]
    decreases |data|
  {
    if data != [] {
      hide Low;
      OtherBanksKept(Stored(mem, base + Low(size, addr), data[0]), base, size, addr + 1, data[1..], a);
    }
  }

  lemma BankAndLow(size: nat, addr: nat)
    requires size > 0
    ensures addr == BankStart(size, addr) + Low(size, addr)
  {
    assert addr == addr / size * size + addr % size;
  }

  /** What the driver makes of a block. */
  function Written(mem: seq<byte>, size: nat, addr: nat, data: seq<byte>): (r: seq<byte>)
    requires size > 0
    ensures |r| == |mem|
  {
    Scattered(mem, BankStart(size, addr), size, addr, data)
  }

  lemma WrittenIsFlat(mem: seq<byte>, size: nat, addr: nat, data: seq<byte>)
    requires size > 0 && addr + |data| <= |mem| && OneBank(size, addr, |data|)
    ensures Written(mem, size, addr, data) == Flat(mem, addr, data, Overwrite)
  {
    hide Scattered, Flat, Low, BankStart;
    BankAndLow(size, addr);
    ScatterIsFlat(mem, BankStart(size, addr), size, addr, data);
  }

  /** What the driver writes is one flat overwrite, whatever the memory and the data, exactly when the
      block stays in one bank. */
  lemma FlatIffOneBank(size: nat, addr: nat, len: nat, length: nat)
    requires size > 0 && addr + len <= length
    ensures (forall mem: seq<byte>, data: seq<byte> :: |mem| == length && |data| == len ==>
              Written(mem, size, addr, data) == Flat(mem, addr, data, Overwrite))
      <==> OneBank(size, addr, len)
  {
    hide Flat, Low, Written, OneBank;
    if OneBank(size, addr, len) {
      forall mem: seq<byte>, data: seq<byte> | |mem| == length && |data| == len
        ensures Written(mem, size, addr, data) == Flat(mem, addr, data, Overwrite)
      {
        WrittenIsFlat(mem, size, addr, data);
      }
    } else {
      LostBeyondTheBank(size, addr, seq<byte>(length, _ => 0), seq<byte>(len, _ => 1));
    }
  }

  /** The first byte past the bank does not get there. */
  lemma LostBeyondTheBank(size: nat, addr: nat, mem: seq<byte>, data: seq<byte>)
    requires size > 0 && addr + |data| <= |mem| && !OneBank(size, addr, |data|)
    requires (forall i :: 0 <= i < |mem| ==> mem[i] == 0) && (forall i :: 0 <= i < |data| ==> data[i] == 1)
    ensures Written(mem, size, addr, data) != Flat(mem, addr, data, Overwrite)
  {
    hide Scattered, Low, BankStart;
    BankAndLow(size, addr);
    var base := BankStart(size, addr);
    OtherBanksKept(mem, base, size, addr, data, base + size);
    assert Flat(mem, addr, data, Overwrite)[base + size] == 1;
  }

  /** Two bytes at the end of the first 64 KiB bank of the documented large chip: the second byte
      overwrites the first byte of that bank and is missing from the next. */
  lemma WriteAcrossBanks(mem: seq<byte>)
    requires |mem| == 0x4_0000
    ensures Written(mem, 0x1_0000, 0xFFFF, [7, 9]) == mem[0xFFFF := 7][0 := 9]
  {
    var m := mem[0xFFFF := 7];
    assert BankStart(0x1_0000, 0xFFFF) == 0 && Low(0x1_0000, 0xFFFF) == 0xFFFF && Low(0x1_0000, 0x1_0000) == 0;
    hide Low, BankStart;
    var data: seq<byte> := [7, 9];
    assert data[1..] == [9] && data[1..][1..] == [];
    assert Scattered(mem, 0, 0x1_0000, 0xFFFF, data) == Scattered(m, 0, 0x1_0000, 0x1_0000, [9]);
    assert Scattered(m, 0, 0x1_0000, 0x1_0000, [9]) == Scattered(m[0 := 9], 0, 0x1_0000, 0x1_0001, []) == m[0 := 9];
  }

  // ---------------------------------------------------------------- the driver

  class Eeprom {
    const mem: array<byte>
    const page: nat
    const addressSize: nat
    /** How many banks the I2C address tells apart; 1 if the location is not part of it. */
    const banks: nat

    /** Every location has a bank and address bytes; pages do not straddle banks. */
    predicate Valid()
    {
      && page > 0 && banks > 0 && mem.Length <= banks * Pow256(addressSize)
      && (banks > 1 ==> Pow256(addressSize) % page == 0)
    }

    function BankSize(): (n: nat)
      ensures n > 0
    {
      Pow256(addressSize)
    }

    constructor (size: nat, page: nat, addressSize: nat, banks: nat)
      requires page > 0 && banks > 0 && size <= banks * Pow256(addressSize)
      requires banks > 1 ==> Pow256(addressSize) % page == 0
      ensures Valid() && fresh(mem) && mem.Length == size
      ensures this.page == page && this.addressSize == addressSize && this.banks == banks
    {
      this.page, this.addressSize, this.banks := page, addressSize, banks;
      mem := new byte[size](_ => 0xFF);
    }

    /** `fill_target_address`: the low part of the location, big-endian. */
    method FillTargetAddress(buffer: array<byte>, addr: nat)
      requires buffer.Length >= addressSize
      modifies buffer
      ensures ValueIn(buffer[..], 0, addressSize) == Low(BankSize(), addr)
      ensures forall i :: addressSize <= i < buffer.Length ==> buffer[i] == old(buffer[i])
    {
      hide Pow256, ByteAt, ValueIn;
      var p := addr;
      assert p == addr / Pow256(0) by { PowersOf256(addr, 0); }
      for i := 0 to addressSize
        invariant p == addr / Pow256(i)
        invariant forall k :: addressSize - i <= k < addressSize ==> buffer[k] == ByteAt(addr, addressSize - 1 - k)
        invariant forall k :: addressSize <= k < buffer.Length ==> buffer[k] == old(buffer[k])
      {
        ByteOf(addr, i);
        PowersOf256(addr, i);
        buffer[addressSize - 1 - i] := p % 256;
        p := p / 256;
      }
      SpelledValue(buffer[..], 0, addr, addressSize, addressSize);
      PowersOf256(addr, 0);
    }

    /** `EXTERNAL_EEPROM_I2C_ADDRESS`, of which only the bank matters. */
    function BankOf(addr: nat): (b: nat)
      requires banks > 0
    {
      addr / BankSize() % banks
    }

    /** The device's side of `i2c_transmit`: address bytes, then data that wraps inside the page. */
    method Transmit(bank: nat, packet: seq<byte>)
      requires page > 0 && addressSize <= |packet|
      modifies mem
      ensures mem[..] == WrapWrite(old(mem[..]), page, bank * BankSize() + ValueIn(packet, 0, addressSize),
                                   packet[addressSize..], Overwrite)
    {
      hide Pow256;
      var low := DecodeFrom(packet, 0, addressSize);
      var addr := bank * BankSize() + low;
      ghost var first := addr;
      var i := addressSize;
      ghost var start := mem[..];
      while i < |packet| && 0 <= addr < mem.Length
        invariant addressSize <= i <= |packet|
        invariant WrapWrite(start, page, first, packet[addressSize..], Overwrite)
               == WrapWrite(mem[..], page, addr, packet[i..], Overwrite)
        decreases |packet| - i
      {
        assert packet[i..][1..] == packet[i + 1..];
        ghost var now := mem[..];
        mem[addr] := packet[i];
        assert mem[..] == now[addr := packet[i]];
        addr, i := NextInPage(page, addr), i + 1;
      }
    }

    /** The copy loop, with its 8-bit counter. */
    method CopyBite(packet: array<byte>, buf: seq<byte>, from: nat, length: nat)
      requires length < 256 && from + length <= |buf| && addressSize + length <= packet.Length
      modifies packet
      ensures packet[..addressSize] == old(packet[..addressSize])
      ensures packet[addressSize..addressSize + length] == buf[from..from + length]
    {
      hide Pow256;
      var i: uint8 := 0;
      while i < length
        invariant i <= length && packet[..addressSize] == old(packet[..addressSize])
        invariant packet[addressSize..addressSize + i] == buf[from..from + i]
        decreases length - i
      {
        packet[addressSize + i] := buf[from + i];
        assert packet[addressSize..addressSize + i + 1] == packet[addressSize..addressSize + i] + [buf[from + i]];
        assert buf[from..from + i + 1] == buf[from..from + i] + [buf[from + i]];
        i := (i + 1) % 256;
      }
    }

    /** One page of `eeprom_write_block`: packed with the low part of its own location, and sent to the
        bank of the block's first byte. */
    method SendBite(packet: array<byte>, bank: nat, target: nat, buf: seq<byte>, from: nat, length: nat)
      requires page > 0 && packet.Length == addressSize + page && packet != mem && length < 256
      requires from + length <= |buf| && bank * BankSize() + Low(BankSize(), target) + length <= mem.Length
      requires (bank * BankSize() + Low(BankSize(), target)) % page + length <= page
      modifies mem, packet
      ensures mem[..] == Flat(old(mem[..]), bank * BankSize() + Low(BankSize(), target), buf[from..from + length],
        Overwrite)
    {
      hide WrapWrite, Flat, Pow256, ValueIn, NextInPage;
      assert length <= page;
      FillTargetAddress(packet, target);
      ghost var head := packet[..addressSize];
      assert ValueIn(head, 0, addressSize) == Low(BankSize(), target) by { ValuePrefix(packet[..], addressSize); }
      CopyBite(packet, buf, from, length);
      var sent := packet[..addressSize + length];
      assert sent[addressSize..] == packet[addressSize..addressSize + length];
      assert sent[..addressSize] == head;
      ValuePrefix(sent, addressSize);
      WrapIsFlat(mem[..], page, bank * BankSize() + Low(BankSize(), target), buf[from..from + length], Overwrite);
      Transmit(bank, sent);
    }

    /** `eeprom_write_block`, for every location and length whose bites the counter can copy: no page
        wraps, and each byte goes to its own low address in the bank of the first. */
    method WriteBlock(buf: seq<byte>, addr: nat)
      requires Valid() && addr + |buf| <= mem.Length && BitesEnd(page, addr, |buf|)
      modifies mem
      ensures mem[..] == Written(old(mem[..]), BankSize(), addr, buf)
    {
      hide Flat, Pow256, Scattered, Low, BankStart, BitesEnd;
      var packet := new byte[addressSize + page](_ => 0);
      var readBuf, target, len := 0, addr, |buf|;
      ghost var start, base, size := mem[..], BankStart(BankSize(), addr), BankSize();
      NothingScattered(start, base, size, addr, buf[..0]);
      while len > 0
        invariant 0 <= readBuf && 0 <= len && readBuf + len == |buf| && target == addr + readBuf
        invariant BitesEnd(page, target, len)
        invariant mem[..] == Scattered(start, base, size, addr, buf[..readBuf])
      {
        var length := Bite(page, target, len);
        NextBite(page, target, len);
        BiteInBank(this, addr, readBuf, length);
        ScatterBite(start, base, size, addr, buf, readBuf, length);
        SendBite(packet, BankOf(addr), target, buf, readBuf, length);
        readBuf, target, len := readBuf + length, target + length, len - length;
      }
      assert buf[..|buf|] == buf;
    }

    /** `eeprom_driver_erase`, for the byte count that is configured: whole pages are erased, the last
        one too if the count ends inside it, and nothing else. */
    method Erase(byteCount: nat)
      requires Valid() && WholePages(byteCount, page) <= mem.Length && (byteCount > 0 ==> page < 256)
      modifies mem
      ensures forall i :: 0 <= i < WholePages(byteCount, page) ==> mem[i] == 0
      ensures forall i :: WholePages(byteCount, page) <= i < mem.Length ==> mem[i] == old(mem[i])
    {
      hide Pow256, Written, Low, BankStart, WholePages;
      var buf := seq<byte>(page, _ => 0);
      var addr := 0;
      PagesCover(byteCount, page);
      while addr < byteCount
        invariant addr % page == 0 && addr <= WholePages(byteCount, page)
        invariant forall i :: 0 <= i < addr ==> mem[i] == 0
        invariant forall i :: addr <= i < mem.Length ==> mem[i] == old(mem[i])
        decreases WholePages(byteCount, page) - addr
      {
        NextPageFits(addr, byteCount, page);
        SmallBitesEnd(page, addr, page);
        BiteInBank(this, addr, 0, page);
        WrittenIsFlat(mem[..], BankSize(), addr, buf);
        WriteBlock(buf, addr);
        addr := addr + page;
      }
      LastPage(addr, byteCount, page);
    }

    /** `eeprom_read_block`; the chip's sequential read goes on through pages and banks. */
    function ReadBlock(addr: nat, len: nat): seq<byte>
      requires addr + len <= mem.Length
      reads mem
    {
      mem[addr..addr + len]
    }

    /** `eeprom_update_block`: nothing is written if nothing would change; in one bank the memory is
        the same as after writing. */
    method UpdateBlock(buf: seq<byte>, addr: nat)
      requires Valid() && addr + |buf| <= mem.Length && BitesEnd(page, addr, |buf|)
      modifies mem
      ensures mem[..] == if old(ReadBlock(addr, |buf|)) == buf then old(mem[..])
                         else Written(old(mem[..]), BankSize(), addr, buf)
      ensures OneBank(BankSize(), addr, |buf|) ==> mem[..] == Flat(old(mem[..]), addr, buf, Overwrite)
    {
      hide Written, Low, BankStart, Pow256, Flat;
      if OneBank(BankSize(), addr, |buf|) {
        WrittenIsFlat(mem[..], BankSize(), addr, buf);
      }
      if buf != ReadBlock(addr, |buf|) {
        WriteBlock(buf, addr);
      } else {
        FlatSame(mem[..], addr, buf);
      }
    }

    /** `eeprom_update_byte`, `eeprom_update_word` and `eeprom_update_dword`: the value is compared as a
        little-endian number of `size` bytes. */
    method UpdateValue(addr: nat, value: nat, size: nat)
      requires Valid() && addr + size <= mem.Length && value < Pow256(size) && size <= 4
      modifies mem
      ensures mem[..] == if LittleValue(old(ReadBlock(addr, size))) == value then old(mem[..])
                         else Written(old(mem[..]), BankSize(), addr, LittleEndian(value, size))
      ensures OneBank(BankSize(), addr, size) ==>
        mem[..] == Flat(old(mem[..]), addr, LittleEndian(value, size), Overwrite)
    {
      hide Pow256, Flat, LittleEndian, LittleValue, Written, Low, BankStart;
      var orig := LittleValue(ReadBlock(addr, size));
      if orig != value {
        SmallBitesEnd(page, addr, size);
        if OneBank(BankSize(), addr, size) {
          WrittenIsFlat(mem[..], BankSize(), addr, LittleEndian(value, size));
        }
        WriteBlock(LittleEndian(value, size), addr);
      } else {
        LittleRoundTrip(ReadBlock(addr, size));
        FlatSame(mem[..], addr, ReadBlock(addr, size));
      }
    }
  }

  // ---------------------------------------------------------------- bites

  lemma NothingScattered(mem: seq<byte>, base: nat, size: nat, addr: nat, none: seq<byte>)
    requires size > 0 && none == []
    ensures Scattered(mem, base, size, addr, none) == mem
  {
  }

  lemma NextBite(page: nat, addr: nat, len: nat)
    requires page > 0 && len > 0 && BitesEnd(page, addr, len)
    ensures var n := Bite(page, addr, len); 0 < n < 256 && BitesEnd(page, addr + n, len - n)
  {
  }

  /** One bite more of a block. */
  lemma ScatterBite(mem: seq<byte>, base: nat, size: nat, addr: nat, buf: seq<byte>, n: nat, length: nat)
    requires size > 0 && n + length <= |buf|
    requires OneBank(size, addr + n, length) && base + Low(size, addr + n) + length <= |mem|
    ensures Scattered(mem, base, size, addr, buf[..n + length])
         == Flat(Scattered(mem, base, size, addr, buf[..n]), base + Low(size, addr + n), buf[n..n + length], Overwrite)
  {
    hide Scattered, Flat;
    assert buf[..n] + buf[n..n + length] == buf[..n + length];
    ScatterConcat(mem, base, size, addr, buf[..n], buf[n..n + length]);
    ScatterIsFlat(Scattered(mem, base, size, addr, buf[..n]), base, size, addr + n, buf[n..n + length]);
  }

  /** A bite stays in its page and in its bank. */
  lemma BiteInBank(e: Eeprom, addr: nat, offset: nat, length: nat)
    requires e.Valid() && addr + offset + length <= e.mem.Length && length > 0
    requires (addr + offset) % e.page + length <= e.page
    ensures var size := e.BankSize();
      var base, low := BankStart(size, addr), Low(size, addr + offset);
      && e.BankOf(addr) * size == base && OneBank(size, addr + offset, length)
      && base + low + length <= e.mem.Length && (base + low) % e.page + length <= e.page
  {
    hide Pow256;
    var size, page, t := e.BankSize(), e.page, addr + offset;
    var q, low, base := t / size, t % size, BankStart(size, addr);
    BankBelow(addr, e.banks, size, e.mem.Length);
    BankBelow(t, e.banks, size, e.mem.Length);
    if e.banks == 1 {
      assert addr / size == 0 && q == 0;
      assert base == 0 && low == t;
    } else {
      MultipleOf(q, size, page, low);
      MultipleOf(addr / size, size, page, low);
      assert t == q * size + low;
      PageEnds(low, length, size, page);
      BankOrder(addr, t, size);
    }
  }

  lemma BankBelow(addr: nat, banks: nat, size: nat, length: nat)
    requires size > 0 && banks > 0 && addr < length <= banks * size
    ensures addr / size < banks && addr / size % banks == addr / size && addr == addr / size * size + addr % size
  {
    var q := addr / size;
    assert addr == q * size + addr % size;
    if q >= banks {
      NextMultiple(banks - 1, q, size);
      assert false;
    }
    DivMod(0, banks, q);
  }

  /** Whole banks do not change the offset in a page. */
  lemma MultipleOf(q: nat, size: nat, page: nat, low: nat)
    requires page > 0 && size % page == 0
    ensures (q * size + low) % page == low % page
  {
    var m, a, r := size / page, low / page, low % page;
    assert size == m * page && low == a * page + r;
    MulAssoc(q, m, page);
    assert q * size == q * m * page;
    MulDistributes(q * m, a, page);
    assert q * size + low == (q * m + a) * page + r;
    DivMod(q * m + a, page, r);
  }

  lemma PageEnds(low: nat, length: nat, size: nat, page: nat)
    requires page > 0 && size % page == 0 && low < size && low % page + length <= page
    ensures low + length <= size
  {
    var m, a := size / page, low / page;
    assert size == m * page && low == a * page + low % page;
    if a >= m {
      if a > m {
        NextMultiple(m, a, page);
      }
      assert false;
    }
    NextMultiple(a, m, page);
  }

  /** A later location is in the same bank, or past the end of it. */
  lemma BankOrder(addr: nat, t: nat, size: nat)
    requires size > 0 && addr <= t
    ensures BankStart(size, addr) + Low(size, t) == t || BankStart(size, addr) + size <= t
  {
    var p, q := addr / size, t / size;
    assert addr == p * size + addr % size && t == q * size + t % size;
    if p < q {
      NextMultiple(p, q, size);
    } else if q < p {
      NextMultiple(q, p, size);
      assert false;
    }
  }

  /** A number of bytes, rounded up to whole pages. */
  function WholePages(count: nat, page: nat): nat
    requires page > 0
  {
    (count + page - 1) / page * page
  }

  lemma PagesCover(count: nat, page: nat)
    requires page > 0
    ensures count <= WholePages(count, page) < count + page && 0 % page == 0
  {
    var q := (count + page - 1) / page;
    assert count + page - 1 == q * page + (count + page - 1) % page;
  }

  lemma NextPageFits(addr: nat, count: nat, page: nat)
    requires page > 0 && addr % page == 0 && addr < count
    ensures addr + page <= WholePages(count, page) && (addr + page) % page == 0
  {
    var q, n := addr / page, (count + page - 1) / page;
    assert addr == q * page;
    PagesCover(count, page);
    if n <= q {
      if n < q {
        NextMultiple(n, q, page);
      }
      assert false;
    }
    NextMultiple(q, n, page);
    DivMod(q + 1, page, 0);
  }

  /** The first page start at or past the count is the end of the whole pages. */
  lemma LastPage(addr: nat, count: nat, page: nat)
    requires page > 0 && addr % page == 0 && count <= addr <= WholePages(count, page)
    ensures addr == WholePages(count, page)
  {
    var q, n := addr / page, (count + page - 1) / page;
    assert addr == q * page;
    PagesCover(count, page);
    if q < n {
      NextMultiple(q, n, page);
      assert false;
    }
    if n < q {
      NextMultiple(n, q, page);
      assert false;
    }
  }

  /** Writing what is there already changes nothing. */
  lemma FlatSame(mem: seq<byte>, addr: nat, data: seq<byte>)
    requires addr + |data| <= |mem| && mem[addr..addr + |data|] == data
    ensures Flat(mem, addr, data, Overwrite) == mem
  {
    forall i | addr <= i < addr + |data| ensures data[i - addr] == mem[i] {
      assert mem[addr..addr + |data|][i - addr] == mem[i];
    }
  }
}
