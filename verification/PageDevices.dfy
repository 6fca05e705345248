/** Devices that wrap inside a page, and the block writer of the SPI flash driver
    (drivers/flash/flash_spi.c). */
module PageDevices {
  import opened Keyboard
  import opened Arithmetic
  import opened Bytes

  // ---------------------------------------------------------------- what a device does

  /** The next address of a page write: past the end of the page comes its beginning. */
  function NextInPage(page: nat, addr: nat): int
    requires page > 0
  {
    if (addr + 1) % page == 0 then addr + 1 - page else addr + 1
  }

  /** One page write as the device performs it, byte after byte; `put` combines old and new. */
  function WrapWrite<T>(mem: seq<T>, page: nat, addr: int, data: seq<T>, put: (T, T) -> T): (r: seq<T>)
    requires page > 0
    ensures |r| == |mem|
    decreases |data|
  {
    if data == [] || !(0 <= addr < |mem|) then mem
    else WrapWrite(mem[addr := put(mem[addr], data[0])], page, NextInPage(page, addr), data[1..], put)
  }

  /** The same bytes on a device without pages. */
  function Flat<T>(mem: seq<T>, addr: nat, data: seq<T>, put: (T, T) -> T): (r: seq<T>)
    requires addr + |data| <= |mem|
    ensures |r| == |mem|
  {
    seq(|mem|, i requires 0 <= i < |mem| => if addr <= i < addr + |data| then put(mem[i], data[i - addr]) else mem[i])
  }

  lemma NextStays(page: nat, addr: nat)
    requires page > 0 && addr % page + 1 < page
    ensures NextInPage(page, addr) == addr + 1 && (addr + 1) % page == addr % page + 1
  {
    var q, r := addr / page, addr % page;
    assert addr == page * q + r;
    assert addr + 1 == q * page + (r + 1);
    DivMod(q, page, r + 1);
  }

  /** A write that ends inside its page never wraps. */
  lemma {:induction false} WrapIsFlat<T>(mem: seq<T>, page: nat, addr: nat, data: seq<T>, put: (T, T) -> T)
    requires page > 0 && addr % page + |data| <= page && addr + |data| <= |mem|
    ensures WrapWrite(mem, page, addr, data, put) == Flat(mem, addr, data, put)
    decreases |data|
  {
    if data != [] {
      var m := mem[addr := put(mem[addr], data[0])];
      if |data| > 1 {
        NextStays(page, addr);
        WrapIsFlat(m, page, addr + 1, data[1..], put);
        FlatStep(mem, addr, data, put);
      } else {
        assert data[1..] == [];
      }
    }
  }

  lemma FlatStep<T>(mem: seq<T>, addr: nat, data: seq<T>, put: (T, T) -> T)
    requires data != [] && addr + |data| <= |mem|
    ensures Flat(mem[addr := put(mem[addr], data[0])], addr + 1, data[1..], put) == Flat(mem, addr, data, put)
  {
  }

  /** Consecutive flat writes are one flat write. */
  lemma FlatConcat<T>(mem: seq<T>, addr: nat, a: seq<T>, b: seq<T>, put: (T, T) -> T)
    requires addr + |a| + |b| <= |mem|
    ensures Flat(Flat(mem, addr, a, put), addr + |a|, b, put) == Flat(mem, addr, a + b, put)
  {
  }

  function Program(old': bv8, new': bv8): bv8 { old' & new' }

  // ---------------------------------------------------------------- SPI flash

  datatype Status = Success | Error | Timeout

  /** What the bus answers at a step, and how far a failing transfer got. */
  datatype Answer = Answer(status: Status, reached: nat)

  class FlashSpi {
    const cells: array<bv8>
    const page: nat
    const addressSize: nat
    const answers: nat -> Answer
    var step: nat
    /** The device's write enable latch; a page program uses it up. */
    var latch: bool

    predicate Valid()
    {
      0 < page && cells.Length <= Pow256(addressSize)
    }

    constructor (size: nat, page: nat, addressSize: nat, answers: nat -> Answer)
      requires 0 < page && size <= Pow256(addressSize)
      ensures Valid() && fresh(cells) && !latch && cells.Length == size
      ensures forall i :: 0 <= i < size ==> cells[i] == 0xFF
      ensures this.page == page && this.addressSize == addressSize && this.answers == answers
    {
      this.page, this.addressSize, this.answers, step, latch := page, addressSize, answers, 0, false;
      cells := new bv8[size](_ => 0xFF);
    }

    /** Nothing on the bus fails. */
    ghost predicate BusFine() { forall k :: answers(k).status == Success }

    method Ask() returns (answer: Answer)
      modifies this`step
      ensures answer == answers(old(step)) && step == old(step) + 1
    {
      answer := answers(step);
      step := step + 1;
    }

    method WaitWhileBusy() returns (status: Status)
      modifies this`step
      ensures BusFine() ==> status == Success
    {
      var answer := Ask();
      status := answer.status;
    }

    method WriteEnable() returns (status: Status)
      modifies this`step, this`latch
      ensures status == Success ==> latch
      ensures BusFine() ==> status == Success
    {
      var answer := Ask();
      status := answer.status;
      if status == Success {
        latch := true;
      }
    }

    method WriteDisable() returns (status: Status)
      modifies this`step, this`latch
      ensures status == Success ==> !latch
      ensures BusFine() ==> status == Success
    {
      var answer := Ask();
      status := answer.status;
      if status == Success {
        latch := false;
      }
    }

    /** The address bytes of `spi_flash_transaction`, behind the command byte. */
    method PackAddress(command: byte, addr: nat) returns (buffer: array<byte>)
      requires addr < Pow256(addressSize)
      ensures fresh(buffer) && buffer.Length == addressSize + 1 && buffer[0] == command
      ensures ValueIn(buffer[..], 1, addressSize) == addr
    {
      hide Pow256, ByteAt, ValueIn;
      buffer := new byte[addressSize + 1](_ => 0);
      buffer[0] := command;
      var p := addr;
      assert p == addr / Pow256(0) by { PowersOf256(addr, 0); }
      for i := 0 to addressSize
        invariant p == addr / Pow256(i) && buffer[0] == command
        invariant forall k :: addressSize - i < k <= addressSize ==> buffer[k] == ByteAt(addr, addressSize - k)
      {
        ByteOf(addr, i);
        PowersOf256(addr, i);
        buffer[addressSize - i] := p % 256;
        p := p / 256;
      }
      AddressBehindCommand(buffer[..], addr, addressSize);
    }

    /** A page program: with the latch set, the device programs the bytes that reach it. */
    method PageProgram(addr: nat, data: seq<bv8>) returns (status: Status, ghost reached: nat)
      requires Valid() && addr + |data| <= cells.Length && 0 < |data| && addr % page + |data| <= page && latch
      modifies this`step, this`latch, cells
      ensures reached <= |data| && (status == Success ==> reached == |data|)
      ensures BusFine() ==> status == Success
      ensures cells[..] == Flat(old(cells[..]), addr, data[..reached], Program)
    {
      hide Pow256, ValueIn, Flat, WrapWrite, Program;
      var buffer := PackAddress(0x02, addr);
      var target := DecodeFrom(buffer[..], 1, addressSize);
      var answer := Ask();
      status := answer.status;
      var n := if status == Success || answer.reached > |data| then |data| else answer.reached;
      reached := n;
      WrapIsFlat(cells[..], page, addr, data[..n], Program);
      DeviceProgram(target, data[..n]);
      latch := false;
    }

    /** The device's side of a page program. */
    method DeviceProgram(addr: int, data: seq<bv8>)
      requires page > 0
      modifies cells
      ensures cells[..] == WrapWrite(old(cells[..]), page, addr, data, Program)
    {
      hide Program, NextInPage;
      var target, i := addr, 0;
      ghost var start := cells[..];
      while i < |data| && 0 <= target < cells.Length
        invariant 0 <= i <= |data|
        invariant WrapWrite(start, page, addr, data, Program) == WrapWrite(cells[..], page, target, data[i..], Program)
        decreases |data| - i
      {
        assert data[i..][1..] == data[i + 1..];
        ghost var now := cells[..];
        cells[target] := Program(cells[target], data[i]);
        assert cells[..] == now[target := Program(now[target], data[i])];
        target, i := NextInPage(page, target), i + 1;
      }
    }

    /** `flash_write_block`: success means every byte was ANDed in, at its own address; a failure leaves
        a prefix done. */
    method WriteBlock(addr: nat, buf: seq<bv8>) returns (status: Status, ghost reached: nat)
      requires Valid() && addr + |buf| <= cells.Length
      modifies this`step, this`latch, cells
      ensures reached <= |buf| && (status == Success ==> reached == |buf| && !latch)
      ensures BusFine() ==> status == Success
      ensures cells[..] == Flat(old(cells[..]), addr, buf[..reached], Program)
    {
      hide Flat, Pow256;
      var writeBuf, target, len := 0, addr, |buf|;
      ghost var start := cells[..];
      FlatNothing(start, addr, buf[..0], Program);
      while len > 0
        invariant 0 <= writeBuf && 0 <= len && writeBuf + len == |buf| && target == addr + writeBuf
        invariant cells[..] == Flat(start, addr, buf[..writeBuf], Program)
      {
        var length := page - target % page;
        if length > len {
          length := len;
        }
        status := WaitWhileBusy();
        if status != Success {
          return status, writeBuf;
        }
        status := WriteEnable();
        if status != Success {
          return status, writeBuf;
        }
        var bite := buf[writeBuf..writeBuf + length];
        ghost var n;
        status, n := PageProgram(target, bite);
        FlatConcat(start, addr, buf[..writeBuf], bite[..n], Program);
        assert buf[..writeBuf] + bite[..n] == buf[..writeBuf + n];
        if status != Success {
          return status, writeBuf + n;
        }
        writeBuf, target, len := writeBuf + length, target + length, len - length;
      }
      status := WaitWhileBusy();
      reached := |buf|;
      if status != Success {
        return;
      }
      status := WriteDisable();
    }
  }

  /** Programming clears bits and sets none: what is left is exactly what both sides have. */
  lemma ProgramOnlyClears(old': bv8, new': bv8, x: bv8)
    ensures Program(old', new') & old' == Program(old', new') && Program(old', new') & new' == Program(old', new')
    ensures x & old' == x && x & new' == x ==> x & Program(old', new') == x
  {
  }

  /** Programming an erased stretch stores the data itself. */
  lemma ErasedTakesData(mem: seq<bv8>, addr: nat, data: seq<bv8>)
    requires addr + |data| <= |mem| && forall i :: addr <= i < addr + |data| ==> mem[i] == 0xFF
    ensures Flat(mem, addr, data, Program)[addr..addr + |data|] == data
  {
    forall i | 0 <= i < |data| ensures Flat(mem, addr, data, Program)[addr + i] == data[i] {
      AllOnes(data[i]);
    }
  }

  lemma AllOnes(d: bv8)
    ensures 0xFF & d == d
  {
  }

  method DecodeFrom(packet: seq<byte>, from: nat, size: nat) returns (addr: int)
    requires from + size <= |packet|
    ensures addr == ValueIn(packet, from, size)
  {
    addr := 0;
    for i := 0 to size
      invariant addr == ValueIn(packet, from, i)
    {
      addr := 256 * addr + packet[from + i];
    }
  }

  lemma AddressBehindCommand(buffer: seq<byte>, addr: nat, size: nat)
    requires size + 1 <= |buffer| && addr < Pow256(size)
    requires forall k :: 0 < k <= size ==> buffer[k] == ByteAt(addr, size - k)
    ensures ValueIn(buffer, 1, size) == addr
  {
    SpelledValue(buffer, 1, addr, size, size);
    assert Pow256(0) == 1;
    DivMod(0, Pow256(size), addr);
  }

  lemma FlatNothing<T>(mem: seq<T>, addr: nat, none: seq<T>, put: (T, T) -> T)
    requires none == [] && addr <= |mem|
    ensures Flat(mem, addr, none, put) == mem
  {
  }

  lemma {:induction false} ValuePrefix(s: seq<byte>, n: nat)
    requires n <= |s|
    ensures ValueIn(s[..n], 0, n) == ValueIn(s, 0, n)
  {
    ValueSame(s[..n], s, n);
  }

  lemma {:induction false} ValueSame(s: seq<byte>, t: seq<byte>, n: nat)
    requires n <= |s| && n <= |t| && forall i :: 0 <= i < n ==> s[i] == t[i]
    ensures ValueIn(s, 0, n) == ValueIn(t, 0, n)
  {
    if n > 0 {
      ValueSame(s, t, n - 1);
    }
  }
}
