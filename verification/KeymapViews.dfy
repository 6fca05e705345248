/** Key codes, layout options and the bulk buffer as views of one EEPROM
    (quantum/dynamic_keymap.c, quantum/via.c). */
module KeymapViews {
  import opened Keyboard
  import opened Arithmetic
  import opened Bytes
  import opened ViaStore
  import opened ViaCrash
  import opened Via

  // ---------------------------------------------------------------- key codes

  predicate IsKey(c: Config, layer: nat, row: nat, col: nat)
  {
    layer < c.layers && row < c.rows && col < c.cols
  }

  function Code(high: byte, low: byte): uint16 { 256 * high as int + low as int }

  /** `dynamic_keymap_get_keycode`; KC_NO is 0. */
  function KeycodeIn(c: Config, mem: seq<byte>, layer: nat, row: nat, col: nat): uint16
    requires Fits(c, mem)
  {
    if !IsKey(c, layer, row, col) then 0
    else
      KeyInStore(c, layer, row, col);
      var a := KeyAddress(c, layer, row, col);
      Code(mem[a], mem[a + 1])
  }

  /** Every key's two bytes lie in the key table, clear of the encoders and macros. */
  lemma KeyInStore(c: Config, layer: nat, row: nat, col: nat)
    requires c.Valid() && IsKey(c, layer, row, col)
    ensures KeyIndex(c, layer, row, col) < c.Keys()
    ensures var a := KeyAddress(c, layer, row, col);
      c.KeymapAddr() <= a && a + 1 < c.EncoderAddr() <= c.MacroAddr() < c.MacroEnd()
  {
    hide KeyAddress, KeyIndex, KeyCode, ViaStore.Config.KeysBelow;
    KeyAddressIsIndexed(c, layer, row, col);
    KeyIndexDecodes(c, Flash((_, _, _) => 0, (_, _, _) => 0), layer, row, col);
  }

  /** No two keys share a byte. */
  lemma KeysApart(c: Config, layer: nat, row: nat, col: nat, layer': nat, row': nat, col': nat)
    requires IsKey(c, layer, row, col) && IsKey(c, layer', row', col')
    requires (layer, row, col) != (layer', row', col')
    ensures var a, b := KeyAddress(c, layer, row, col), KeyAddress(c, layer', row', col'); a + 2 <= b || b + 2 <= a
  {
    hide KeyIndex, KeyAddress;
    KeyAddressIsIndexed(c, layer, row, col);
    KeyAddressIsIndexed(c, layer', row', col');
    if KeyIndex(c, layer, row, col) == KeyIndex(c, layer', row', col') {
      KeyIndexFactors(c, layer, row, col);
      KeyIndexFactors(c, layer', row', col');
      DivMod(layer * c.rows + row, c.cols, col);
      DivMod(layer' * c.rows + row', c.cols, col');
      DivMod(layer, c.rows, row);
      DivMod(layer', c.rows, row');
    }
  }

  lemma TwoWrites(mem: seq<byte>, base: nat, k: nat, code: uint16)
    requires base + 2 * k + 1 < |mem|
    ensures Apply(mem, CodeWrites(base, k, code)) == mem[base + 2 * k := code / 256][base + 2 * k + 1 := code % 256]
  {
    var ws := CodeWrites(base, k, code);
    assert ws[..1][..0] == [];
    assert Apply(mem, ws[..1]) == mem[base + 2 * k := code / 256];
  }

  /** Setting a key's code changes that key and no other; out of range it changes nothing. */
  lemma SetThenGet(c: Config, mem: seq<byte>, layer: nat, row: nat, col: nat, code: uint16, layer': nat, row': nat,
                   col': nat)
    requires Fits(c, mem)
    ensures InRange(SetKeyWrites(c, layer, row, col, code), |mem|)
    ensures KeycodeIn(c, Apply(mem, SetKeyWrites(c, layer, row, col, code)), layer', row', col')
      == if IsKey(c, layer, row, col) && (layer, row, col) == (layer', row', col') then code
         else KeycodeIn(c, mem, layer', row', col')
  {
    hide KeyAddress, KeyIndex, Apply, CodeWrites;
    assert Apply(mem, []) == mem by { NothingApplied(mem); }
    if IsKey(c, layer, row, col) {
      KeyInStore(c, layer, row, col);
      KeyAddressIsIndexed(c, layer, row, col);
      CodeWritesSplit(mem, 0, c.KeymapAddr(), KeyIndex(c, layer, row, col), code);
      TwoWrites(mem, c.KeymapAddr(), KeyIndex(c, layer, row, col), code);
      if IsKey(c, layer', row', col') && (layer, row, col) != (layer', row', col') {
        KeysApart(c, layer, row, col, layer', row', col');
        KeyInStore(c, layer', row', col');
      }
    }
  }

  lemma NothingApplied(mem: seq<byte>)
    ensures Apply(mem, []) == mem
  {
  }

  /** After a reset every key reads back what flash says. */
  lemma ResetReadsBack(c: Config, flash: Flash, mem: seq<byte>, layer: nat, row: nat, col: nat)
    requires Fits(c, mem) && IsFactory(c, flash, mem) && IsKey(c, layer, row, col)
    ensures KeycodeIn(c, mem, layer, row, col) == flash.key(layer, row, col)
  {
    hide KeyAddress, KeyIndex, KeyCode, Factory, Range;
    KeyInStore(c, layer, row, col);
    KeyAddressIsIndexed(c, layer, row, col);
    KeyIndexDecodes(c, flash, layer, row, col);
    KeyHalves(c, flash, KeyIndex(c, layer, row, col));
    var a := KeyAddress(c, layer, row, col);
    assert a in DataArea(c) && a + 1 in DataArea(c);
  }

  // ---------------------------------------------------------------- layout options

  lemma OptionsWritten(c: Config, mem: seq<byte>, value: nat)
    requires Fits(c, mem)
    ensures InRange(OptionWrites(c, value, c.optionsSize), |mem|)
    ensures Spelled(Apply(mem, OptionWrites(c, value, c.optionsSize)), c.OptionsAddr(), value, c.optionsSize)
  {
    hide OptionWrites, ByteAt, Range, Paints;
    var end := c.OptionsAddr() + c.optionsSize;
    var ws, area := OptionWrites(c, value, c.optionsSize), Range(c.OptionsAddr(), end);
    OptionsPainted(c, value, c.optionsSize, BytesOf(value, end));
    PaintedInRange(ws, BytesOf(value, end), area, |mem|);
    forall a | c.OptionsAddr() <= a < end ensures Apply(mem, ws)[a] == ByteAt(value, end - 1 - a) {
      PaintedCellIn(mem, ws, BytesOf(value, end), area, a);
    }
  }

  /** Layout options read back what was set, modulo the bytes there are. */
  lemma OptionsRoundTrip(c: Config, mem: seq<byte>, value: uint32)
    requires Fits(c, mem)
    ensures InRange(OptionWrites(c, value, c.optionsSize), |mem|)
    ensures ValueIn(Apply(mem, OptionWrites(c, value, c.optionsSize)), c.OptionsAddr(), c.optionsSize)
      == value % Pow256(c.optionsSize)
  {
    hide Spelled, OptionWrites, Apply, ValueIn, ViaStore.Config.KeysBelow, ViaStore.Config.TurnsBelow;
    OptionsWritten(c, mem, value);
    SpelledValue(Apply(mem, OptionWrites(c, value, c.optionsSize)), c.OptionsAddr(), value, c.optionsSize,
      c.optionsSize);
  }

  lemma PaintedInRange(ws: seq<Write>, image: nat -> byte, area: set<int>, size: nat)
    requires Paints(ws, image, area) && forall a :: a in area ==> a < size
    ensures InRange(ws, size)
  {
    forall i | 0 <= i < |ws| ensures ws[i].addr < size { assert ws[i].addr in area; }
  }

  // ---------------------------------------------------------------- the bulk buffer

  /** `dynamic_keymap_set_buffer`: bytes past the key table are dropped. */
  function BufferWrites(base: nat, limit: nat, offset: nat, data: seq<byte>, n: nat): seq<Write>
    requires n <= |data|
  {
    if n == 0 then []
    else BufferWrites(base, limit, offset, data, n - 1) +
         if offset + n - 1 < limit then [Write(base + (offset + n - 1), data[n - 1])] else []
  }

  /** The byte at a key table offset once a window has been overwritten. */
  function Overwritten(base: nat, mem: seq<byte>, offset: nat, data: seq<byte>, j: int): byte
  {
    if offset <= j < offset + |data| then data[j - offset]
    else if 0 <= base + j < |mem| then mem[base + j]
    else 0
  }

  function OverwrittenImage(base: nat, mem: seq<byte>, offset: nat, data: seq<byte>): nat -> byte
  {
    a => Overwritten(base, mem, offset, data, a - base)
  }

  /** The code of the key at an index once a window has been overwritten. */
  function OverwrittenCodes(base: nat, mem: seq<byte>, offset: nat, data: seq<byte>): nat -> uint16
  {
    k => Code(Overwritten(base, mem, offset, data, 2 * k), Overwritten(base, mem, offset, data, 2 * k + 1))
  }

  lemma WindowInImage(base: nat, mem: seq<byte>, offset: nat, data: seq<byte>)
    ensures forall i :: 0 <= i < |data| ==> data[i] == OverwrittenImage(base, mem, offset, data)(base + (offset + i))
  {
    forall i | 0 <= i < |data| ensures data[i] == OverwrittenImage(base, mem, offset, data)(base + (offset + i)) {
      assert Overwritten(base, mem, offset, data, base + (offset + i) - base) == data[i];
    }
  }

  function Clamp(lo: nat, hi: nat, limit: nat): (r: nat)
    ensures lo <= r
  {
    if hi < limit then (if lo <= hi then hi else lo) else if lo <= limit then limit else lo
  }

  lemma {:induction false} BufferPainted(base: nat, limit: nat, offset: nat, data: seq<byte>, n: nat,
                                         image: nat -> byte)
    requires n <= |data|
    requires forall i :: 0 <= i < n ==> data[i] == image(base + (offset + i))
    ensures Paints(BufferWrites(base, limit, offset, data, n), image,
      Range(base + offset, base + Clamp(offset, offset + n, limit)))
  {
    hide Paints, Range;
    var area := Range(base + offset, base + Clamp(offset, offset + n, limit));
    if n == 0 {
      PaintsNothing(image);
      assert area == {};
    } else {
      BufferPainted(base, limit, offset, data, n - 1, image);
      var j := offset + n - 1;
      var before := Range(base + offset, base + Clamp(offset, j, limit));
      if j < limit {
        PaintsOne(Write(base + j, data[n - 1]), image);
        PaintsConcat(BufferWrites(base, limit, offset, data, n - 1), [Write(base + j, data[n - 1])], image, before,
          {base + j});
        assert before + {base + j} == area;
      } else {
        assert BufferWrites(base, limit, offset, data, n - 1) + [] == BufferWrites(base, limit, offset, data, n - 1);
        assert before == area;
      }
    }
  }

  /** A bulk write of any window is the same as writing, key by key and big-endian, the codes that
      the window's bytes (and the old bytes at its ends) spell, stopping at the last key. */
  lemma BulkWriteIsKeyWrites(c: Config, mem: seq<byte>, offset: nat, data: seq<byte>)
    requires Fits(c, mem)
    ensures var hi := Clamp(offset / 2, (offset + |data| + 1) / 2, c.Keys());
      var code := OverwrittenCodes(c.KeymapAddr(), mem, offset, data);
      var bulk, keys := BufferWrites(c.KeymapAddr(), 2 * c.Keys(), offset, data, |data|),
                        TableWrites(c.KeymapAddr(), offset / 2, hi, code);
      InRange(bulk, |mem|) && InRange(keys, |mem|) && Apply(mem, bulk) == Apply(mem, keys)
  {
    hide BufferWrites, TableWrites, Apply, Clamp, ViaStore.Config.KeysBelow, ViaStore.Config.TurnsBelow;
    WindowIsCodes(c.KeymapAddr(), c.Keys(), mem, offset, data);
  }

  lemma WindowIsCodes(base: nat, n: nat, mem: seq<byte>, offset: nat, data: seq<byte>)
    requires base + 2 * n <= |mem|
    ensures var hi := Clamp(offset / 2, (offset + |data| + 1) / 2, n);
      var bulk, keys := BufferWrites(base, 2 * n, offset, data, |data|),
                        TableWrites(base, offset / 2, hi, OverwrittenCodes(base, mem, offset, data));
      InRange(bulk, |mem|) && InRange(keys, |mem|) && Apply(mem, bulk) == Apply(mem, keys)
  {
    hide BufferWrites, TableWrites, Range, Paints, Apply, Overwritten;
    var hi := Clamp(offset / 2, (offset + |data| + 1) / 2, n);
    var code, image := OverwrittenCodes(base, mem, offset, data), OverwrittenImage(base, mem, offset, data);
    var bulk, keys := BufferWrites(base, 2 * n, offset, data, |data|), TableWrites(base, offset / 2, hi, code);
    WindowInImage(base, mem, offset, data);
    BufferPainted(base, 2 * n, offset, data, |data|, image);
    CodesInImage(base, mem, offset, data);
    TablePainted(base, offset / 2, hi, code, image);
    var narrow := Range(base + offset, base + Clamp(offset, offset + |data|, 2 * n));
    var wide := Range(base + 2 * (offset / 2), base + 2 * hi);
    forall a | 0 <= a < |mem| && (a in narrow <==> a !in wide) ensures image(a) == mem[a] {
      OutsideWindow(n, offset, |data|, a - base);
      ImageOutside(base, mem, offset, data, a);
    }
    PaintingsAgree(mem, bulk, keys, image, narrow, wide);
  }

  lemma ImageOutside(base: nat, mem: seq<byte>, offset: nat, data: seq<byte>, a: nat)
    requires a < |mem| && !(offset <= a - base < offset + |data|)
    ensures OverwrittenImage(base, mem, offset, data)(a) == mem[a]
  {
    assert Overwritten(base, mem, offset, data, a - base) == mem[a];
  }

  lemma CodesInImage(base: nat, mem: seq<byte>, offset: nat, data: seq<byte>)
    ensures var code, image := OverwrittenCodes(base, mem, offset, data), OverwrittenImage(base, mem, offset, data);
      forall k: nat :: image(base + 2 * k) == code(k) / 256 && image(base + 2 * k + 1) == code(k) % 256
  {
    hide Overwritten;
    var code, image := OverwrittenCodes(base, mem, offset, data), OverwrittenImage(base, mem, offset, data);
    forall k: nat ensures image(base + 2 * k) == code(k) / 256 && image(base + 2 * k + 1) == code(k) % 256 {
      assert base + 2 * k - base == 2 * k && base + 2 * k + 1 - base == 2 * k + 1;
    }
  }

  /** The keys around a window hold one byte more than the window at most, at either end. */
  lemma OutsideWindow(n: nat, offset: nat, size: nat, j: int)
    requires (offset <= j < Clamp(offset, offset + size, 2 * n))
      <==> !(2 * (offset / 2) <= j < 2 * Clamp(offset / 2, (offset + size + 1) / 2, n))
    ensures !(offset <= j < offset + size)
  {
  }

  /** Two paintings of the same image agree if the image keeps the memory where they differ. */
  lemma PaintingsAgree(mem: seq<byte>, a: seq<Write>, b: seq<Write>, image: nat -> byte, x: set<int>, y: set<int>)
    requires Paints(a, image, x) && Paints(b, image, y)
    requires forall i :: i in x || i in y ==> 0 <= i < |mem|
    requires forall i :: 0 <= i < |mem| && (i in x <==> i !in y) ==> image(i) == mem[i]
    ensures InRange(a, |mem|) && InRange(b, |mem|) && Apply(mem, a) == Apply(mem, b)
  {
    forall i | 0 <= i < |a| ensures a[i].addr < |mem| { assert a[i].addr in x; }
    forall i | 0 <= i < |b| ensures b[i].addr < |mem| { assert b[i].addr in y; }
    forall i | 0 <= i < |mem| ensures Apply(mem, a)[i] == Apply(mem, b)[i] {
      PaintedCellIn(mem, a, image, x, i);
      PaintedCellIn(mem, b, image, y, i);
    }
  }

  lemma PaintedCellIn(mem: seq<byte>, ws: seq<Write>, image: nat -> byte, area: set<int>, a: nat)
    requires Paints(ws, image, area) && InRange(ws, |mem|) && a < |mem|
    ensures Apply(mem, ws)[a] == if a in area then image(a) else mem[a]
  {
    ApplyPaint(mem, ws, image, a);
  }

  /** `dynamic_keymap_get_buffer`: bytes past the key table read as zero. */
  function BufferIn(base: nat, limit: nat, mem: seq<byte>, offset: nat, size: nat): (r: seq<byte>)
    requires base + limit <= |mem|
  {
    seq(size, i requires 0 <= i < size => if offset + i < limit then mem[base + (offset + i)] else 0)
  }

  /** A window reads back what was written to it, with zeros past the end of the table. */
  lemma BufferRoundTrip(base: nat, limit: nat, mem: seq<byte>, offset: nat, data: seq<byte>)
    requires base + limit <= |mem|
    ensures var bulk := BufferWrites(base, limit, offset, data, |data|);
      && InRange(bulk, |mem|)
      && BufferIn(base, limit, Apply(mem, bulk), offset, |data|)
           == seq(|data|, i requires 0 <= i < |data| => if offset + i < limit then data[i] else 0)
  {
    hide BufferWrites, Range, Paints, Apply;
    var image, bulk := OverwrittenImage(base, mem, offset, data), BufferWrites(base, limit, offset, data, |data|);
    WindowInImage(base, mem, offset, data);
    BufferPainted(base, limit, offset, data, |data|, image);
    var area := Range(base + offset, base + Clamp(offset, offset + |data|, limit));
    PaintedInRange(bulk, image, area, |mem|);
    forall i | 0 <= i < |data| && offset + i < limit ensures Apply(mem, bulk)[base + (offset + i)] == data[i] {
      PaintedCellIn(mem, bulk, image, area, base + (offset + i));
    }
  }

  // ---------------------------------------------------------------- the firmware's own loops

  method GetKeycode(store: Store, layer: nat, row: nat, col: nat) returns (code: uint16)
    requires store.Valid()
    ensures code == KeycodeIn(store.c, store.cells[..], layer, row, col)
  {
    if layer >= store.c.layers || row >= store.c.rows || col >= store.c.cols {
      return 0;
    }
    KeyInStore(store.c, layer, row, col);
    var address := KeyAddress(store.c, layer, row, col);
    code := 256 * store.cells[address] as int + store.cells[address + 1] as int;
  }

  /** `via_get_layout_options`, in 32 bits. */
  method ViaGetLayoutOptions(store: Store) returns (value: uint32)
    requires store.Valid()
    ensures value == ValueIn(store.cells[..], store.c.OptionsAddr(), store.c.optionsSize)
  {
    hide ViaStore.Config.KeysBelow, ViaStore.Config.TurnsBelow;
    value := 0;
    var source := store.c.OptionsAddr();
    for i := 0 to store.c.optionsSize
      invariant source == store.c.OptionsAddr() + i
      invariant value == ValueIn(store.cells[..], store.c.OptionsAddr(), i)
    {
      ValueBelow(store.cells[..], store.c.OptionsAddr(), i);
      assert Pow256(0) == 1 && Pow256(1) == 256 && Pow256(2) == 0x1_0000 && Pow256(3) == 0x100_0000;
      value := (value * 256) % 0x1_0000_0000 + store.cells[source];
      source := source + 1;
    }
  }

  /** `dynamic_keymap_set_buffer`. */
  method SetBuffer(store: Store, offset: uint16, data: seq<byte>)
    requires store.Valid()
    modifies store`power, store.cells
    ensures var ws := BufferWrites(store.c.KeymapAddr(), 2 * store.c.Keys(), offset, data, |data|);
      && InRange(ws, store.cells.Length)
      && store.cells[..] == Powered(old(store.cells[..]), old(store.power), ws)
      && store.power == PowerLeft(old(store.power), ws)
  {
    hide Powered, PowerLeft, ViaStore.Config.KeysBelow, ViaStore.Config.TurnsBelow;
    var base, limit := store.c.KeymapAddr(), 2 * store.c.Keys();
    ghost var m, p := store.cells[..], store.power;
    NoWrites(m, p);
    for i := 0 to |data|
      invariant |store.cells[..]| == |m|
      invariant InRange(BufferWrites(base, limit, offset, data, i), |m|)
      invariant store.cells[..] == Powered(m, p, BufferWrites(base, limit, offset, data, i))
      invariant store.power == PowerLeft(p, BufferWrites(base, limit, offset, data, i))
    {
      ghost var done := BufferWrites(base, limit, offset, data, i);
      assert done + [] == done;
      if offset + i < limit {
        store.UpdateByte(base + (offset + i), data[i]);
        PoweredConcat(m, p, done, [Write(base + (offset + i), data[i])]);
      }
    }
  }

  /** `dynamic_keymap_get_buffer`. */
  method GetBuffer(store: Store, offset: uint16, size: uint16) returns (data: seq<byte>)
    requires store.Valid()
    ensures data == BufferIn(store.c.KeymapAddr(), 2 * store.c.Keys(), store.cells[..], offset, size)
  {
    hide ViaStore.Config.KeysBelow, ViaStore.Config.TurnsBelow;
    var base, limit := store.c.KeymapAddr(), 2 * store.c.Keys();
    data := [];
    for i := 0 to size
      invariant |data| == i
      invariant forall j :: 0 <= j < i ==> data[j] == if offset + j < limit then store.cells[base + (offset + j)] else 0
    {
      data := data + [if offset + i < limit then store.cells[base + (offset + i)] else 0];
    }
  }
}
