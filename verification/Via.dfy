/** VIA and the dynamic keymap as the firmware runs them (quantum/via.c, quantum/dynamic_keymap.c):
    byte-wise updates of an EEPROM that loses power after a given number of writes. */
module Via {
  import opened Keyboard
  import opened Arithmetic
  import opened Bytes
  import opened ViaStore
  import opened ViaCrash

  /** The memory after as many of the writes as the power allows. */
  function Powered(mem: seq<byte>, power: nat, ws: seq<Write>): (r: seq<byte>)
    requires InRange(ws, |mem|)
    ensures |r| == |mem|
  {
    Apply(mem, ws[..Min(power, |ws|)])
  }

  function PowerLeft(power: nat, ws: seq<Write>): nat { power - Min(power, |ws|) }

  lemma PoweredConcat(mem: seq<byte>, power: nat, a: seq<Write>, b: seq<Write>)
    requires InRange(a, |mem|) && InRange(b, |mem|)
    ensures InRange(a + b, |mem|)
    ensures Powered(mem, power, a + b) == Powered(Powered(mem, power, a), PowerLeft(power, a), b)
    ensures PowerLeft(power, a + b) == PowerLeft(PowerLeft(power, a), b)
  {
    if power <= |a| {
      assert (a + b)[..power] == a[..power] && b[..0] == [];
    } else {
      var n := Min(power - |a|, |b|);
      assert (a + b)[..|a| + n] == a + b[..n] && a[..|a|] == a;
      ApplyConcat(mem, a, b[..n]);
    }
  }

  lemma NoTable(base: nat, at: nat, codes: nat -> uint16)
    ensures TableWrites(base, at, at, codes) == [] && forall size :: InRange([], size)
  {
  }

  /** The index of a key in the key table. */
  function KeyIndex(c: Config, layer: nat, row: nat, col: nat): nat
  {
    c.KeysBelow(layer) + row * c.cols + col
  }

  /** Rows follow each other, from the layer's first key to the next layer's. */
  lemma RowStarts(c: Config, layer: nat, row: nat)
    ensures KeyIndex(c, layer, 0, 0) == c.KeysBelow(layer) && KeyIndex(c, layer, c.rows, 0) == c.KeysBelow(layer + 1)
    ensures KeyIndex(c, layer, row + 1, 0) == KeyIndex(c, layer, row, 0) + c.cols
  {
    NextMultiple(row, row, c.cols);
    LayersGrow(c, layer);
  }

  /** Key indices are in range, and decode back to layer, row and column. */
  lemma KeyIndexDecodes(c: Config, flash: Flash, layer: nat, row: nat, col: nat)
    requires row < c.rows && col < c.cols
    ensures KeyCode(c, flash, KeyIndex(c, layer, row, col)) == flash.key(layer, row, col)
    ensures KeyIndex(c, layer, row, col) < c.KeysBelow(layer + 1)
    ensures layer < c.layers ==> KeyIndex(c, layer, row, col) < c.Keys()
  {
    hide ViaStore.Config.KeysBelow;
    LayersGrow(c, layer);
    var k := KeyIndex(c, layer, row, col);
    assert k == (layer * c.rows + row) * c.cols + col by { KeyIndexFactors(c, layer, row, col); }
    DivMod(layer * c.rows + row, c.cols, col);
    DivMod(layer, c.rows, row);
    RowFits(row, c.rows, col, c.cols);
  }

  lemma KeyIndexFactors(c: Config, layer: nat, row: nat, col: nat)
    ensures KeyIndex(c, layer, row, col) == (layer * c.rows + row) * c.cols + col
  {
    assert layer * (c.rows * c.cols) == layer * c.rows * c.cols;
    assert (layer * c.rows + row) * c.cols == layer * c.rows * c.cols + row * c.cols;
  }

  lemma RowFits(row: nat, rows: nat, col: nat, cols: nat)
    requires row < rows && col < cols
    ensures row * cols + col < rows * cols
  {
    NextMultiple(row, rows, cols);
  }

  lemma TurnIndexDecodes(c: Config, flash: Flash, layer: nat, encoder: nat, clockwise: bool)
    requires encoder < c.encoders
    ensures var k := c.TurnsBelow(layer) + 2 * encoder + (if clockwise then 0 else 1);
      && TurnCode(c, flash, k) == flash.turn(layer, encoder, clockwise)
      && k < c.TurnsBelow(layer + 1) && (layer < c.layers ==> k < c.Turns())
  {
    LayersGrow(c, layer);
    var k := c.TurnsBelow(layer) + 2 * encoder + (if clockwise then 0 else 1);
    MulAssoc(layer, c.encoders, 2);
    assert k / 2 == layer * c.encoders + encoder;
    DivMod(layer, c.encoders, encoder);
  }

  /** Where a key's code is stored. */
  function KeyAddress(c: Config, layer: nat, row: nat, col: nat): nat
  {
    c.KeymapAddr() + layer * c.rows * c.cols * 2 + row * c.cols * 2 + col * 2
  }

  lemma KeyAddressIsIndexed(c: Config, layer: nat, row: nat, col: nat)
    ensures KeyAddress(c, layer, row, col) == c.KeymapAddr() + 2 * KeyIndex(c, layer, row, col)
  {
    assert layer * c.rows * c.cols == layer * (c.rows * c.cols);
  }

  /** Where an encoder's two codes are stored, clockwise first. */
  function EncoderAddress(c: Config, layer: nat, encoder: nat): (a: nat)
    ensures a == c.EncoderAddr() + 2 * (c.TurnsBelow(layer) + 2 * encoder)
  {
    MulAssoc(layer, c.encoders, 2);
    c.EncoderAddr() + layer * c.encoders * 2 * 2 + encoder * 2 * 2
  }

  predicate InRange(ws: seq<Write>, size: nat)
  {
    forall i :: 0 <= i < |ws| ==> ws[i].addr < size
  }

  class Store {
    const c: Config
    const flash: Flash
    const cells: array<byte>
    var power: nat

    ghost predicate Valid()
      reads cells
    {
      Fits(c, cells[..])
    }

    /** A chip whatever it holds; here all ones. */
    constructor (c: Config, flash: Flash, size: nat, power: nat)
      requires c.Valid() && c.maxAddr < size
      ensures Valid() && fresh(cells) && cells.Length == size
      ensures this.c == c && this.flash == flash && this.power == power
    {
      this.c, this.flash, this.power := c, flash, power;
      cells := new byte[size](_ => 0xFF);
    }

    /** `eeprom_update_byte`; nothing more is written once the power is gone. */
    method UpdateByte(addr: nat, value: byte)
      requires addr < cells.Length
      modifies this`power, cells
      ensures cells[..] == Powered(old(cells[..]), old(power), [Write(addr, value)])
      ensures power == PowerLeft(old(power), [Write(addr, value)])
    {
      OneWrite(cells[..], power, Write(addr, value));
      if power > 0 {
        if cells[addr] != value {
          cells[addr] := value;
        }
        assert cells[..] == old(cells[..])[addr := value];
        power := power - 1;
      }
    }

    method ViaEepromIsValid() returns (valid: bool)
      requires Valid()
      ensures valid <==> MagicValid(c, cells[..])
    {
      valid := cells[c.magicAddr] == c.magic0 && cells[c.magicAddr + 1] == c.magic1 &&
        cells[c.magicAddr + 2] == c.magic2;
    }

    method ViaEepromSetValid(valid: bool)
      requires Valid()
      modifies this`power, cells
      ensures cells[..] == Powered(old(cells[..]), old(power), MagicWrites(c, valid))
      ensures power == PowerLeft(old(power), MagicWrites(c, valid))
    {
      hide Powered, PowerLeft;
      ghost var m, p := cells[..], power;
      var ws := MagicWrites(c, valid);
      UpdateByte(c.magicAddr, if valid then c.magic0 else 0xFF);
      UpdateByte(c.magicAddr + 1, if valid then c.magic1 else 0xFF);
      PoweredConcat(m, p, [ws[0]], [ws[1]]);
      UpdateByte(c.magicAddr + 2, if valid then c.magic2 else 0xFF);
      PoweredConcat(m, p, [ws[0]] + [ws[1]], [ws[2]]);
      assert [ws[0]] + [ws[1]] + [ws[2]] == ws;
    }

    method ViaSetLayoutOptions(value: uint32)
      requires Valid()
      modifies this`power, cells
      ensures InRange(OptionWrites(c, value, c.optionsSize), cells.Length)
      ensures cells[..] == Powered(old(cells[..]), old(power), OptionWrites(c, value, c.optionsSize))
      ensures power == PowerLeft(old(power), OptionWrites(c, value, c.optionsSize))
    {
      hide Powered, PowerLeft, Pow256;
      var rest: nat, target := value, c.OptionsAddr() + c.optionsSize - 1;
      ghost var m, p := cells[..], power;
      assert rest == value / Pow256(0) by { PowersOf256(value, 0); }
      NoWrites(m, p);
      for i := 0 to c.optionsSize
        invariant |cells[..]| == |m| && target == c.OptionsAddr() + c.optionsSize - 1 - i
        invariant rest == value / Pow256(i)
        invariant InRange(OptionWrites(c, value, i), |m|)
        invariant cells[..] == Powered(m, p, OptionWrites(c, value, i)) &&
          power == PowerLeft(p, OptionWrites(c, value, i))
      {
        PoweredConcat(m, p, OptionWrites(c, value, i), [Write(target, ByteAt(value, i))]);
        UpdateByte(target, rest % 256);
        PowersOf256(value, i);
        rest, target := rest / 256, target - 1;
      }
    }

    /** `dynamic_keymap_set_keycode`. */
    method SetKeycode(layer: nat, row: nat, col: nat, code: uint16)
      requires Valid()
      modifies this`power, cells
      ensures InRange(SetKeyWrites(c, layer, row, col, code), cells.Length)
      ensures cells[..] == Powered(old(cells[..]), old(power), SetKeyWrites(c, layer, row, col, code))
      ensures power == PowerLeft(old(power), SetKeyWrites(c, layer, row, col, code))
    {
      hide Powered, PowerLeft, KeyCode;
      NoWrites(cells[..], power);
      if layer >= c.layers || row >= c.rows || col >= c.cols {
        return;
      }
      KeyIndexDecodes(c, flash, layer, row, col);
      var address := KeyAddress(c, layer, row, col);
      KeyAddressIsIndexed(c, layer, row, col);
      CodeWritesSplit(cells[..], power, c.KeymapAddr(), KeyIndex(c, layer, row, col), code);
      UpdateByte(address, code / 256);
      UpdateByte(address + 1, code % 256);
    }

    /** `dynamic_keymap_set_encoder`. */
    method SetEncoder(layer: nat, encoder: nat, clockwise: bool, code: uint16)
      requires Valid()
      modifies this`power, cells
      ensures InRange(SetTurnWrites(c, layer, encoder, clockwise, code), cells.Length)
      ensures cells[..] == Powered(old(cells[..]), old(power), SetTurnWrites(c, layer, encoder, clockwise, code))
      ensures power == PowerLeft(old(power), SetTurnWrites(c, layer, encoder, clockwise, code))
    {
      hide Powered, PowerLeft, TurnCode, ViaStore.Config.TurnsBelow;
      NoWrites(cells[..], power);
      if layer >= c.layers || encoder >= c.encoders {
        return;
      }
      TurnIndexDecodes(c, flash, layer, encoder, clockwise);
      ghost var k := c.TurnsBelow(layer) + 2 * encoder + (if clockwise then 0 else 1);
      var address := EncoderAddress(c, layer, encoder) + (if clockwise then 0 else 2);
      CodeWritesSplit(cells[..], power, c.EncoderAddr(), k, code);
      UpdateByte(address, code / 256);
      UpdateByte(address + 1, code % 256);
    }

    /** `dynamic_keymap_macro_reset`. */
    method MacroReset()
      requires Valid()
      modifies this`power, cells
      ensures InRange(ZeroWrites(c.MacroAddr(), c.MacroEnd()), cells.Length)
      ensures cells[..] == Powered(old(cells[..]), old(power), ZeroWrites(c.MacroAddr(), c.MacroEnd()))
      ensures power == PowerLeft(old(power), ZeroWrites(c.MacroAddr(), c.MacroEnd()))
    {
      hide Powered, PowerLeft;
      ghost var m, p := cells[..], power;
      NoWrites(m, p);
      var q, end := c.MacroAddr(), c.MacroEnd();
      while q != end
        invariant c.MacroAddr() <= q <= end && |cells[..]| == |m|
        invariant InRange(ZeroWrites(c.MacroAddr(), q), |m|)
        invariant cells[..] == Powered(m, p, ZeroWrites(c.MacroAddr(), q)) &&
          power == PowerLeft(p, ZeroWrites(c.MacroAddr(), q))
        decreases end - q
      {
        PoweredConcat(m, p, ZeroWrites(c.MacroAddr(), q), [Write(q, 0)]);
        UpdateByte(q, 0);
        q := q + 1;
      }
    }

    /** One layer of `dynamic_keymap_reset`: its keys, then its encoders. */
    method ResetLayer(layer: nat)
      requires Valid() && layer < c.layers
      modifies this`power, cells
      ensures InRange(LayerWrites(c, flash, layer), cells.Length)
      ensures cells[..] == Powered(old(cells[..]), old(power), LayerWrites(c, flash, layer))
      ensures power == PowerLeft(old(power), LayerWrites(c, flash, layer))
    {
      hide Powered, PowerLeft;
      LayersGrow(c, layer);
      ghost var keys := TableWrites(c.KeymapAddr(), c.KeysBelow(layer), c.KeysBelow(layer + 1), KeyCodes(c, flash));
      ghost var turns := TableWrites(c.EncoderAddr(), c.TurnsBelow(layer), c.TurnsBelow(layer + 1),
        TurnCodes(c, flash));
      ghost var m, p := cells[..], power;
      ResetKeys(layer);
      ResetEncoders(layer);
      PoweredConcat(m, p, keys, turns);
    }

    /** One row of a layer: the key table from the row's first index on. */
    method ResetRow(layer: nat, row: nat, ghost lo: nat)
      requires Valid() && layer < c.layers && row < c.rows
      requires lo == KeyIndex(c, layer, row, 0)
      modifies this`power, cells
      ensures var ws := TableWrites(c.KeymapAddr(), lo, lo + c.cols, KeyCodes(c, flash));
        && InRange(ws, cells.Length)
        && cells[..] == Powered(old(cells[..]), old(power), ws) && power == PowerLeft(old(power), ws)
    {
      hide Powered, PowerLeft, KeyCode, ViaStore.Config.KeysBelow, ViaStore.Config.TurnsBelow;
      ghost var m, p, codes := cells[..], power, KeyCodes(c, flash);
      NoWrites(m, p);
      for col := 0 to c.cols
        invariant |cells[..]| == |m|
        invariant InRange(TableWrites(c.KeymapAddr(), lo, lo + col, codes), |m|)
        invariant cells[..] == Powered(m, p, TableWrites(c.KeymapAddr(), lo, lo + col, codes))
        invariant power == PowerLeft(p, TableWrites(c.KeymapAddr(), lo, lo + col, codes))
      {
        KeyIndexDecodes(c, flash, layer, row, col);
        SetKeycode(layer, row, col, flash.key(layer, row, col));
        PoweredConcat(m, p, TableWrites(c.KeymapAddr(), lo, lo + col, codes),
          CodeWrites(c.KeymapAddr(), lo + col, codes(lo + col)));
      }
    }

    method ResetKeys(layer: nat)
      requires Valid() && layer < c.layers
      modifies this`power, cells
      ensures c.KeysBelow(layer) <= c.KeysBelow(layer + 1)
      ensures var ws := TableWrites(c.KeymapAddr(), c.KeysBelow(layer), c.KeysBelow(layer + 1), KeyCodes(c, flash));
        && InRange(ws, cells.Length)
        && cells[..] == Powered(old(cells[..]), old(power), ws) && power == PowerLeft(old(power), ws)
    {
      NoTable(c.KeymapAddr(), c.KeysBelow(layer), KeyCodes(c, flash));
      hide Powered, PowerLeft, KeyCodes, TableWrites, InRange, KeyIndex;
      hide ViaStore.Config.KeysBelow, ViaStore.Config.TurnsBelow;
      LayersGrow(c, layer);
      ghost var m, p, base, lo, codes := cells[..], power, c.KeymapAddr(), c.KeysBelow(layer), KeyCodes(c, flash);
      ghost var hi := lo;
      RowStarts(c, layer, 0);
      NoWrites(m, p);
      for row := 0 to c.rows
        invariant |cells[..]| == |m| && lo <= hi == KeyIndex(c, layer, row, 0)
        invariant InRange(TableWrites(base, lo, hi, codes), |m|)
        invariant cells[..] == Powered(m, p, TableWrites(base, lo, hi, codes)) &&
          power == PowerLeft(p, TableWrites(base, lo, hi, codes))
      {
        RowStarts(c, layer, row);
        ResetRow(layer, row, hi);
        TableWritesConcat(base, lo, hi, hi + c.cols, codes);
        PoweredConcat(m, p, TableWrites(base, lo, hi, codes), TableWrites(base, hi, hi + c.cols, codes));
        hi := hi + c.cols;
      }
    }

    method ResetEncoders(layer: nat)
      requires Valid() && layer < c.layers
      modifies this`power, cells
      ensures c.TurnsBelow(layer) <= c.TurnsBelow(layer + 1)
      ensures var ws := TableWrites(c.EncoderAddr(), c.TurnsBelow(layer), c.TurnsBelow(layer + 1), TurnCodes(c, flash));
        && InRange(ws, cells.Length)
        && cells[..] == Powered(old(cells[..]), old(power), ws) && power == PowerLeft(old(power), ws)
    {
      hide Powered, PowerLeft, TurnCodes, TableWrites, InRange, SetTurnWrites;
      hide ViaStore.Config.KeysBelow, ViaStore.Config.TurnsBelow;
      LayersGrow(c, layer);
      ghost var m, p, base, lo, codes := cells[..], power, c.EncoderAddr(), c.TurnsBelow(layer), TurnCodes(c, flash);
      NoWrites(m, p);
      NoTable(base, lo, codes);
      for encoder := 0 to c.encoders
        invariant |cells[..]| == |m|
        invariant InRange(TableWrites(base, lo, lo + 2 * encoder, codes), |m|)
        invariant cells[..] == Powered(m, p, TableWrites(base, lo, lo + 2 * encoder, codes))
        invariant power == PowerLeft(p, TableWrites(base, lo, lo + 2 * encoder, codes))
      {
        ghost var done := TableWrites(base, lo, lo + 2 * encoder, codes);
        TurnWritten(c, flash, layer, encoder, true);
        SetEncoder(layer, encoder, true, flash.turn(layer, encoder, true));
        PoweredConcat(m, p, done, SetTurnWrites(c, layer, encoder, true, flash.turn(layer, encoder, true)));
        done := TableWrites(base, lo, lo + 2 * encoder + 1, codes);
        TurnWritten(c, flash, layer, encoder, false);
        SetEncoder(layer, encoder, false, flash.turn(layer, encoder, false));
        PoweredConcat(m, p, done, SetTurnWrites(c, layer, encoder, false, flash.turn(layer, encoder, false)));
      }
    }

    /** `dynamic_keymap_reset`. */
    method KeymapReset()
      requires Valid()
      modifies this`power, cells
      ensures InRange(KeymapWrites(c, flash, c.layers), cells.Length)
      ensures cells[..] == Powered(old(cells[..]), old(power), KeymapWrites(c, flash, c.layers))
      ensures power == PowerLeft(old(power), KeymapWrites(c, flash, c.layers))
    {
      hide Powered, PowerLeft, LayerWrites;
      ghost var m, p := cells[..], power;
      NoWrites(m, p);
      for layer := 0 to c.layers
        invariant |cells[..]| == |m| && InRange(KeymapWrites(c, flash, layer), |m|)
        invariant cells[..] == Powered(m, p, KeymapWrites(c, flash, layer)) &&
          power == PowerLeft(p, KeymapWrites(c, flash, layer))
      {
        ResetLayer(layer);
        PoweredConcat(m, p, KeymapWrites(c, flash, layer), LayerWrites(c, flash, layer));
      }
    }

    method EeconfigInitVia()
      requires Valid()
      modifies this`power, cells
      ensures cells[..] == Cut(c, flash, old(cells[..]), old(power))
    {
      hide PowerLeft, OptionWrites, KeymapWrites, ZeroWrites;
      ghost var m, p := cells[..], power;
      InitInRange(c, flash, m);
      ViaEepromSetValid(false);
      ghost var done := MagicWrites(c, false);
      ViaSetLayoutOptions(c.optionsDefault);
      PoweredConcat(m, p, done, OptionWrites(c, c.optionsDefault, c.optionsSize));
      done := done + OptionWrites(c, c.optionsDefault, c.optionsSize);
      KeymapReset();
      PoweredConcat(m, p, done, KeymapWrites(c, flash, c.layers));
      done := done + KeymapWrites(c, flash, c.layers);
      MacroReset();
      PoweredConcat(m, p, done, ZeroWrites(c.MacroAddr(), c.MacroEnd()));
      done := done + ZeroWrites(c.MacroAddr(), c.MacroEnd());
      ViaEepromSetValid(true);
      PoweredConcat(m, p, done, MagicWrites(c, true));
      assert done + MagicWrites(c, true) == InitWrites(c, flash);
    }

    method ViaInit()
      requires Valid()
      modifies this`power, cells
      ensures cells[..] == Step(c, flash, old(cells[..]), Boot(old(power)))
    {
      var valid := ViaEepromIsValid();
      if !valid {
        EeconfigInitVia();
      }
    }
  }

  function SetKeyWrites(c: Config, layer: nat, row: nat, col: nat, code: uint16): seq<Write>
  {
    if layer >= c.layers || row >= c.rows || col >= c.cols then []
    else CodeWrites(c.KeymapAddr(), KeyIndex(c, layer, row, col), code)
  }

  function SetTurnWrites(c: Config, layer: nat, encoder: nat, clockwise: bool, code: uint16): seq<Write>
  {
    if layer >= c.layers || encoder >= c.encoders then []
    else CodeWrites(c.EncoderAddr(), c.TurnsBelow(layer) + 2 * encoder + (if clockwise then 0 else 1), code)
  }

  lemma {:induction false} TableWritesConcat(base: nat, lo: nat, mid: nat, hi: nat, code: nat -> uint16)
    requires lo <= mid <= hi
    ensures TableWrites(base, lo, mid, code) + TableWrites(base, mid, hi, code) == TableWrites(base, lo, hi, code)
    decreases hi
  {
    if mid < hi {
      TableWritesConcat(base, lo, mid, hi - 1, code);
    }
  }

  /** Setting one turn of the flash's encoder map is the next entry of the encoder table. */
  lemma TurnWritten(c: Config, flash: Flash, layer: nat, encoder: nat, clockwise: bool)
    requires c.Valid() && layer < c.layers && encoder < c.encoders
    ensures var lo, codes := c.TurnsBelow(layer), TurnCodes(c, flash);
      var k := lo + 2 * encoder + if clockwise then 0 else 1;
      TableWrites(c.EncoderAddr(), lo, k + 1, codes)
        == TableWrites(c.EncoderAddr(), lo, k, codes)
         + SetTurnWrites(c, layer, encoder, clockwise, flash.turn(layer, encoder, clockwise))
  {
    hide ViaStore.Config.KeysBelow, TurnCode;
    TurnIndexDecodes(c, flash, layer, encoder, clockwise);
  }

  lemma NoWrites(mem: seq<byte>, power: nat)
    ensures Powered(mem, power, []) == mem && PowerLeft(power, []) == power
  {
  }

  lemma OneWrite(mem: seq<byte>, power: nat, w: Write)
    requires w.addr < |mem|
    ensures Powered(mem, power, [w]) == if power > 0 then mem[w.addr := w.value] else mem
    ensures PowerLeft(power, [w]) == if power > 0 then power - 1 else 0
  {
    assert [w][..0] == [] && [w][..1] == [w];
    assert Apply(mem, []) == mem;
  }

  lemma CodeWritesSplit(mem: seq<byte>, power: nat, base: nat, k: nat, code: uint16)
    requires base + 2 * k + 1 < |mem|
    ensures var high, low := Write(base + 2 * k, code / 256), Write(base + 2 * k + 1, code % 256);
      && InRange(CodeWrites(base, k, code), |mem|)
      && Powered(mem, power, CodeWrites(base, k, code)) ==
         Powered(Powered(mem, power, [high]), PowerLeft(power, [high]), [low])
      && PowerLeft(power, CodeWrites(base, k, code)) == PowerLeft(PowerLeft(power, [high]), [low])
  {
    var high, low := Write(base + 2 * k, code / 256), Write(base + 2 * k + 1, code % 256);
    PoweredConcat(mem, power, [high], [low]);
    assert [high] + [low] == CodeWrites(base, k, code);
  }
}
