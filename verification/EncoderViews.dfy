/** The encoder map of the dynamic keymap, read and written (quantum/dynamic_keymap.c), and what a
    freshly initialised store reads as. */
module EncoderViews {
  import opened Keyboard
  import opened Arithmetic
  import opened Bytes
  import opened ViaStore
  import opened ViaCrash
  import opened Via
  import opened KeymapViews

  predicate IsEncoder(c: Config, layer: nat, encoder: nat) { layer < c.layers && encoder < c.encoders }

  /** Where a turn's code is stored: four bytes for each encoder, clockwise first. */
  function TurnAddress(c: Config, layer: nat, encoder: nat, clockwise: bool): nat
  {
    c.EncoderAddr() + layer * (c.encoders * 2 * 2) + encoder * 2 * 2 + (if clockwise then 0 else 2)
  }

  /** `dynamic_keymap_get_encoder`; KC_NO is 0. */
  function TurnIn(c: Config, mem: seq<byte>, layer: nat, encoder: nat, clockwise: bool): uint16
    requires Fits(c, mem)
  {
    if !IsEncoder(c, layer, encoder) then 0
    else
      TurnInStore(c, layer, encoder, clockwise);
      var a := TurnAddress(c, layer, encoder, clockwise);
      Code(mem[a], mem[a + 1])
  }

  function TurnIndex(c: Config, layer: nat, encoder: nat, clockwise: bool): nat
  {
    c.TurnsBelow(layer) + 2 * encoder + (if clockwise then 0 else 1)
  }

  lemma TurnAddressIsIndexed(c: Config, layer: nat, encoder: nat, clockwise: bool)
    ensures TurnAddress(c, layer, encoder, clockwise) == c.EncoderAddr() + 2 * TurnIndex(c, layer, encoder, clockwise)
  {
    MulAssoc(layer, c.encoders * 2, 2);
  }

  lemma TurnInStore(c: Config, layer: nat, encoder: nat, clockwise: bool)
    requires c.Valid() && IsEncoder(c, layer, encoder)
    ensures TurnIndex(c, layer, encoder, clockwise) < c.Turns()
    ensures var a := TurnAddress(c, layer, encoder, clockwise);
      c.EncoderAddr() <= a && a + 1 < c.MacroAddr() < c.MacroEnd()
  {
    hide TurnAddress, TurnCode, ViaStore.Config.TurnsBelow;
    TurnAddressIsIndexed(c, layer, encoder, clockwise);
    TurnIndexDecodes(c, Flash((_, _, _) => 0, (_, _, _) => 0), layer, encoder, clockwise);
  }

  /** No two turns share an index. */
  lemma TurnsApart(c: Config, layer: nat, encoder: nat, clockwise: bool, layer': nat, encoder': nat, clockwise': bool)
    requires encoder < c.encoders && encoder' < c.encoders
    requires TurnIndex(c, layer, encoder, clockwise) == TurnIndex(c, layer', encoder', clockwise')
    ensures layer == layer' && encoder == encoder' && clockwise == clockwise'
  {
    MulAssoc(layer, c.encoders, 2);
    MulAssoc(layer', c.encoders, 2);
    var m, m' := layer * c.encoders + encoder, layer' * c.encoders + encoder';
    assert TurnIndex(c, layer, encoder, clockwise) == 2 * m + (if clockwise then 0 else 1);
    assert TurnIndex(c, layer', encoder', clockwise') == 2 * m' + (if clockwise' then 0 else 1);
    assert m == m';
    DivMod(layer, c.encoders, encoder);
    DivMod(layer', c.encoders, encoder');
  }

  /** Setting a turn's code changes that turn and no other; out of range it changes nothing. */
  lemma SetTurnThenGet(c: Config, mem: seq<byte>, layer: nat, encoder: nat, clockwise: bool, code: uint16,
                       layer': nat, encoder': nat, clockwise': bool)
    requires Fits(c, mem)
    ensures InRange(SetTurnWrites(c, layer, encoder, clockwise, code), |mem|)
    ensures TurnIn(c, Apply(mem, SetTurnWrites(c, layer, encoder, clockwise, code)), layer', encoder', clockwise')
      == if IsEncoder(c, layer, encoder) && (layer, encoder, clockwise) == (layer', encoder', clockwise') then code
         else TurnIn(c, mem, layer', encoder', clockwise')
  {
    hide TurnAddress, Apply, CodeWrites, ViaStore.Config.TurnsBelow, ViaStore.Config.KeysBelow;
    assert Apply(mem, []) == mem by { NothingApplied(mem); }
    if IsEncoder(c, layer, encoder) {
      var k, k' := TurnIndex(c, layer, encoder, clockwise), TurnIndex(c, layer', encoder', clockwise');
      TurnInStore(c, layer, encoder, clockwise);
      TurnAddressIsIndexed(c, layer, encoder, clockwise);
      CodeWritesSplit(mem, 0, c.EncoderAddr(), k, code);
      TwoWrites(mem, c.EncoderAddr(), k, code);
      if IsEncoder(c, layer', encoder') {
        TurnInStore(c, layer', encoder', clockwise');
        TurnAddressIsIndexed(c, layer', encoder', clockwise');
        if k == k' {
          TurnsApart(c, layer, encoder, clockwise, layer', encoder', clockwise');
        }
      }
    }
  }

  /** Setting a turn changes no key. */
  lemma TurnLeavesKeys(c: Config, mem: seq<byte>, layer: nat, encoder: nat, clockwise: bool, code: uint16,
                       layer': nat, row: nat, col: nat)
    requires Fits(c, mem)
    ensures InRange(SetTurnWrites(c, layer, encoder, clockwise, code), |mem|)
    ensures KeycodeIn(c, Apply(mem, SetTurnWrites(c, layer, encoder, clockwise, code)), layer', row, col)
      == KeycodeIn(c, mem, layer', row, col)
  {
    hide TurnAddress, KeyAddress, KeyIndex, Apply, CodeWrites;
    hide ViaStore.Config.TurnsBelow, ViaStore.Config.KeysBelow;
    SetTurnThenGet(c, mem, layer, encoder, clockwise, code, layer, encoder, clockwise);
    if !IsEncoder(c, layer, encoder) {
      NothingApplied(mem);
    } else if IsKey(c, layer', row, col) {
      TurnInStore(c, layer, encoder, clockwise);
      KeyInStore(c, layer', row, col);
      TwoWrites(mem, c.EncoderAddr(), TurnIndex(c, layer, encoder, clockwise), code);
    }
  }

  /** Setting a key changes no turn. */
  lemma KeyLeavesTurns(c: Config, mem: seq<byte>, layer: nat, row: nat, col: nat, code: uint16,
                       layer': nat, encoder: nat, clockwise: bool)
    requires Fits(c, mem)
    ensures InRange(SetKeyWrites(c, layer, row, col, code), |mem|)
    ensures TurnIn(c, Apply(mem, SetKeyWrites(c, layer, row, col, code)), layer', encoder, clockwise)
      == TurnIn(c, mem, layer', encoder, clockwise)
  {
    hide TurnAddress, TurnIndex, KeyAddress, KeyIndex, Apply, CodeWrites;
    hide ViaStore.Config.TurnsBelow, ViaStore.Config.KeysBelow;
    SetThenGet(c, mem, layer, row, col, code, layer, row, col);
    if !IsKey(c, layer, row, col) {
      NothingApplied(mem);
    } else if IsEncoder(c, layer', encoder) {
      TurnInStore(c, layer', encoder, clockwise);
      KeyInStore(c, layer, row, col);
      KeyAddressIsIndexed(c, layer, row, col);
      TwoWrites(mem, c.KeymapAddr(), KeyIndex(c, layer, row, col), code);
    }
  }

  /** After a reset every turn reads back what flash says. */
  lemma ResetTurnsReadBack(c: Config, flash: Flash, mem: seq<byte>, layer: nat, encoder: nat, clockwise: bool)
    requires Fits(c, mem) && IsFactory(c, flash, mem) && IsEncoder(c, layer, encoder)
    ensures TurnIn(c, mem, layer, encoder, clockwise) == flash.turn(layer, encoder, clockwise)
  {
    hide TurnAddress, TurnCode, Factory, Range, ViaStore.Config.TurnsBelow, ViaStore.Config.KeysBelow;
    TurnInStore(c, layer, encoder, clockwise);
    TurnAddressIsIndexed(c, layer, encoder, clockwise);
    TurnIndexDecodes(c, flash, layer, encoder, clockwise);
    TurnHalves(c, flash, TurnIndex(c, layer, encoder, clockwise));
    var a := TurnAddress(c, layer, encoder, clockwise);
    assert a in DataArea(c) && a + 1 in DataArea(c);
  }

  /** After a reset the layout options read as the default, and every macro is empty. */
  lemma ResetRestReadsBack(c: Config, flash: Flash, mem: seq<byte>)
    requires Fits(c, mem) && IsFactory(c, flash, mem)
    ensures ValueIn(mem, c.OptionsAddr(), c.optionsSize) == c.optionsDefault % Pow256(c.optionsSize)
    ensures forall a :: c.MacroAddr() <= a < c.MacroEnd() ==> mem[a] == 0
  {
    hide KeyCode, TurnCode, ByteAt, Pow256, ValueIn, Range, ViaStore.Config.TurnsBelow, ViaStore.Config.KeysBelow;
    var at, size := c.OptionsAddr(), c.optionsSize;
    forall a | at <= a < at + size ensures mem[a] == ByteAt(c.optionsDefault, at + size - 1 - a) {
      assert a in DataArea(c);
    }
    forall a | c.MacroAddr() <= a < c.MacroEnd() ensures mem[a] == 0 {
      assert a in DataArea(c);
    }
    SpelledValue(mem, at, c.optionsDefault, size, size);
    PowersOf256(c.optionsDefault, 0);
  }

  /** `dynamic_keymap_get_encoder`. */
  method GetEncoder(store: Store, layer: nat, encoder: nat, clockwise: bool) returns (code: uint16)
    requires store.Valid()
    ensures code == TurnIn(store.c, store.cells[..], layer, encoder, clockwise)
  {
    if layer >= store.c.layers || encoder >= store.c.encoders {
      return 0;
    }
    TurnInStore(store.c, layer, encoder, clockwise);
    var address := store.c.EncoderAddr() + layer * (store.c.encoders * 2 * 2) + encoder * 2 * 2;
    var at := address + (if clockwise then 0 else 2);
    code := 256 * store.cells[at] as int + store.cells[at + 1] as int;
  }
}
