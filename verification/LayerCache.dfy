/** The source layer cache (quantum/action_layer.c): for each key, the layer its last press was
    resolved on, stored bit-sliced, eight keys to a byte and one byte per layer bit. */
module LayerCache {
  import opened Keyboard
  import opened Arithmetic
  import opened LayerMasks

  // ---------------------------------------------------------------- bits

  /** `1U << i` in a byte. */
  function ColumnBit(i: nat): bv8
    requires i < 8
  {
    if i == 0 then 1 else if i == 1 then 2 else if i == 2 then 4 else if i == 3 then 8
    else if i == 4 then 16 else if i == 5 then 32 else if i == 6 then 64 else 128
  }

  predicate Bit(x: bv8, i: nat)
    requires i < 8
  {
    x & ColumnBit(i) != 0
  }

  /** `c ^= (-set ^ c) & mask` stores one bit and keeps the other seven. */
  function StoreBit(c: bv8, set': bool, i: nat): bv8
    requires i < 8
  {
    Merge(c, if set' then 0xFF else 0, ColumnBit(i))
  }

  function Merge(c: bv8, v: bv8, m: bv8): bv8 { c ^ ((v ^ c) & m) }

  /** The merge takes the masked bits from one side and keeps the rest. */
  lemma MergeKeeps(c: bv8, v: bv8, m: bv8, n: bv8)
    requires m & n == 0
    ensures Merge(c, v, m) & n == c & n
    ensures Merge(c, v, m) & m == v & m
  {
  }

  lemma MasksApart(i: nat, j: nat)
    requires i < 8 && j < 8
    ensures ColumnBit(i) != 0 && 0xFF & ColumnBit(i) == ColumnBit(i) && 0 & ColumnBit(i) == 0
    ensures i != j ==> ColumnBit(i) & ColumnBit(j) == 0
  {
    if i == 0 { } else if i == 1 { } else if i == 2 { } else if i == 3 { }
    else if i == 4 { } else if i == 5 { } else if i == 6 { } else { }
  }

  lemma StoreBitStores(c: bv8, set': bool, i: nat, j: nat)
    requires i < 8 && j < 8
    ensures Bit(StoreBit(c, set', i), j) == if i == j then set' else Bit(c, j)
  {
    hide ColumnBit, Merge;
    var v: bv8 := if set' then 0xFF else 0;
    MasksApart(i, j);
    if i == j {
      MergeKeeps(c, v, ColumnBit(i), 0);
    } else {
      MergeKeeps(c, v, ColumnBit(i), ColumnBit(j));
    }
  }

  /** `layer & (1U << n)`. */
  predicate LayerBit(layer: nat, n: nat) { (layer / Pow2(n)) % 2 == 1 }

  /** The layer that column `j` of a storage row spells, least significant word first. */
  function LayerIn(words: seq<bv8>, j: nat): nat
    requires j < 8
  {
    if words == [] then 0
    else
      var n := |words| - 1;
      LayerIn(words[..n], j) + (if Bit(words[n], j) then Pow2(n) else 0)
  }

  lemma {:induction false} WordsSpellLayer(words: seq<bv8>, j: nat, layer: nat)
    requires j < 8 && forall b :: 0 <= b < |words| ==> Bit(words[b], j) == LayerBit(layer, b)
    ensures LayerIn(words, j) == layer % Pow2(|words|)
  {
    if words != [] {
      var n := |words| - 1;
      WordsSpellLayer(words[..n], j, layer);
      ModDouble(layer, Pow2(n));
    }
  }

  lemma {:induction false} SameColumn(words: seq<bv8>, words': seq<bv8>, j: nat)
    requires j < 8 && |words| == |words'| && forall b :: 0 <= b < |words| ==> Bit(words[b], j) == Bit(words'[b], j)
    ensures LayerIn(words, j) == LayerIn(words', j)
  {
    if words != [] {
      SameColumn(words[..|words| - 1], words'[..|words| - 1], j);
    }
  }

  // ---------------------------------------------------------------- keys, layers, actions

  /** What may be done to the layer state, and to the default layers. */
  datatype LayerOp =
    | On(layer: nat) | Off(layer: nat) | Invert(layer: nat) | Move(layer: nat) | Clear
    | Or(mask: Mask) | And(mask: Mask) | Xor(mask: Mask)
    | SetDefault(mask: Mask) | OrDefault(mask: Mask) | AndDefault(mask: Mask) | XorDefault(mask: Mask)

  /** Layers past the width of the mask do not exist. */
  function Only(layer: nat): set<nat> { if layer < 16 then {layer} else {} }

  function Either(a: set<nat>, b: set<nat>): set<nat> { (a - b) + (b - a) }

  /** The layers that are on after an operation. */
  function StateAfter(state: set<nat>, op: LayerOp): set<nat>
  {
    match op
    case On(layer) => state + Only(layer)
    case Off(layer) => state - {layer}
    case Invert(layer) => Either(state, Only(layer))
    case Move(layer) => Only(layer)
    case Clear => {}
    case Or(mask) => state + LayersOf(mask)
    case And(mask) => state * LayersOf(mask)
    case Xor(mask) => Either(state, LayersOf(mask))
    case _ => state
  }

  /** The layers that are on by default after it. */
  function DefaultAfter(default': set<nat>, op: LayerOp): set<nat>
  {
    match op
    case SetDefault(mask) => LayersOf(mask)
    case OrDefault(mask) => default' + LayersOf(mask)
    case AndDefault(mask) => default' * LayersOf(mask)
    case XorDefault(mask) => Either(default', LayersOf(mask))
    case _ => default'
  }

  const TRANSPARENT := 1

  /** What flash or EEPROM assigns to a key on a layer. */
  type Keymap = (nat, Key) -> nat

  /** The layer a press goes to: the highest active one that is not transparent there, else 0. */
  ghost predicate Resolves(keymap: Keymap, active: set<nat>, maxLayer: nat, key: Key, layer: nat)
  {
    if exists i :: 0 <= i < maxLayer && i in active && keymap(i, key) != TRANSPARENT then
      && layer < maxLayer && layer in active && keymap(layer, key) != TRANSPARENT
      && forall i :: layer < i < maxLayer && i in active ==> keymap(i, key) == TRANSPARENT
    else layer == 0
  }

  /** Search from the top layer down. */
  function TopLayer(keymap: Keymap, active: set<nat>, n: nat, key: Key): nat
  {
    if n == 0 then 0
    else if n - 1 in active && keymap(n - 1, key) != TRANSPARENT then n - 1
    else TopLayer(keymap, active, n - 1, key)
  }

  lemma {:induction false} TopLayerResolves(keymap: Keymap, active: set<nat>, n: nat, key: Key)
    ensures Resolves(keymap, active, n, key, TopLayer(keymap, active, n, key))
    ensures n > 0 ==> TopLayer(keymap, active, n, key) < n
  {
    if n > 0 {
      TopLayerResolves(keymap, active, n - 1, key);
    }
  }

  // ---------------------------------------------------------------- the cache array

  class Layers {
    const rows: nat
    const cols: nat
    const bits: nat
    const maxLayer: nat
    const keymap: Keymap
    const cache: array2<bv8>
    var layerState: Mask
    var defaultState: Mask

    ghost predicate Valid()
    {
      && rows <= 0xFF && cols <= 0xFF && 0 < maxLayer <= 16 && maxLayer <= Pow2(bits)
      && cache.Length0 * 8 >= rows * cols && cache.Length1 == bits
    }

    constructor (rows: nat, cols: nat, bits: nat, maxLayer: nat, keymap: Keymap)
      requires rows <= 0xFF && cols <= 0xFF && 0 < maxLayer <= 16 && maxLayer <= Pow2(bits)
      ensures Valid() && fresh(cache) && Holds(this, Plain(map[], {}, {}))
      ensures this.rows == rows && this.cols == cols && this.maxLayer == maxLayer && this.keymap == keymap
    {
      this.rows, this.cols, this.bits, this.maxLayer, this.keymap := rows, cols, bits, maxLayer, keymap;
      layerState, defaultState := 0, 0;
      cache := new bv8[(rows * cols + 7) / 8, bits]((_, _) => 0);
      new;
      NoBits();
      forall key | InMatrix(key) ensures Remembered(key) == 0 {
        EntryFits(key);
        NothingStored(Row(EntryOf(key) / 8), EntryOf(key) % 8);
      }
    }

    /** The layers a press may go to. */
    ghost function Active(): set<nat>
      reads this
    {
      LayersOf(layerState) + LayersOf(defaultState)
    }

    /** A row of the cache: one word per layer bit, shared by eight entries. */
    ghost function Row(i: nat): (r: seq<bv8>)
      requires i < cache.Length0
      reads cache
      ensures |r| == cache.Length1 && forall b :: 0 <= b < |r| ==> r[b] == cache[i, b]
    {
      seq(cache.Length1, b requires 0 <= b < cache.Length1 reads cache => cache[i, b])
    }

    /** The layer stored for an entry. */
    ghost function LayerAt(entry: nat): nat
      requires entry / 8 < cache.Length0
      reads cache
    {
      LayerIn(Row(entry / 8), entry % 8)
    }

    /** `update_source_layers_cache_impl`: this entry's layer is stored, every other one kept. */
    method UpdateCache(layer: nat, entry: nat)
      requires Valid() && layer < Pow2(bits) && entry / 8 < cache.Length0
      modifies cache
      ensures LayerAt(entry) == layer
      ensures forall e: nat :: e != entry && e / 8 < cache.Length0 ==> LayerAt(e) == old(LayerAt(e))
    {
      hide StoreBit, Bit, LayerBit;
      var idx, bit := entry / 8, entry % 8;
      ghost var before := Row(idx);
      for b := 0 to bits
        invariant forall i, k :: 0 <= i < cache.Length0 && 0 <= k < bits && !(i == idx && k < b) ==>
          cache[i, k] == old(cache[i, k])
        invariant forall k :: 0 <= k < b ==> cache[idx, k] == StoreBit(before[k], LayerBit(layer, k), bit)
      {
        cache[idx, b] := StoreBit(cache[idx, b], LayerBit(layer, b), bit);
      }
      ghost var after := Row(idx);
      ColumnsStored(before, after, layer, bit);
      SmallMod(layer, Pow2(bits));
      forall e: nat | e != entry && e / 8 < cache.Length0 ensures LayerAt(e) == old(LayerAt(e)) {
        if e / 8 == idx {
          assert e % 8 != bit;
        } else {
          assert Row(e / 8) == old(Row(e / 8));
        }
      }
    }

    /** `read_source_layers_cache_impl`. */
    method ReadCache(entry: nat) returns (layer: nat)
      requires Valid() && entry / 8 < cache.Length0
      ensures layer == LayerAt(entry)
    {
      hide Bit;
      layer := 0;
      ghost var row := Row(entry / 8);
      for b := 0 to bits
        invariant layer == LayerIn(row[..b], entry % 8)
      {
        assert row[..b + 1][..b] == row[..b];
        layer := layer + (if Bit(cache[entry / 8, b], entry % 8) then Pow2(b) else 0);
      }
      assert row[..bits] == row;
    }

    /** `layer_switch_get_layer`. */
    method LayerSwitchGetLayer(key: Key) returns (layer: nat)
      requires Valid()
      ensures layer == TopLayer(keymap, Active(), maxLayer, key) < maxLayer
    {
      TopLayerResolves(keymap, Active(), maxLayer, key);
      var layers := Join(layerState, defaultState);
      MasksAreSets(layerState, defaultState);
      hide IsOn, Join;
      var i: int := maxLayer - 1;
      while i >= 0
        invariant -1 <= i < maxLayer
        invariant TopLayer(keymap, Active(), maxLayer, key) == TopLayer(keymap, Active(), i + 1, key)
      {
        if IsOn(layers, i) {
          if keymap(i, key) != TRANSPARENT {
            return i;
          }
        }
        i := i - 1;
      }
      return 0;
    }

    predicate InMatrix(key: Key) { key.row < rows && key.col < cols }

    function EntryOf(key: Key): nat { key.row * cols + key.col }

    lemma EntryFits(key: Key)
      requires Valid() && InMatrix(key)
      ensures EntryOf(key) / 8 < cache.Length0
    {
      NextMultiple(key.row, rows, cols);
    }

    lemma EntriesDiffer(key: Key, other: Key)
      requires InMatrix(key) && InMatrix(other) && key != other
      ensures EntryOf(key) != EntryOf(other)
    {
      DivMod(key.row, cols, key.col);
      DivMod(other.row, cols, other.col);
    }

    /** The layer remembered for a key; 0 for one outside the matrix. */
    ghost function Remembered(key: Key): nat
      requires Valid()
      reads cache
    {
      if InMatrix(key) then EntryFits(key); LayerAt(EntryOf(key)) else 0
    }

    /** The layer part of `store_or_get_action`: a press resolves its layer and remembers it, a release
        gets the one remembered; no other key's memory changes. */
    method StoreOrGetLayer(pressed: bool, key: Key) returns (layer: nat)
      requires Valid()
      modifies cache
      ensures layer == if pressed then TopLayer(keymap, Active(), maxLayer, key) else old(Remembered(key))
      ensures forall k :: Remembered(k) == if pressed && k == key && InMatrix(key) then layer else old(Remembered(k))
    {
      if pressed {
        layer := LayerSwitchGetLayer(key);
        if InMatrix(key) {
          EntryFits(key);
          UpdateCache(layer, EntryOf(key));
          forall k ensures Remembered(k) == if k == key then layer else old(Remembered(k)) {
            if InMatrix(k) && k != key {
              EntriesDiffer(key, k);
              EntryFits(k);
            }
          }
        }
      } else if InMatrix(key) {
        EntryFits(key);
        layer := ReadCache(EntryOf(key));
      } else {
        layer := 0;
      }
    }

    /** The layer operations, on the masks: each does to the layers that are on what its name says. */
    method ChangeLayers(op: LayerOp)
      modifies this`layerState, this`defaultState
      ensures LayersOf(layerState) == StateAfter(old(LayersOf(layerState)), op)
      ensures LayersOf(defaultState) == DefaultAfter(old(LayersOf(defaultState)), op)
    {
      hide LayersOf, BitOf, Join, Meet, Differ, Without;
      match op {
        case On(layer) =>
          OneLayer(layerState, layer);
          layerState := Join(layerState, BitOf(layer));
        case Off(layer) =>
          OneLayer(layerState, layer);
          layerState := Without(layerState, BitOf(layer));
        case Invert(layer) =>
          OneLayer(layerState, layer);
          layerState := Differ(layerState, BitOf(layer));
        case Move(layer) =>
          OneBit(layer);
          layerState := BitOf(layer);
        case Clear =>
          NoBits();
          layerState := 0;
        case Or(mask) =>
          MasksAreSets(layerState, mask);
          layerState := Join(layerState, mask);
        case And(mask) =>
          MasksAreSets(layerState, mask);
          layerState := Meet(layerState, mask);
        case Xor(mask) =>
          MasksAreSets(layerState, mask);
          layerState := Differ(layerState, mask);
        case SetDefault(mask) => defaultState := mask;
        case OrDefault(mask) =>
          MasksAreSets(defaultState, mask);
          defaultState := Join(defaultState, mask);
        case AndDefault(mask) =>
          MasksAreSets(defaultState, mask);
          defaultState := Meet(defaultState, mask);
        case XorDefault(mask) =>
          MasksAreSets(defaultState, mask);
          defaultState := Differ(defaultState, mask);
      }
    }
  }

  /** Turning one layer on, off or over. */
  lemma OneLayer(m: Mask, layer: nat)
    ensures LayersOf(Join(m, BitOf(layer))) == LayersOf(m) + Only(layer)
    ensures LayersOf(Without(m, BitOf(layer))) == LayersOf(m) - {layer}
    ensures LayersOf(Differ(m, BitOf(layer))) == Either(LayersOf(m), Only(layer))
  {
    hide LayersOf, BitOf, Join, Without, Differ;
    LayersFit(m);
    OneBit(layer);
    MasksAreSets(m, BitOf(layer));
  }

  lemma {:induction false} NothingStored(words: seq<bv8>, j: nat)
    requires j < 8 && forall b :: 0 <= b < |words| ==> words[b] == 0
    ensures LayerIn(words, j) == 0
  {
    if words != [] {
      NothingStored(words[..|words| - 1], j);
    }
  }

  /** Storing a layer's bits in one column leaves the other seven columns as they were. */
  lemma ColumnsStored(before: seq<bv8>, after: seq<bv8>, layer: nat, bit: nat)
    requires bit < 8 && |before| == |after|
    requires forall b :: 0 <= b < |after| ==> after[b] == StoreBit(before[b], LayerBit(layer, b), bit)
    ensures LayerIn(after, bit) == layer % Pow2(|after|)
    ensures forall j :: 0 <= j < 8 && j != bit ==> LayerIn(after, j) == LayerIn(before, j)
  {
    hide StoreBit, Bit, LayerBit;
    forall b, j | 0 <= b < |after| && 0 <= j < 8
      ensures Bit(after[b], j) == if j == bit then LayerBit(layer, b) else Bit(before[b], j)
    {
      StoreBitStores(before[b], LayerBit(layer, b), bit, j);
    }
    WordsSpellLayer(after, bit, layer);
    forall j | 0 <= j < 8 && j != bit ensures LayerIn(after, j) == LayerIn(before, j) {
      SameColumn(after, before, j);
    }
  }

  // ---------------------------------------------------------------- whole runs

  datatype Input = KeyInput(pressed: bool, key: Key) | LayerInput(op: LayerOp)

  /** The plain map from key to layer that the cache stands for, with the layer state. */
  datatype Plain = Plain(chosen: map<Key, nat>, state: set<nat>, default': set<nat>)

  function PlainStep(p: Plain, input: Input, keymap: Keymap, maxLayer: nat): Plain
  {
    match input
    case KeyInput(pressed, key) =>
      if pressed then p.(chosen := p.chosen[key := TopLayer(keymap, p.state + p.default', maxLayer, key)]) else p
    case LayerInput(op) =>
      p.(state := StateAfter(p.state, op), default' := DefaultAfter(p.default', op))
  }

  function PlainRun(p: Plain, inputs: seq<Input>, keymap: Keymap, maxLayer: nat): Plain
  {
    if inputs == [] then p
    else PlainStep(PlainRun(p, inputs[..|inputs| - 1], keymap, maxLayer), inputs[|inputs| - 1], keymap, maxLayer)
  }

  /** The layers object holds exactly the plain map. */
  ghost predicate Holds(layers: Layers, p: Plain)
    requires layers.Valid()
    reads layers, layers.cache
  {
    && LayersOf(layers.layerState) == p.state && LayersOf(layers.defaultState) == p.default'
    && forall key :: layers.InMatrix(key) ==> layers.Remembered(key) == if key in p.chosen then p.chosen[key] else 0
  }

  /** Any run of the firmware's object refines the run of the plain map, so a key's release resolves
      to the layer of its latest press. */
  method RunInputs(layers: Layers, inputs: seq<Input>, ghost start: Plain) returns (resolved: seq<nat>)
    requires layers.Valid() && Holds(layers, start)
    modifies layers, layers.cache
    ensures Holds(layers, PlainRun(start, inputs, layers.keymap, layers.maxLayer))
    ensures |resolved| == |inputs|
    ensures forall i :: 0 <= i < |inputs| && inputs[i].KeyInput? && layers.InMatrix(inputs[i].key) ==>
      resolved[i] == Resolution(PlainRun(start, inputs[..i], layers.keymap, layers.maxLayer), inputs[i], layers.keymap,
        layers.maxLayer)
  {
    hide TopLayer, StateAfter, DefaultAfter, LayersOf, Layers.Remembered;
    resolved := [];
    assert inputs[..0] == [];
    for n := 0 to |inputs|
      invariant Holds(layers, PlainRun(start, inputs[..n], layers.keymap, layers.maxLayer))
      invariant |resolved| == n
      invariant forall i :: 0 <= i < n && inputs[i].KeyInput? && layers.InMatrix(inputs[i].key) ==>
        resolved[i] == Resolution(PlainRun(start, inputs[..i], layers.keymap, layers.maxLayer), inputs[i],
          layers.keymap, layers.maxLayer)
    {
      assert inputs[..n + 1][..n] == inputs[..n];
      var layer := 0;
      match inputs[n] {
        case KeyInput(pressed, key) => layer := layers.StoreOrGetLayer(pressed, key);
        case LayerInput(op) => layers.ChangeLayers(op);
      }
      resolved := resolved + [layer];
    }
    assert inputs[..|inputs|] == inputs;
  }

  /** What a key event resolves to in the plain map. */
  function Resolution(p: Plain, input: Input, keymap: Keymap, maxLayer: nat): nat
    requires input.KeyInput?
  {
    if input.pressed then TopLayer(keymap, p.state + p.default', maxLayer, input.key)
    else if input.key in p.chosen then p.chosen[input.key] else 0
  }

  /** A release resolves to the layer of the key's latest press, however the layers changed and
      whatever other keys did in between. */
  lemma {:induction false} ReleaseMatchesPress(p: Plain, inputs: seq<Input>, i: nat, keymap: Keymap, maxLayer: nat,
                                               key: Key)
    requires i < |inputs| && inputs[i] == KeyInput(true, key)
    requires forall j :: i < j < |inputs| ==> inputs[j] != KeyInput(true, key)
    ensures Resolution(PlainRun(p, inputs, keymap, maxLayer), KeyInput(false, key), keymap, maxLayer)
         == Resolution(PlainRun(p, inputs[..i], keymap, maxLayer), inputs[i], keymap, maxLayer)
    decreases |inputs|
  {
    var init := inputs[..|inputs| - 1];
    if i < |inputs| - 1 {
      ReleaseMatchesPress(p, init, i, keymap, maxLayer, key);
      assert init[..i] == inputs[..i];
    }
  }

  lemma SmallMod(a: nat, b: nat)
    requires a < b
    ensures a % b == a
  {
    DivMod(0, b, a);
  }
}
