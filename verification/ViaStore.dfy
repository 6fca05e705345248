/** The EEPROM layout of VIA and the dynamic keymap (quantum/via.h, quantum/via.c,
    quantum/dynamic_keymap.c), and the byte writes that VIA initialisation makes, in order. */
module ViaStore {
  import opened Keyboard
  import opened Arithmetic
  import opened Bytes

  datatype Write = Write(addr: nat, value: byte)

  /** A keyboard's build-time choices. `encoders` is 0 when there is no encoder map. */
  datatype Config = Config(
    magicAddr: nat, magic0: byte, magic1: byte, magic2: byte,
    optionsSize: nat, optionsDefault: uint32, customSize: nat,
    layers: nat, rows: nat, cols: nat, encoders: nat, maxAddr: nat)
  {
    function OptionsAddr(): nat { magicAddr + 3 }
    function KeymapAddr(): nat { OptionsAddr() + optionsSize + customSize }
    function LayerKeys(): nat { rows * cols }
    function KeysBelow(layer: nat): nat { layer * LayerKeys() }
    function Keys(): nat { KeysBelow(layers) }
    function EncoderAddr(): nat { KeymapAddr() + 2 * Keys() }
    function LayerTurns(): nat { encoders * 2 }
    function TurnsBelow(layer: nat): nat { layer * LayerTurns() }
    function Turns(): nat { TurnsBelow(layers) }
    function MacroAddr(): nat { EncoderAddr() + 2 * Turns() }
    function MacroEnd(): nat { maxAddr + 1 }

    /** The firmware's static checks; a magic byte is two decimal digits of the build date. */
    predicate Valid()
    {
      && magic0 != 0xFF && magic1 != 0xFF && magic2 != 0xFF
      && 1 <= optionsSize <= 4
      && rows <= 0xFF && cols <= 0xFF && layers <= 0xFF && encoders <= 0xFF
      && maxAddr <= 0xFFFF && MacroAddr() + 100 <= maxAddr
    }
  }

  /** What flash holds: key codes per layer, row and column, and per layer, encoder and direction. */
  datatype Flash = Flash(key: (nat, nat, nat) -> uint16, turn: (nat, nat, bool) -> uint16)

  // ---------------------------------------------------------------- write lists

  function Apply(mem: seq<byte>, ws: seq<Write>): (r: seq<byte>)
    requires forall i :: 0 <= i < |ws| ==> ws[i].addr < |mem|
    ensures |r| == |mem|
  {
    if ws == [] then mem
    else
      var last := ws[|ws| - 1];
      Apply(mem, ws[..|ws| - 1])[last.addr := last.value]
  }

  lemma {:induction false} ApplyConcat(mem: seq<byte>, a: seq<Write>, b: seq<Write>)
    requires forall i :: 0 <= i < |a| ==> a[i].addr < |mem|
    requires forall i :: 0 <= i < |b| ==> b[i].addr < |mem|
    ensures Apply(mem, a + b) == Apply(Apply(mem, a), b)
  {
    if b == [] {
      assert a + b == a;
    } else {
      assert (a + b)[..|a + b| - 1] == a + b[..|b| - 1];
      ApplyConcat(mem, a, b[..|b| - 1]);
    }
  }

  /** The addresses from `lo` up to `hi`. */
  function Range(lo: nat, hi: nat): (r: set<int>)
    requires lo <= hi
    ensures forall a :: a in r <==> lo <= a < hi
    decreases hi
  {
    if lo == hi then {} else Range(lo, hi - 1) + {hi - 1}
  }

  ghost predicate Hits(ws: seq<Write>, a: int)
  {
    exists i :: 0 <= i < |ws| && ws[i].addr == a
  }

  /** The writes go exactly to an area, and store what an image says. */
  ghost predicate Paints(ws: seq<Write>, image: nat -> byte, area: set<int>)
  {
    && (forall i :: 0 <= i < |ws| ==> ws[i].addr in area && ws[i].value == image(ws[i].addr))
    && (forall a :: a in area ==> Hits(ws, a))
  }

  lemma PaintsNothing(image: nat -> byte)
    ensures Paints([], image, {})
  {
  }

  lemma PaintsOne(w: Write, image: nat -> byte)
    requires w.value == image(w.addr)
    ensures Paints([w], image, {w.addr})
  {
    assert [w][0].addr == w.addr;
  }

  lemma PaintsConcat(a: seq<Write>, b: seq<Write>, image: nat -> byte, x: set<int>, y: set<int>)
    requires Paints(a, image, x) && Paints(b, image, y)
    ensures Paints(a + b, image, x + y)
  {
    forall t | t in x + y ensures Hits(a + b, t) {
      if t in x {
        var i :| 0 <= i < |a| && a[i].addr == t;
        assert (a + b)[i].addr == t;
      } else {
        var i :| 0 <= i < |b| && b[i].addr == t;
        assert (a + b)[|a| + i].addr == t;
      }
    }
  }

  /** Painting leaves the image in the area and the rest as it was, whatever the order. */
  lemma {:induction false} ApplyPaint(mem: seq<byte>, ws: seq<Write>, image: nat -> byte, a: nat)
    requires forall i :: 0 <= i < |ws| ==> ws[i].addr < |mem| && ws[i].value == image(ws[i].addr)
    requires a < |mem|
    ensures Apply(mem, ws)[a] == if Hits(ws, a) then image(a) else mem[a]
  {
    if ws != [] {
      var init, last := ws[..|ws| - 1], ws[|ws| - 1];
      ApplyPaint(mem, init, image, a);
      if Hits(init, a) {
        var i :| 0 <= i < |init| && init[i].addr == a;
        assert ws[i].addr == a;
      }
    }
  }

  // ---------------------------------------------------------------- the writes of initialisation

  function MagicWrites(c: Config, valid: bool): seq<Write>
  {
    [Write(c.magicAddr, if valid then c.magic0 else 0xFF),
     Write(c.magicAddr + 1, if valid then c.magic1 else 0xFF),
     Write(c.magicAddr + 2, if valid then c.magic2 else 0xFF)]
  }

  /** `via_set_layout_options`, least significant byte first, from the last address down. */
  function OptionWrites(c: Config, value: nat, n: nat): seq<Write>
    requires n <= c.optionsSize
  {
    if n == 0 then []
    else OptionWrites(c, value, n - 1) + [Write(c.OptionsAddr() + c.optionsSize - n, ByteAt(value, n - 1))]
  }

  /** A big-endian 16-bit code at index `k` of a table. */
  function CodeWrites(base: nat, k: nat, code: uint16): seq<Write>
  {
    [Write(base + 2 * k, code / 256), Write(base + 2 * k + 1, code % 256)]
  }

  /** The codes of a table from one index up to another. */
  function TableWrites(base: nat, lo: nat, hi: nat, code: nat -> uint16): seq<Write>
    requires lo <= hi
    decreases hi
  {
    if lo == hi then [] else TableWrites(base, lo, hi - 1, code) + CodeWrites(base, hi - 1, code(hi - 1))
  }

  /** The key at an index: layers of rows of columns. */
  function KeyCode(c: Config, flash: Flash, k: nat): uint16
  {
    if c.cols == 0 || c.rows == 0 then 0
    else flash.key((k / c.cols) / c.rows, (k / c.cols) % c.rows, k % c.cols)
  }

  /** The encoder turn at an index: layers of encoders, clockwise first. */
  function TurnCode(c: Config, flash: Flash, k: nat): uint16
  {
    if c.encoders == 0 then 0
    else flash.turn((k / 2) / c.encoders, (k / 2) % c.encoders, k % 2 == 0)
  }

  function KeyCodes(c: Config, flash: Flash): nat -> uint16 { k => KeyCode(c, flash, k) }

  function TurnCodes(c: Config, flash: Flash): nat -> uint16 { k => TurnCode(c, flash, k) }

  function LayerWrites(c: Config, flash: Flash, layer: nat): seq<Write>
  {
    LayersGrow(c, layer);
    TableWrites(c.KeymapAddr(), c.KeysBelow(layer), c.KeysBelow(layer + 1), KeyCodes(c, flash)) +
    TableWrites(c.EncoderAddr(), c.TurnsBelow(layer), c.TurnsBelow(layer + 1), TurnCodes(c, flash))
  }

  lemma LayersGrow(c: Config, layer: nat)
    ensures c.KeysBelow(layer + 1) == c.KeysBelow(layer) + c.LayerKeys()
    ensures c.TurnsBelow(layer + 1) == c.TurnsBelow(layer) + c.LayerTurns()
    ensures layer < c.layers ==> c.KeysBelow(layer + 1) <= c.Keys() && c.TurnsBelow(layer + 1) <= c.Turns()
  {
    NextMultiple(layer, c.layers, c.LayerKeys());
    NextMultiple(layer, c.layers, c.LayerTurns());
  }

  /** `dynamic_keymap_reset`, up to a layer. */
  function KeymapWrites(c: Config, flash: Flash, layers: nat): seq<Write>
  {
    if layers == 0 then [] else KeymapWrites(c, flash, layers - 1) + LayerWrites(c, flash, layers - 1)
  }

  /** `dynamic_keymap_macro_reset`, from one address up to another. */
  function ZeroWrites(lo: nat, hi: nat): seq<Write>
    requires lo <= hi
    decreases hi
  {
    if lo == hi then [] else ZeroWrites(lo, hi - 1) + [Write(hi - 1, 0)]
  }

  function DataWrites(c: Config, flash: Flash): seq<Write>
    requires c.Valid()
  {
    OptionWrites(c, c.optionsDefault, c.optionsSize) + KeymapWrites(c, flash, c.layers) +
      ZeroWrites(c.MacroAddr(), c.MacroEnd())
  }

  /** `eeconfig_init_via`. */
  function InitWrites(c: Config, flash: Flash): seq<Write>
    requires c.Valid()
  {
    MagicWrites(c, false) + DataWrites(c, flash) + MagicWrites(c, true)
  }

  // ---------------------------------------------------------------- the factory image

  /** What each address of the data area holds in a freshly initialised store. */
  function Factory(c: Config, flash: Flash, a: nat): byte
    requires c.Valid() && c.OptionsAddr() <= a
  {
    if a < c.OptionsAddr() + c.optionsSize then ByteAt(c.optionsDefault, c.OptionsAddr() + c.optionsSize - 1 - a)
    else if a < c.KeymapAddr() then 0
    else if a < c.EncoderAddr() then HalfOf(KeyCode(c, flash, (a - c.KeymapAddr()) / 2), (a - c.KeymapAddr()) % 2 == 0)
    else if a < c.MacroAddr() then HalfOf(TurnCode(c, flash, (a - c.EncoderAddr()) / 2), (a - c.EncoderAddr()) % 2 == 0)
    else 0
  }

  function HalfOf(code: uint16, high: bool): byte { if high then code / 256 else code % 256 }

  function Image(c: Config, flash: Flash): nat -> byte
    requires c.Valid()
  {
    a => if c.OptionsAddr() <= a then Factory(c, flash, a) else 0
  }

  lemma {:induction false} OptionsPainted(c: Config, value: nat, n: nat, image: nat -> byte)
    requires n <= c.optionsSize
    requires var end := c.OptionsAddr() + c.optionsSize;
      forall a :: end - n <= a < end ==> image(a) == ByteAt(value, end - 1 - a)
    ensures var end := c.OptionsAddr() + c.optionsSize;
      Paints(OptionWrites(c, value, n), image, Range(end - n, end))
  {
    hide Range, ByteAt, Paints;
    var end := c.OptionsAddr() + c.optionsSize;
    if n == 0 {
      PaintsNothing(image);
      assert Range(end, end) == {};
    } else {
      var w := Write(end - n, ByteAt(value, n - 1));
      OptionsPainted(c, value, n - 1, image);
      PaintsOne(w, image);
      PaintsConcat(OptionWrites(c, value, n - 1), [w], image, Range(end - n + 1, end), {end - n});
      assert Range(end - n + 1, end) + {end - n} == Range(end - n, end);
    }
  }

  lemma {:induction false} TablePainted(base: nat, lo: nat, hi: nat, code: nat -> uint16, image: nat -> byte)
    requires lo <= hi
    requires forall k :: lo <= k < hi ==>
      image(base + 2 * k) == code(k) / 256 && image(base + 2 * k + 1) == code(k) % 256
    ensures Paints(TableWrites(base, lo, hi, code), image, Range(base + 2 * lo, base + 2 * hi))
    decreases hi
  {
    hide Range, Paints;
    if lo == hi {
      PaintsNothing(image);
      assert Range(base + 2 * lo, base + 2 * hi) == {};
    } else {
      var k := hi - 1;
      var high, low := Write(base + 2 * k, code(k) / 256), Write(base + 2 * k + 1, code(k) % 256);
      TablePainted(base, lo, k, code, image);
      PaintsOne(high, image);
      PaintsOne(low, image);
      PaintsConcat([high], [low], image, {high.addr}, {low.addr});
      assert [high] + [low] == CodeWrites(base, k, code(k));
      PaintsConcat(TableWrites(base, lo, k, code), CodeWrites(base, k, code(k)), image,
        Range(base + 2 * lo, base + 2 * k), {high.addr} + {low.addr});
      assert Range(base + 2 * lo, base + 2 * k) + ({high.addr} + {low.addr}) == Range(base + 2 * lo, base + 2 * hi);
    }
  }

  lemma {:induction false} ZeroPainted(lo: nat, hi: nat, image: nat -> byte)
    requires lo <= hi && forall a :: lo <= a < hi ==> image(a) == 0
    ensures Paints(ZeroWrites(lo, hi), image, Range(lo, hi))
    decreases hi
  {
    hide Range, Paints;
    if lo == hi {
      PaintsNothing(image);
      assert Range(lo, hi) == {};
    } else {
      ZeroPainted(lo, hi - 1, image);
      PaintsOne(Write(hi - 1, 0), image);
      PaintsConcat(ZeroWrites(lo, hi - 1), [Write(hi - 1, 0)], image, Range(lo, hi - 1), {hi - 1});
      assert Range(lo, hi - 1) + {hi - 1} == Range(lo, hi);
    }
  }

  lemma KeyHalves(c: Config, flash: Flash, k: nat)
    requires c.Valid() && k < c.Keys()
    ensures var a := c.KeymapAddr() + 2 * k;
      Factory(c, flash, a) == KeyCode(c, flash, k) / 256 && Factory(c, flash, a + 1) == KeyCode(c, flash, k) % 256
  {
    hide KeyCode, TurnCode, ByteAt;
    var a := c.KeymapAddr() + 2 * k;
    assert (a - c.KeymapAddr()) / 2 == k && (a + 1 - c.KeymapAddr()) / 2 == k;
  }

  lemma TurnHalves(c: Config, flash: Flash, k: nat)
    requires c.Valid() && k < c.Turns()
    ensures var a := c.EncoderAddr() + 2 * k;
      Factory(c, flash, a) == TurnCode(c, flash, k) / 256 && Factory(c, flash, a + 1) == TurnCode(c, flash, k) % 256
  {
    hide KeyCode, TurnCode, ByteAt;
    var a := c.EncoderAddr() + 2 * k;
    assert (a - c.EncoderAddr()) / 2 == k && (a + 1 - c.EncoderAddr()) / 2 == k;
  }

  /** The bytes of two stretches of the key and encoder tables. */
  function TableArea(c: Config, k0: nat, k1: nat, t0: nat, t1: nat): set<int>
    requires k0 <= k1 && t0 <= t1
  {
    Range(c.KeymapAddr() + 2 * k0, c.KeymapAddr() + 2 * k1) + Range(c.EncoderAddr() + 2 * t0, c.EncoderAddr() + 2 * t1)
  }

  lemma LayerPainted(c: Config, flash: Flash, layer: nat, k0: nat, k1: nat, t0: nat, t1: nat)
    requires c.Valid() && layer < c.layers
    requires k0 == c.KeysBelow(layer) && k1 == c.KeysBelow(layer + 1) && k0 <= k1
    requires t0 == c.TurnsBelow(layer) && t1 == c.TurnsBelow(layer + 1) && t0 <= t1
    ensures Paints(LayerWrites(c, flash, layer), Image(c, flash), TableArea(c, k0, k1, t0, t1))
  {
    hide KeyCode, TurnCode, Factory, TableWrites, Paints, Range;
    LayersGrow(c, layer);
    var keys, turns := KeyCodes(c, flash), TurnCodes(c, flash);
    forall k | k0 <= k < k1
      ensures Image(c, flash)(c.KeymapAddr() + 2 * k) == keys(k) / 256 &&
        Image(c, flash)(c.KeymapAddr() + 2 * k + 1) == keys(k) % 256
    { KeyHalves(c, flash, k); }
    forall k | t0 <= k < t1
      ensures Image(c, flash)(c.EncoderAddr() + 2 * k) == turns(k) / 256 &&
        Image(c, flash)(c.EncoderAddr() + 2 * k + 1) == turns(k) % 256
    { TurnHalves(c, flash, k); }
    TablePainted(c.KeymapAddr(), k0, k1, keys, Image(c, flash));
    TablePainted(c.EncoderAddr(), t0, t1, turns, Image(c, flash));
    PaintsConcat(TableWrites(c.KeymapAddr(), k0, k1, keys), TableWrites(c.EncoderAddr(), t0, t1, turns),
      Image(c, flash), Range(c.KeymapAddr() + 2 * k0, c.KeymapAddr() + 2 * k1),
      Range(c.EncoderAddr() + 2 * t0, c.EncoderAddr() + 2 * t1));
  }

  lemma {:induction false} KeymapPainted(c: Config, flash: Flash, layers: nat)
    requires c.Valid() && layers <= c.layers
    ensures Paints(KeymapWrites(c, flash, layers), Image(c, flash),
      TableArea(c, 0, c.KeysBelow(layers), 0, c.TurnsBelow(layers)))
  {
    hide Paints, LayerWrites, Range;
    if layers > 0 {
      LayersGrow(c, layers - 1);
      var k0, k1, t0, t1 := c.KeysBelow(layers - 1), c.KeysBelow(layers), c.TurnsBelow(layers - 1),
        c.TurnsBelow(layers);
      KeymapPainted(c, flash, layers - 1);
      LayerPainted(c, flash, layers - 1, k0, k1, t0, t1);
      PaintsConcat(KeymapWrites(c, flash, layers - 1), LayerWrites(c, flash, layers - 1), Image(c, flash),
        TableArea(c, 0, k0, 0, t0), TableArea(c, k0, k1, t0, t1));
      AreasJoin(c, k0, k1, t0, t1);
    } else {
      PaintsNothing(Image(c, flash));
      assert TableArea(c, 0, 0, 0, 0) == {};
    }
  }

  lemma AreasJoin(c: Config, k0: nat, k1: nat, t0: nat, t1: nat)
    requires k0 <= k1 && t0 <= t1
    ensures TableArea(c, 0, k0, 0, t0) + TableArea(c, k0, k1, t0, t1) == TableArea(c, 0, k1, 0, t1)
  {
    hide Range;
  }

  function DataArea(c: Config): set<int>
    requires c.Valid()
  {
    Range(c.OptionsAddr(), c.OptionsAddr() + c.optionsSize) + Range(c.KeymapAddr(), c.MacroEnd())
  }

  /** The data writes fill the options, key maps and macros with the factory image, and nothing else. */
  lemma DataPainted(c: Config, flash: Flash)
    requires c.Valid()
    ensures Paints(DataWrites(c, flash), Image(c, flash), DataArea(c))
  {
    hide Paints, OptionWrites, KeymapWrites, ZeroWrites, Range;
    var options, keymap := OptionWrites(c, c.optionsDefault, c.optionsSize), KeymapWrites(c, flash, c.layers);
    OptionsPainted(c, c.optionsDefault, c.optionsSize, Image(c, flash));
    KeymapPainted(c, flash, c.layers);
    ZeroPainted(c.MacroAddr(), c.MacroEnd(), Image(c, flash));
    var x := Range(c.OptionsAddr(), c.OptionsAddr() + c.optionsSize);
    PaintsConcat(options, keymap, Image(c, flash), x, TableArea(c, 0, c.Keys(), 0, c.Turns()));
    PaintsConcat(options + keymap, ZeroWrites(c.MacroAddr(), c.MacroEnd()), Image(c, flash),
      x + TableArea(c, 0, c.Keys(), 0, c.Turns()), Range(c.MacroAddr(), c.MacroEnd()));
    assert x + TableArea(c, 0, c.Keys(), 0, c.Turns()) + Range(c.MacroAddr(), c.MacroEnd()) == DataArea(c);
  }
}
