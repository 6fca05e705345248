/** VIA initialisation under power loss: whatever the number of interruptions, a store whose magic
    reads valid is one that initialisation never left half done. */
module ViaCrash {
  import opened Keyboard
  import opened Bytes
  import opened ViaStore

  predicate Fits(c: Config, mem: seq<byte>) { c.Valid() && c.maxAddr < |mem| }

  /** `via_eeprom_is_valid`. */
  predicate MagicValid(c: Config, mem: seq<byte>)
    requires Fits(c, mem)
  {
    mem[c.magicAddr] == c.magic0 && mem[c.magicAddr + 1] == c.magic1 && mem[c.magicAddr + 2] == c.magic2
  }

  function Min(a: nat, b: nat): nat { if a < b then a else b }

  lemma InitInRange(c: Config, flash: Flash, mem: seq<byte>)
    requires Fits(c, mem)
    ensures forall i :: 0 <= i < |InitWrites(c, flash)| ==> InitWrites(c, flash)[i].addr < |mem|
  {
    hide Range;
    DataPainted(c, flash);
  }

  /** The memory when power is lost after `power` of the writes. */
  function Cut(c: Config, flash: Flash, mem: seq<byte>, power: nat): (r: seq<byte>)
    requires Fits(c, mem)
    ensures |r| == |mem|
  {
    InitInRange(c, flash, mem);
    Apply(mem, InitWrites(c, flash)[..Min(power, |InitWrites(c, flash)|)])
  }

  /** Every layout option, key map and macro byte is the factory one. */
  predicate IsFactory(c: Config, flash: Flash, mem: seq<byte>)
    requires Fits(c, mem)
  {
    forall a :: a in DataArea(c) ==> mem[a] == Factory(c, flash, a)
  }

  // ---------------------------------------------------------------- one interrupted initialisation

  lemma {:induction false} Untouched(mem: seq<byte>, ws: seq<Write>, a: nat)
    requires forall i :: 0 <= i < |ws| ==> ws[i].addr < |mem| && ws[i].addr != a
    requires a < |mem|
    ensures Apply(mem, ws)[a] == mem[a]
  {
    if ws != [] {
      Untouched(mem, ws[..|ws| - 1], a);
    }
  }

  /** While the data is being written the first magic byte stays 0xFF. */
  lemma DataKeepsMagic(c: Config, flash: Flash, mem: seq<byte>, n: nat)
    requires Fits(c, mem) && n <= |DataWrites(c, flash)|
    ensures forall i :: 0 <= i < n ==> c.OptionsAddr() <= DataWrites(c, flash)[i].addr < |mem|
    ensures var m := Apply(mem, DataWrites(c, flash)[..n]);
      forall a :: c.magicAddr <= a < c.OptionsAddr() ==> m[a] == mem[a]
  {
    hide DataWrites, Range;
    DataPainted(c, flash);
    var ws := DataWrites(c, flash)[..n];
    forall i | 0 <= i < n ensures c.OptionsAddr() <= DataWrites(c, flash)[i].addr < |mem| {
      assert DataWrites(c, flash)[i].addr in DataArea(c);
    }
    forall a | c.magicAddr <= a < c.OptionsAddr() ensures Apply(mem, ws)[a] == mem[a] {
      Untouched(mem, ws, a);
    }
  }

  lemma MagicWritten(c: Config, mem: seq<byte>, valid: bool)
    requires Fits(c, mem)
    ensures var ws := MagicWrites(c, valid);
      && Apply(mem, ws[..0]) == mem
      && Apply(mem, ws[..1]) == mem[c.magicAddr := ws[0].value]
      && Apply(mem, ws[..2]) == mem[c.magicAddr := ws[0].value][c.magicAddr + 1 := ws[1].value]
      && Apply(mem, ws)
           == mem[c.magicAddr := ws[0].value][c.magicAddr + 1 := ws[1].value][c.magicAddr + 2 := ws[2].value]
  {
    var ws := MagicWrites(c, valid);
    assert ws[..1][..0] == [] && ws[..2][..1] == ws[..1] && ws[..0] == [];
  }

  /** Once the first write is down and until the last one is, the magic is not valid. */
  lemma HalfDoneIsInvalid(c: Config, flash: Flash, mem: seq<byte>, n: nat)
    requires Fits(c, mem) && 0 < n < |InitWrites(c, flash)|
    ensures !MagicValid(c, Cut(c, flash, mem, n))
  {
    hide DataWrites;
    InitInRange(c, flash, mem);
    var off, data, on := MagicWrites(c, false), DataWrites(c, flash), MagicWrites(c, true);
    var all := off + data + on;
    MagicWritten(c, mem, false);
    if n <= 3 {
      assert all[..n] == off[..n];
      assert n == 3 ==> off[..n] == off;
    } else {
      var off' := Apply(mem, off);
      if n <= 3 + |data| {
        assert all[..n] == off + data[..n - 3];
        DataKeepsMagic(c, flash, off', n - 3);
        ApplyConcat(mem, off, data[..n - 3]);
      } else {
        var k := n - 3 - |data|;
        assert all[..n] == off + data + on[..k];
        assert data[..|data|] == data;
        DataKeepsMagic(c, flash, off', |data|);
        ApplyConcat(mem, off, data);
        ApplyConcat(mem, off + data, on[..k]);
        MagicWritten(c, Apply(off', data), true);
      }
    }
  }

  lemma CompletedIsFactory(c: Config, flash: Flash, mem: seq<byte>, n: nat)
    requires Fits(c, mem) && n >= |InitWrites(c, flash)|
    ensures MagicValid(c, Cut(c, flash, mem, n)) && IsFactory(c, flash, Cut(c, flash, mem, n))
  {
    hide DataWrites, Range, Factory, Paints;
    InitInRange(c, flash, mem);
    var off, data, on := MagicWrites(c, false), DataWrites(c, flash), MagicWrites(c, true);
    assert (off + data + on)[..|off + data + on|] == off + data + on;
    MagicWritten(c, mem, false);
    var m1 := Apply(mem, off);
    assert data[..|data|] == data;
    DataKeepsMagic(c, flash, m1, |data|);
    ApplyConcat(mem, off, data);
    ApplyConcat(mem, off + data, on);
    var m2 := Apply(m1, data);
    MagicWritten(c, m2, true);
    DataPainted(c, flash);
    forall a | a in DataArea(c) ensures m2[a] == Factory(c, flash, a) {
      PaintedCell(m1, data, c, flash, a);
    }
  }

  lemma PaintedCell(mem: seq<byte>, ws: seq<Write>, c: Config, flash: Flash, a: nat)
    requires Fits(c, mem) && Paints(ws, Image(c, flash), DataArea(c)) && a in DataArea(c)
    ensures forall i :: 0 <= i < |ws| ==> ws[i].addr < |mem|
    ensures Apply(mem, ws)[a] == Factory(c, flash, a)
  {
    hide Range, Factory;
    forall i | 0 <= i < |ws| ensures ws[i].addr < |mem| && ws[i].value == Image(c, flash)(ws[i].addr) {
      assert ws[i].addr in DataArea(c);
    }
    ApplyPaint(mem, ws, Image(c, flash), a);
  }

  // ---------------------------------------------------------------- any number of interruptions

  /** What can happen to the store: a boot (`via_init`) or a full reset (`eeconfig_init_via`) that
      gets through `power` byte writes, or edits of the data. */
  datatype Episode = Boot(power: nat) | Reset(power: nat) | Edit(writes: seq<Write>)

  predicate EpisodeOk(c: Config, e: Episode)
    requires c.Valid()
  {
    e.Edit? ==> forall i :: 0 <= i < |e.writes| ==> e.writes[i].addr in DataArea(c)
  }

  function Step(c: Config, flash: Flash, mem: seq<byte>, e: Episode): (r: seq<byte>)
    requires Fits(c, mem) && EpisodeOk(c, e)
    ensures |r| == |mem|
  {
    match e
    case Boot(power) => if MagicValid(c, mem) then mem else Cut(c, flash, mem, power)
    case Reset(power) => Cut(c, flash, mem, power)
    case Edit(writes) => Apply(mem, writes)
  }

  /** The store with atomic initialisation: it either holds contents or it is broken. */
  datatype Ideal = Broken | Holds(mem: seq<byte>)

  function FreshIdeal(c: Config, flash: Flash, size: nat): seq<byte>
    requires c.Valid()
  {
    seq(size, a requires 0 <= a => if c.OptionsAddr() <= a then Factory(c, flash, a) else 0)
  }

  function Initialise(c: Config, flash: Flash, ideal: Ideal, size: nat, power: nat): Ideal
    requires c.Valid()
  {
    if power == 0 then ideal
    else if power < |InitWrites(c, flash)| then Broken
    else Holds(FreshIdeal(c, flash, size))
  }

  ghost predicate IdealFits(ideal: Ideal, size: nat) { ideal.Holds? ==> |ideal.mem| == size }

  function AtomicStep(c: Config, flash: Flash, ideal: Ideal, size: nat, e: Episode): (r: Ideal)
    requires c.Valid() && c.maxAddr < size && IdealFits(ideal, size) && EpisodeOk(c, e)
    ensures IdealFits(r, size)
  {
    match e
    case Boot(power) => if ideal.Holds? then ideal else Initialise(c, flash, ideal, size, power)
    case Reset(power) => Initialise(c, flash, ideal, size, power)
    case Edit(writes) => if ideal.Holds? then Holds(Apply(ideal.mem, writes)) else Broken
  }

  /** The real store is valid exactly when the ideal one holds something, and then they agree on
      every layout option, key and macro byte. */
  ghost predicate Agree(c: Config, mem: seq<byte>, ideal: Ideal)
    requires Fits(c, mem)
  {
    && (MagicValid(c, mem) <==> ideal.Holds?)
    && (ideal.Holds? ==> |ideal.mem| == |mem| && forall a :: a in DataArea(c) ==> mem[a] == ideal.mem[a])
  }

  lemma {:induction false} EditAgrees(c: Config, m: seq<byte>, i: seq<byte>, ws: seq<Write>)
    requires Fits(c, m) && |i| == |m| && forall k :: 0 <= k < |ws| ==> ws[k].addr in DataArea(c)
    requires forall a :: a in DataArea(c) ==> m[a] == i[a]
    ensures forall a :: a in DataArea(c) ==> Apply(m, ws)[a] == Apply(i, ws)[a]
  {
    hide Range;
    if ws != [] {
      EditAgrees(c, m, i, ws[..|ws| - 1]);
    }
  }

  lemma CutAgrees(c: Config, flash: Flash, mem: seq<byte>, ideal: Ideal, power: nat)
    requires Fits(c, mem) && Agree(c, mem, ideal)
    ensures Agree(c, Cut(c, flash, mem, power), Initialise(c, flash, ideal, |mem|, power))
  {
    hide Range, Factory, InitWrites;
    if power == 0 {
    } else if power < |InitWrites(c, flash)| {
      HalfDoneIsInvalid(c, flash, mem, power);
    } else {
      CompletedIsFactory(c, flash, mem, power);
    }
  }

  lemma EpisodeAgrees(c: Config, flash: Flash, mem: seq<byte>, ideal: Ideal, e: Episode)
    requires Fits(c, mem) && Agree(c, mem, ideal) && EpisodeOk(c, e)
    ensures Agree(c, Step(c, flash, mem, e), AtomicStep(c, flash, ideal, |mem|, e))
  {
    hide Range, Initialise, Cut;
    match e {
      case Boot(power) => CutAgrees(c, flash, mem, ideal, power);
      case Reset(power) => CutAgrees(c, flash, mem, ideal, power);
      case Edit(writes) =>
        if ideal.Holds? {
          EditAgrees(c, mem, ideal.mem, writes);
        }
        forall a | c.magicAddr <= a < c.OptionsAddr() ensures Apply(mem, writes)[a] == mem[a] {
          Untouched(mem, writes, a);
        }
    }
  }

  ghost predicate EpisodesOk(c: Config, es: seq<Episode>)
    requires c.Valid()
  {
    forall i :: 0 <= i < |es| ==> EpisodeOk(c, es[i])
  }

  function History(c: Config, flash: Flash, mem: seq<byte>, es: seq<Episode>): (r: seq<byte>)
    requires Fits(c, mem) && forall i :: 0 <= i < |es| ==> EpisodeOk(c, es[i])
    ensures |r| == |mem|
  {
    if es == [] then mem else Step(c, flash, History(c, flash, mem, es[..|es| - 1]), es[|es| - 1])
  }

  function AtomicHistory(c: Config, flash: Flash, ideal: Ideal, size: nat, es: seq<Episode>): (r: Ideal)
    requires c.Valid() && c.maxAddr < size && IdealFits(ideal, size)
    requires forall i :: 0 <= i < |es| ==> EpisodeOk(c, es[i])
    ensures IdealFits(r, size)
  {
    if es == [] then ideal else AtomicStep(c, flash, AtomicHistory(c, flash, ideal, size, es[..|es| - 1]), size,
      es[|es| - 1])
  }

  /** Crash consistency: through any boots, resets and edits, interrupted at any byte writes, the
      store is valid exactly when the atomic one holds contents, and holds the same contents. */
  lemma {:induction false} CrashConsistent(c: Config, flash: Flash, mem: seq<byte>, es: seq<Episode>)
    requires Fits(c, mem) && EpisodesOk(c, es)
    ensures var ideal := if MagicValid(c, mem) then Holds(mem) else Broken;
      Agree(c, History(c, flash, mem, es), AtomicHistory(c, flash, ideal, |mem|, es))
  {
    if es != [] {
      hide Step, AtomicStep, Range, Agree;
      var ideal := if MagicValid(c, mem) then Holds(mem) else Broken;
      CrashConsistent(c, flash, mem, es[..|es| - 1]);
      EpisodeAgrees(c, flash, History(c, flash, mem, es[..|es| - 1]),
        AtomicHistory(c, flash, ideal, |mem|, es[..|es| - 1]), es[|es| - 1]);
    }
  }

  /** One boot that runs to its end leaves a valid store, whatever was there before. */
  lemma CompletedBootIsValid(c: Config, flash: Flash, mem: seq<byte>, power: nat)
    requires Fits(c, mem) && power >= |InitWrites(c, flash)|
    ensures var m := Step(c, flash, mem, Boot(power));
      MagicValid(c, m) && (m == mem || IsFactory(c, flash, m))
  {
    CompletedIsFactory(c, flash, mem, power);
  }

  /** A store that one build finds valid, another build finds valid exactly if it has the same three magic
      bytes; otherwise it starts initialisation. */
  lemma OtherBuildStartsAnew(c: Config, other: Config, flash: Flash, mem: seq<byte>, power: nat)
    requires Fits(c, mem) && Fits(other, mem) && c.magicAddr == other.magicAddr && MagicValid(c, mem)
    ensures var same := (c.magic0, c.magic1, c.magic2) == (other.magic0, other.magic1, other.magic2);
      && (MagicValid(other, mem) <==> same)
      && Step(other, flash, mem, Boot(power)) == if same then mem else Cut(other, flash, mem, power)
  {
    hide Cut, ViaStore.Config.KeysBelow, ViaStore.Config.TurnsBelow, ViaStore.Config.LayerKeys;
  }
}
