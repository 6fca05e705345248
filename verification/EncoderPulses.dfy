/** Rotary encoder decoding (drivers/encoder/encoder_quadrature.c): pin reads become table steps, steps
    add up in an 8-bit counter, and full counts become turn requests. */
module EncoderPulses {
  import opened Keyboard
  import opened Arithmetic

  type int8 = n: int | -128 <= n < 128

  /** Two pin levels, pad A in bit 0 and pad B in bit 1. */
  type Pins = n: int | 0 <= n < 4

  datatype Turn = CounterClockwise | Clockwise

  const LUT: seq<int8> := [0, -1, 1, 0, 1, 0, 0, -1, -1, 0, 0, 1, 0, 1, -1, 0]

  function ToInt8(n: int): int8 { (n + 128) % 256 - 128 }

  /** The remainder of C: truncated toward zero. */
  function Remainder(n: int, d: nat): int
    requires d > 0
  {
    if n >= 0 then n % d else -((-n) % d)
  }

  /** The table step between two pairs of levels. */
  function Step(from: Pins, to: Pins): int { LUT[from * 4 + to] }

  predicate Residue(pulses: int, resolution: int) { -resolution < pulses < resolution }

  /** One encoder: its pin history and its pulse count. */
  datatype Wheel = Wheel(state: uint8, pulses: int8)

  /** The pulse count after a step, before the remainder is taken. */
  function Counted(pulses: int8, state: uint8): int8 { ToInt8(pulses + LUT[state % 16]) }

  function Requests(count: int8, resolution: uint8): seq<Turn>
  {
    (if count >= resolution then [CounterClockwise] else []) + (if count + resolution <= 0 then [Clockwise] else [])
  }

  /** `encoder_handle_state_change`. */
  function Change(pulses: int8, state: uint8, resolution: uint8): (Wheel, seq<Turn>)
    requires resolution > 0
  {
    var count := Counted(pulses, state);
    RemainderFits(count, resolution);
    (Wheel(state, Remainder(count, resolution)), Requests(count, resolution))
  }

  lemma RemainderFits(n: int, d: int)
    requires d > 0 && -128 <= n < 128
    ensures -128 <= Remainder(n, d) < 128 && -d < Remainder(n, d) < d
    ensures -d < n < d ==> Remainder(n, d) == n
    ensures n == d || n == -d ==> Remainder(n, d) == 0
  {
    var m: nat := if n >= 0 then n else -n;
    Quotient(m, d);
    if m < d {
      DivMod(0, d, m);
    } else if m == d {
      DivMod(1, d, 0);
    }
  }

  lemma Quotient(m: nat, d: nat)
    requires d > 0
    ensures 0 <= m % d <= m && m % d < d
  {
  }

  /** Two more levels in the 8-bit history. */
  function Shifted(state: uint8, pins: Pins): uint8 { (state % 64) * 4 + pins }

  /** `encoder_quadrature_handle_read`: equal levels are ignored, others are shifted in. */
  function Read(w: Wheel, pins: Pins, resolution: uint8): (Wheel, seq<Turn>)
    requires resolution > 0
  {
    if w.state % 4 == pins then (w, []) else Change(w.pulses, Shifted(w.state, pins), resolution)
  }

  function Run(w: Wheel, trace: seq<Pins>, resolution: uint8): (Wheel, seq<Turn>)
    requires resolution > 0
  {
    if trace == [] then (w, [])
    else
      var before := Run(w, trace[..|trace| - 1], resolution);
      var after := Read(before.0, trace[|trace| - 1], resolution);
      (after.0, before.1 + after.1)
  }

  // ---------------------------------------------------------------- what the reads say

  function Last(from: Pins, trace: seq<Pins>): Pins
  {
    if trace == [] then from else trace[|trace| - 1]
  }

  /** The sum of the table steps along a trace. */
  function Sum(from: Pins, trace: seq<Pins>): int
  {
    if trace == [] then 0
    else
      var init := trace[..|trace| - 1];
      Sum(from, init) + Step(Last(from, init), trace[|trace| - 1])
  }

  /** Both levels differ, so that the direction is unknown. */
  predicate Skips(a: Pins, b: Pins) { a + b == 3 }

  /** How often both levels changed at once. */
  function Skipped(from: Pins, trace: seq<Pins>): nat
  {
    if trace == [] then 0
    else
      var init := trace[..|trace| - 1];
      Skipped(from, init) + if Skips(Last(from, init), trace[|trace| - 1]) then 1 else 0
  }

  /** Where in the Gray cycle 00, 10, 11, 01 the levels stand. */
  function Position(pins: Pins): int
  {
    match pins
    case 0 => 0
    case 2 => 1
    case 3 => 2
    case 1 => 3
  }

  lemma StepSize(a: Pins, b: Pins)
    ensures -1 <= Step(a, b) <= 1 && (a == b ==> Step(a, b) == 0)
  {
  }

  lemma StepMoves(a: Pins, b: Pins)
    ensures (Position(b) - Position(a) - Step(a, b) - if Skips(a, b) then 2 else 0) % 4 == 0
  {
  }

  /** The steps follow the Gray position, but for half a cycle at each skipped level; so on glitch-free
      traces they agree with it, and on others exactly when an even number was skipped. */
  lemma {:induction false} SumFollowsPosition(from: Pins, trace: seq<Pins>)
    ensures (Position(Last(from, trace)) - Position(from) - Sum(from, trace) - 2 * Skipped(from, trace)) % 4 == 0
    ensures (Position(Last(from, trace)) - Position(from) - Sum(from, trace)) % 4 == 0 <==>
      Skipped(from, trace) % 2 == 0
  {
    hide Position;
    if trace != [] {
      hide Skips, Step;
      var init := trace[..|trace| - 1];
      SumFollowsPosition(from, init);
      var a, b := Last(from, init), trace[|trace| - 1];
      StepMoves(a, b);
      AddMod4(Position(a) - Position(from) - Sum(from, init) - 2 * Skipped(from, init),
        Position(b) - Position(a) - Step(a, b) - if Skips(a, b) then 2 else 0);
    }
    Half(Position(Last(from, trace)) - Position(from) - Sum(from, trace), Skipped(from, trace));
  }

  lemma AddMod4(a: int, b: int)
    requires a % 4 == 0 && b % 4 == 0
    ensures (a + b) % 4 == 0
  {
  }

  lemma Half(a: int, n: nat)
    ensures (a - 2 * n) % 4 == 0 ==> (a % 4 == 0 <==> n % 2 == 0)
  {
    if n % 2 == 0 {
      assert 2 * n == 4 * (n / 2);
    } else {
      assert 2 * n == 4 * (n / 2) + 2;
    }
  }

  // ---------------------------------------------------------------- what the counter makes of it

  function Net(turns: seq<Turn>): int
  {
    if turns == [] then 0 else Net(turns[..|turns| - 1]) + if turns[|turns| - 1].CounterClockwise? then 1 else -1
  }

  lemma NetOne(turns: seq<Turn>, t: Turn)
    ensures Net(turns + [t]) == Net(turns) + if t.CounterClockwise? then 1 else -1
  {
    assert (turns + [t])[..|turns|] == turns;
  }

  /** The counter's law for a trace: every step is in the requests or in the residue. */
  predicate Accounted(w: Wheel, trace: seq<Pins>, resolution: uint8)
    requires resolution > 0
  {
    var (end, turns) := Run(w, trace, resolution);
    && w.pulses + Sum(w.state % 4, trace) == resolution * Net(turns) + end.pulses
    && Residue(end.pulses, resolution)
  }

  /** The history's low bits are the last levels read. */
  lemma {:induction false} HistoryEnds(w: Wheel, trace: seq<Pins>, resolution: uint8)
    requires resolution > 0
    ensures Run(w, trace, resolution).0.state % 4 == Last(w.state % 4, trace)
  {
    if trace != [] {
      hide Read;
      var init := trace[..|trace| - 1];
      HistoryEnds(w, init, resolution);
      ReadEnds(Run(w, init, resolution).0, trace[|trace| - 1], resolution);
    }
  }

  lemma ReadEnds(w: Wheel, pins: Pins, resolution: uint8)
    requires resolution > 0
    ensures Read(w, pins, resolution).0.state % 4 == pins
  {
    hide Counted, Requests, Remainder;
  }

  lemma StateBits(state: uint8, pins: Pins)
    ensures Shifted(state, pins) % 16 == (state % 4) * 4 + pins
    ensures LUT[Shifted(state, pins) % 16] == Step(state % 4, pins)
  {
    hide LUT;
    assert state % 64 == 4 * ((state % 64) / 4) + state % 4;
  }

  /** One read adds its table step, once: unchanged levels have step 0. */
  lemma ReadAccounts(w: Wheel, pins: Pins, resolution: uint8)
    requires 0 < resolution < 128 && Residue(w.pulses, resolution)
    ensures var (end, turns) := Read(w, pins, resolution);
      && w.pulses + Step(w.state % 4, pins) == resolution * Net(turns) + end.pulses
      && Residue(end.pulses, resolution) && |turns| <= 1
  {
    hide LUT, Step, Remainder, Shifted;
    StateBits(w.state, pins);
    var count := w.pulses + Step(w.state % 4, pins);
    StepSize(w.state % 4, pins);
    RemainderFits(count, resolution);
    assert Net([]) == 0;
    NetOne([], CounterClockwise);
    NetOne([], Clockwise);
    assert [] + [CounterClockwise] == [CounterClockwise] && [] + [Clockwise] == [Clockwise];
  }

  lemma NetJoins(a: seq<Turn>, b: seq<Turn>)
    requires |b| <= 1
    ensures Net(a + b) == Net(a) + Net(b)
  {
    if b == [] {
      assert a + b == a;
    } else {
      NetOne(a, b[0]);
      NetOne([], b[0]);
      assert [] + [b[0]] == b && a + [b[0]] == a + b;
    }
  }

  lemma {:induction false} EveryStepAccounted(w: Wheel, trace: seq<Pins>, resolution: uint8)
    requires 0 < resolution < 128 && Residue(w.pulses, resolution)
    ensures Accounted(w, trace, resolution)
  {
    if trace == [] {
      assert Net([]) == 0;
    } else {
      hide Read, Step;
      var init, pins := trace[..|trace| - 1], trace[|trace| - 1];
      EveryStepAccounted(w, init, resolution);
      HistoryEnds(w, init, resolution);
      var before := Run(w, init, resolution);
      var after := Read(before.0, pins, resolution);
      ReadAccounts(before.0, pins, resolution);
      NetJoins(before.1, after.1);
      Distribute(resolution, Net(before.1), Net(after.1));
    }
  }

  lemma Distribute(a: nat, b: int, c: int)
    ensures a * (b + c) == a * b + a * c
  {
  }

  // ---------------------------------------------------------------- too large a resolution

  /** Round and round, one step forward at a time. */
  function Forward(n: nat): (r: seq<Pins>)
    ensures |r| == n
  {
    if n == 0 then [] else Forward(n - 1) + [ForwardAt(n)]
  }

  function ForwardAt(n: nat): Pins
  {
    match n % 4
    case 0 => 0
    case 1 => 2
    case 2 => 3
    case _ => 1
  }

  lemma ForwardStep(n: nat)
    requires n > 0
    ensures Step(ForwardAt(n - 1), ForwardAt(n)) == 1 && ForwardAt(n - 1) != ForwardAt(n)
  {
  }

  lemma {:induction false} ForwardSum(n: nat)
    ensures Sum(0, Forward(n)) == n && Last(0, Forward(n)) == ForwardAt(n)
  {
    if n > 0 {
      hide Step, ForwardAt;
      ForwardSum(n - 1);
      ForwardStep(n);
      assert Forward(n)[..n - 1] == Forward(n - 1);
    }
  }

  lemma ForwardRead(w: Wheel, n: nat, resolution: uint8)
    requires 0 < n <= 127 < resolution && w.pulses == n - 1 && w.state % 4 == ForwardAt(n - 1)
    ensures Read(w, ForwardAt(n), resolution).0.pulses == n && Read(w, ForwardAt(n), resolution).1 == []
  {
    hide Remainder, ForwardAt, Step, LUT;
    ForwardStep(n);
    StateBits(w.state, ForwardAt(n));
    RemainderFits(n, resolution);
  }

  lemma {:induction false} ForwardCounts(n: nat, resolution: uint8)
    requires n <= 127 < resolution
    ensures Run(Wheel(0, 0), Forward(n), resolution).0.pulses == n
    ensures Run(Wheel(0, 0), Forward(n), resolution).1 == []
  {
    if n > 0 {
      hide ForwardAt, Read;
      ForwardCounts(n - 1, resolution);
      assert Forward(n)[..n - 1] == Forward(n - 1);
      HistoryEnds(Wheel(0, 0), Forward(n - 1), resolution);
      ForwardSum(n - 1);
      ForwardRead(Run(Wheel(0, 0), Forward(n - 1), resolution).0, n, resolution);
    }
  }

  /** From 128 on the 8-bit counter wraps first: 128 steps forward are lost, or requested backward. */
  lemma WrapLosesSteps(resolution: uint8)
    requires resolution >= 128
    ensures !Accounted(Wheel(0, 0), Forward(128), resolution)
  {
    hide Remainder, Sum, ForwardAt, Step, LUT;
    ForwardStep(128);
    var w := Run(Wheel(0, 0), Forward(127), resolution).0;
    ForwardCounts(127, resolution);
    HistoryEnds(Wheel(0, 0), Forward(127), resolution);
    ForwardSum(127);
    ForwardSum(128);
    assert Forward(128)[..127] == Forward(127);
    StateBits(w.state, ForwardAt(128));
    RemainderFits(-128, resolution);
    assert Net([]) == 0;
    NetOne([], Clockwise);
    assert [] + [Clockwise] == [Clockwise];
  }

  /** Over every trace the counter accounts for every step exactly when the resolution fits its type. */
  lemma AccountedIff(resolution: uint8)
    requires resolution > 0
    ensures (forall w: Wheel, trace: seq<Pins> :: Residue(w.pulses, resolution) ==> Accounted(w, trace, resolution))
      <==> resolution < 128
  {
    hide Accounted;
    if resolution < 128 {
      forall w: Wheel, trace: seq<Pins> | Residue(w.pulses, resolution) ensures Accounted(w, trace, resolution) {
        EveryStepAccounted(w, trace, resolution);
      }
    } else {
      WrapLosesSteps(resolution);
    }
  }

  /** At the default resolution a glitch-free trace that ends where it began leaves the residue it
      began with, modulo a cycle: turns do not drift against detents. */
  lemma DetentsDoNotDrift(w: Wheel, trace: seq<Pins>)
    requires w.pulses == 0 && Skipped(w.state % 4, trace) % 2 == 0 && Last(w.state % 4, trace) == w.state % 4
    ensures Run(w, trace, 4).0.pulses == 0
    ensures Sum(w.state % 4, trace) == 4 * Net(Run(w, trace, 4).1)
  {
    hide Run, Sum, Skipped, Last, Net;
    EveryStepAccounted(w, trace, 4);
    SumFollowsPosition(w.state % 4, trace);
  }
}
