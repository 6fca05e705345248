/** The encoder event queue (quantum/encoder.c) and the driver that feeds it
    (drivers/encoder/encoder_quadrature.c). */
module Encoder {
  import opened Keyboard
  import opened Arithmetic
  import opened EncoderPulses

  /** The index is a 7-bit field. */
  datatype Spin = Spin(index: uint8, clockwise: bool)

  function NewSpin(index: uint8, clockwise: bool): Spin { Spin(index % 128, clockwise) }

  /** The cell `i` places on in a ring of `n`. */
  function Along(from: nat, i: nat, n: nat): (r: nat)
    requires from < n && i <= n
    ensures r < n
  {
    if from + i < n then from + i else from + i - n
  }

  /** How far apart two positions of a ring of `n` are. */
  function Distance(tail: nat, head: nat, n: nat): (r: nat)
    requires tail < n && head < n
    ensures r < n && Along(tail, r, n) == head
  {
    if tail <= head then head - tail else head + n - tail
  }

  lemma NextCell(i: nat, n: nat)
    requires i < n
    ensures (i + 1) % n == Along(i, 1, n)
  {
    if i + 1 < n {
      DivMod(0, n, i + 1);
    } else {
      DivMod(1, n, 0);
    }
  }

  /** The events of a ring from its tail up to its head. */
  function Waiting(cells: seq<Spin>, tail: nat, head: nat): (r: seq<Spin>)
    requires tail < |cells| && head < |cells|
    ensures |r| == Distance(tail, head, |cells|)
  {
    seq<Spin>(Distance(tail, head, |cells|), (i: nat) requires i < |cells| => cells[Along(tail, i, |cells|)])
  }

  lemma WaitingAppends(cells: seq<Spin>, tail: nat, head: nat, spin: Spin)
    requires tail < |cells| && head < |cells| && Along(head, 1, |cells|) != tail
    ensures Waiting(cells[head := spin], tail, Along(head, 1, |cells|)) == Waiting(cells, tail, head) + [spin]
  {
  }

  lemma WaitingDrops(cells: seq<Spin>, tail: nat, head: nat)
    requires tail < |cells| && head < |cells| && head != tail
    ensures Waiting(cells, tail, head) == [cells[tail]] + Waiting(cells, Along(tail, 1, |cells|), head)
  {
  }

  /** The 8-bit counters stay as far apart as the ring is filled. */
  lemma CountersApart(enqueued: uint8, dequeued: uint8)
    ensures (enqueued - dequeued) % 256 < 255 ==>
      ((enqueued + 1) % 256 - dequeued) % 256 == (enqueued - dequeued) % 256 + 1
    ensures (enqueued - dequeued) % 256 > 0 ==>
      (enqueued - (dequeued + 1) % 256) % 256 == (enqueued - dequeued) % 256 - 1
  {
    assert (enqueued - dequeued) % 256 ==
      if enqueued >= dequeued then enqueued as int - dequeued else enqueued as int - dequeued + 256;
  }

  class EventQueue {
    var enqueued: uint8
    var dequeued: uint8
    var head: uint8
    var tail: uint8
    const queue: array<Spin>

    ghost predicate Valid()
      reads this
    {
      && 1 <= queue.Length <= 256 && head < queue.Length && tail < queue.Length
      && (enqueued - dequeued) % 256 == Distance(tail, head, queue.Length)
    }

    /** The waiting events, oldest first. */
    ghost function Contents(): (s: seq<Spin>)
      requires Valid()
      reads this, queue
      ensures |s| == (enqueued - dequeued) % 256 < queue.Length
    {
      Waiting(queue[..], tail, head)
    }

    constructor (capacity: nat)
      requires 1 <= capacity <= 256
      ensures Valid() && fresh(queue) && queue.Length == capacity && Contents() == []
    {
      queue := new Spin[capacity](_ => Spin(0, false));
      enqueued, dequeued, head, tail := 0, 0, 0, 0;
    }

    /** One cell stays free, so that a full ring differs from an empty one. */
    method Full() returns (r: bool)
      requires Valid()
      ensures r <==> |Contents()| == queue.Length - 1
    {
      NextCell(head, queue.Length);
      r := tail == (head + 1) % queue.Length;
    }

    method Empty() returns (r: bool)
      requires Valid()
      ensures r <==> Contents() == []
    {
      r := head == tail;
    }

    /** Appends the event, or drops it when the ring is full. */
    method Queue(index: uint8, clockwise: bool) returns (ok: bool)
      requires Valid()
      modifies this, queue
      ensures Valid()
      ensures Contents() == Offered(old(Contents()), NewSpin(index, clockwise), queue.Length - 1)
      ensures ok <==> |old(Contents())| < queue.Length - 1
      ensures dequeued == old(dequeued) && enqueued == (old(enqueued) + if ok then 1 else 0) % 256
    {
      hide Waiting;
      var full := Full();
      if full {
        return false;
      }
      NextCell(head, queue.Length);
      WaitingAppends(queue[..], tail, head, NewSpin(index, clockwise));
      CountersApart(enqueued, dequeued);
      queue[head] := NewSpin(index, clockwise);
      head := (head + 1) % queue.Length;
      enqueued := (enqueued + 1) % 256;
      return true;
    }

    /** Takes out the oldest event. */
    method Dequeue() returns (ok: bool, index: uint8, clockwise: bool)
      requires Valid()
      modifies this
      ensures Valid()
      ensures ok <==> old(Contents()) != []
      ensures ok ==> Spin(index, clockwise) == old(Contents())[0] && Contents() == old(Contents())[1..]
      ensures !ok ==> Contents() == []
      ensures enqueued == old(enqueued) && dequeued == (old(dequeued) + if ok then 1 else 0) % 256
    {
      hide Waiting;
      var empty := Empty();
      if empty {
        return false, 0, false;
      }
      var event := queue[tail];
      NextCell(tail, queue.Length);
      WaitingDrops(queue[..], tail, head);
      CountersApart(enqueued, dequeued);
      tail := (tail + 1) % queue.Length;
      dequeued := (dequeued + 1) % 256;
      return true, event.index, event.clockwise;
    }

    /** Drops whatever waits. */
    method Drain()
      requires Valid()
      modifies this
      ensures Valid() && Contents() == [] && enqueued == old(enqueued)
    {
      tail := head;
      dequeued := enqueued;
    }
  }

  function Offered(waiting: seq<Spin>, spin: Spin, room: nat): seq<Spin>
  {
    if |waiting| < room then waiting + [spin] else waiting
  }

  /** The encoders of one half of the keyboard. */
  class Quadrature {
    const resolutions: seq<uint8>
    const offset: uint8
    const flipped: bool
    const state: array<uint8>
    const pulses: array<int8>
    const events: EventQueue

    ghost predicate Valid()
      reads this, events
    {
      && state.Length == pulses.Length && (state as object) != pulses && offset + state.Length <= |resolutions| <= 256
      && (forall i :: 0 <= i < |resolutions| ==> resolutions[i] > 0)
      && events.Valid()
    }

    constructor (count: nat, resolutions: seq<uint8>, offset: uint8, flipped: bool, events: EventQueue)
      requires events.Valid() && offset + count <= |resolutions| <= 256
      requires forall i :: 0 <= i < |resolutions| ==> resolutions[i] > 0
      ensures Valid() && state.Length == count && fresh(state) && fresh(pulses) && this.events == events
      ensures this.resolutions == resolutions && this.offset == offset && this.flipped == flipped
      ensures forall i :: 0 <= i < count ==> WheelAt(i) == Wheel(0, 0)
    {
      this.resolutions, this.offset, this.flipped, this.events := resolutions, offset, flipped, events;
      state, pulses := new uint8[count](_ => 0), new int8[count](_ => 0);
    }

    ghost function WheelAt(i: nat): Wheel
      requires Valid() && i < state.Length
      reads this, events, state, pulses
    {
      Wheel(state[i], pulses[i])
    }

    /** The events that turn requests become. */
    function Spins(index: uint8, turns: seq<Turn>): (r: seq<Spin>)
      ensures |r| == |turns|
    {
      if turns == [] then []
      else Spins(index, turns[..|turns| - 1]) + [NewSpin(index, turns[|turns| - 1].Clockwise? != flipped)]
    }

    /** The events that a full count asks for. */
    method QueueRequests(index: uint8, count: int8, resolution: uint8)
      requires events.Valid() && resolution > 0
      modifies events, events.queue
      ensures events.Valid()
      ensures events.Contents() == OfferedAll(old(events.Contents()), Spins(index, Requests(count, resolution)),
        events.queue.Length - 1)
    {
      OneRequest(this, index, count, resolution, events.Contents(), events.queue.Length - 1);
      hide Offered, NewSpin, Waiting, OfferedAll, Requests;
      if count >= resolution {
        var _ := events.Queue(index, flipped);
      }
      if count + resolution <= 0 {
        var _ := events.Queue(index, !flipped);
      }
    }

    method HandleStateChange(i: nat, pinHistory: uint8)
      requires Valid() && i < state.Length
      modifies pulses, events, events.queue
      ensures Valid()
      ensures pulses[i] == Change(old(pulses[i]), pinHistory, resolutions[offset + i]).0.pulses
      ensures forall j :: 0 <= j < pulses.Length && j != i ==> pulses[j] == old(pulses[j])
      ensures events.Contents() == OfferedAll(old(events.Contents()),
        Spins(offset + i, Change(old(pulses[i]), pinHistory, resolutions[offset + i]).1), events.queue.Length - 1)
    {
      hide Remainder, Counted, Waiting, OfferedAll, Requests;
      var resolution := resolutions[offset + i];
      pulses[i] := Counted(pulses[i], pinHistory);
      QueueRequests(offset + i, pulses[i], resolution);
      RemainderFits(pulses[i], resolution);
      pulses[i] := Remainder(pulses[i], resolution);
    }

    /** One encoder takes one read; the others keep their state, and what it requests is queued. */
    method HandleRead(i: nat, pinA: bool, pinB: bool)
      requires Valid() && i < state.Length
      modifies state, pulses, events, events.queue
      ensures Valid()
      ensures WheelAt(i) == Read(old(WheelAt(i)), Levels(pinA, pinB), resolutions[offset + i]).0
      ensures forall j :: 0 <= j < state.Length && j != i ==> WheelAt(j) == old(WheelAt(j))
      ensures events.Contents() == OfferedAll(old(events.Contents()),
        Spins(offset + i, Read(old(WheelAt(i)), Levels(pinA, pinB), resolutions[offset + i]).1),
        events.queue.Length - 1)
    {
      hide Remainder, Counted, Requests, Shifted, Waiting;
      var pins := Levels(pinA, pinB);
      if state[i] % 4 != pins {
        state[i] := Shifted(state[i], pins);
        HandleStateChange(i, state[i]);
      } else {
        assert Spins(offset + i, []) == [];
      }
    }
  }

  /** A clockwise turn is queued as clockwise, unless the direction is flipped. */
  lemma SpinsAsTurned(q: Quadrature, index: uint8)
    ensures q.Spins(index, [Clockwise]) == [Spin(index % 128, !q.flipped)]
    ensures q.Spins(index, [CounterClockwise]) == [Spin(index % 128, q.flipped)]
  {
    assert [Clockwise][..0] == [] && [CounterClockwise][..0] == [] && q.Spins(index, []) == [];
  }

  function Levels(pinA: bool, pinB: bool): Pins { (if pinA then 1 else 0) + if pinB then 2 else 0 }

  /** The levels one detent goes through: clockwise, pad A leads. */
  function Click(turn: Turn): seq<Pins>
  {
    if turn.Clockwise? then [Levels(true, false), Levels(true, true), Levels(false, true), Levels(false, false)]
    else [Levels(false, true), Levels(true, true), Levels(true, false), Levels(false, false)]
  }

  function Clicks(turns: seq<Turn>): seq<Pins>
  {
    if turns == [] then [] else Clicks(turns[..|turns| - 1]) + Click(turns[|turns| - 1])
  }

  /** At rest in a detent. */
  predicate Rests(w: Wheel) { w.state % 4 == 0 && w.pulses == 0 }

  /** At the default resolution, any clicks in either direction are requested, in order, and no others. */
  lemma {:induction false} ClicksRequested(w: Wheel, turns: seq<Turn>)
    requires Rests(w)
    ensures Rests(Run(w, Clicks(turns), 4).0) && Run(w, Clicks(turns), 4).1 == turns
  {
    hide Read;
    if turns != [] {
      var init, turn := turns[..|turns| - 1], turns[|turns| - 1];
      ClicksRequested(w, init);
      RunFourMore(w, Clicks(init), Click(turn));
      ClickRequested(Run(w, Clicks(init), 4).0, turn);
      assert turns == init + [turn];
    }
  }

  /** Four reads on end. */
  function Four(w: Wheel, pins: seq<Pins>): (Wheel, seq<Turn>)
    requires |pins| == 4
  {
    var a := Read(w, pins[0], 4);
    var b := Read(a.0, pins[1], 4);
    var c := Read(b.0, pins[2], 4);
    var d := Read(c.0, pins[3], 4);
    (d.0, a.1 + b.1 + c.1 + d.1)
  }

  lemma ClickRequested(w: Wheel, turn: Turn)
    requires Rests(w)
    ensures Rests(Four(w, Click(turn)).0) && Four(w, Click(turn)).1 == [turn]
  {
    hide Read;
    var pins := Click(turn);
    QuarterTurn(w, pins[0]);
    var a := Read(w, pins[0], 4).0;
    QuarterTurn(a, pins[1]);
    var b := Read(a, pins[1], 4).0;
    QuarterTurn(b, pins[2]);
    QuarterTurn(Read(b, pins[2], 4).0, pins[3]);
  }

  /** One change of levels. */
  lemma QuarterTurn(w: Wheel, to: Pins)
    requires -4 < w.pulses < 4 && w.state % 4 != to
    ensures var (after, turns) := Read(w, to, 4);
      var count := w.pulses + Step(w.state % 4, to);
      && after.state % 4 == to && turns == Requests(count, 4)
      && after.pulses == if -4 < count < 4 then count else 0
  {
    hide LUT, Step, Remainder, Shifted;
    ReadEnds(w, to, 4);
    StateBits(w.state, to);
    StepSize(w.state % 4, to);
    RemainderFits(w.pulses + Step(w.state % 4, to), 4);
  }

  lemma RunOneMore(w: Wheel, trace: seq<Pins>, pins: Pins)
    ensures var before := Run(w, trace, 4);
      Run(w, trace + [pins], 4) == (Read(before.0, pins, 4).0, before.1 + Read(before.0, pins, 4).1)
  {
    hide Read;
    assert (trace + [pins])[..|trace|] == trace;
  }

  lemma RunFourMore(w: Wheel, trace: seq<Pins>, pins: seq<Pins>)
    requires |pins| == 4
    ensures var before := Run(w, trace, 4);
      Run(w, trace + pins, 4) == (Four(before.0, pins).0, before.1 + Four(before.0, pins).1)
  {
    hide Read, Run;
    RunOneMore(w, trace, pins[0]);
    RunOneMore(w, trace + pins[..1], pins[1]);
    RunOneMore(w, trace + pins[..2], pins[2]);
    RunOneMore(w, trace + pins[..3], pins[3]);
    var r, a := Run(w, trace, 4), Read(Run(w, trace, 4).0, pins[0], 4);
    var b := Read(a.0, pins[1], 4);
    var c := Read(b.0, pins[2], 4);
    var d := Read(c.0, pins[3], 4);
    assert r.1 + a.1 + b.1 + c.1 + d.1 == r.1 + (a.1 + b.1 + c.1 + d.1);
    assert trace + pins[..1] == trace + [pins[0]] && trace + pins[..2] == trace + pins[..1] + [pins[1]];
    assert trace + pins[..3] == trace + pins[..2] + [pins[2]] && trace + pins == trace + pins[..3] + [pins[3]];
  }

  function OfferedAll(waiting: seq<Spin>, spins: seq<Spin>, room: nat): seq<Spin>
  {
    if spins == [] then waiting else Offered(OfferedAll(waiting, spins[..|spins| - 1], room), spins[|spins| - 1], room)
  }

  lemma OneRequest(q: Quadrature, index: uint8, count: int8, resolution: uint8, waiting: seq<Spin>, room: nat)
    requires resolution > 0
    ensures OfferedAll(waiting, q.Spins(index, Requests(count, resolution)), room) ==
      if count >= resolution then Offered(waiting, NewSpin(index, q.flipped), room)
      else if count + resolution <= 0 then Offered(waiting, NewSpin(index, !q.flipped), room)
      else waiting
  {
    assert forall t: Turn :: [t][..0] == [];
    assert q.Spins(index, []) == [] && OfferedAll(waiting, [], room) == waiting;
    assert forall t: Turn :: q.Spins(index, [t]) == [NewSpin(index, t.Clockwise? != q.flipped)];
    assert forall s: Spin :: [s][..0] == [];
    assert forall s: Spin :: OfferedAll(waiting, [s], room) == Offered(waiting, s, room);
  }
}
