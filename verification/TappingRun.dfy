/** Whole runs of the tap/hold engine, and conservation: no event is lost or duplicated. */
module TappingRun {
  import opened Keyboard
  import opened TappingSpec

  // ---------------------------------------------------------------- runs

  /** One call of `action_exec`: an event, and the decisions in force while it is handled. */
  datatype Input = Input(event: Event, env: Env)

  function Run(inputs: seq<Input>): State
  {
    if inputs == [] then INITIAL
    else
      var last := inputs[|inputs| - 1];
      Step(Run(inputs[..|inputs| - 1]), last.event, last.env)
  }

  lemma NextStep(inputs: seq<Input>, n: nat)
    requires n < |inputs|
    ensures Run(inputs[..0]) == INITIAL
    ensures Run(inputs[..n + 1]) == Step(Run(inputs[..n]), inputs[n].event, inputs[n].env)
  {
    assert inputs[..n + 1][..n] == inputs[..n];
  }

  /** The key events of a run. */
  function KeyEvents(inputs: seq<Input>): seq<Event>
  {
    if inputs == [] then []
    else
      var last := inputs[|inputs| - 1];
      KeyEvents(inputs[..|inputs| - 1]) + (if last.event.IsTick() then [] else [last.event])
  }

  /** The key events since the last overflow, which clears everything. */
  function Live(inputs: seq<Input>): seq<Event>
  {
    if inputs == [] then []
    else
      var init, last := inputs[..|inputs| - 1], inputs[|inputs| - 1];
      if Overflows(Run(init), last.event, last.env) then []
      else Live(init) + (if last.event.IsTick() then [] else [last.event])
  }

  /** The events handed on since the last overflow, made-up releases aside. */
  function HandedOn(out: Trace): seq<Event>
  {
    if out == [] then []
    else
      var last := out[|out| - 1];
      if last.Cleared? then []
      else HandedOn(out[..|out| - 1]) + (if last.origin.Synthetic? then [] else [last.rec.event])
  }

  function Arriving(e: Event): seq<Event> { if e.IsTick() then [] else [e] }

  function Held(slot: Record): seq<Event>
  {
    if Unsettled(slot) then [slot.event] else []
  }

  function Events(queue: seq<Record>): seq<Event>
  {
    seq(|queue|, i requires 0 <= i < |queue| => queue[i].event)
  }

  // ---------------------------------------------------------------- state invariant

  /** A tapping key is never "released with count 0"; queued records are key events; a queued
      press has not been counted as a tap. */
  predicate Inv(s: State)
  {
    && (Idle(s.slot) || s.slot.event.pressed || s.slot.tap.count > 0)
    && (forall i :: 0 <= i < |s.queue| ==> Fresh(s.queue[i]) && !s.queue[i].event.IsTick())
  }

  predicate Fresh(r: Record) { r.event.pressed ==> r.tap.count == 0 }

  /** How one `process_tapping` call may move an event: keep it waiting, settle the slot and keep
      it waiting, put it in the slot, or hand it on (never past an undecided press of its key). */
  predicate Moves(h: seq<Event>, held: seq<Event>, e: Event, h': seq<Event>, held': seq<Event>, done: bool)
  {
    || (h' == h && held' == held && (e.IsTick() || !done))
    || (h' == h + held && held' == [] && !done)
    || (h' == h && held == [] && held' == [e] && done && !e.IsTick())
    || (h' == h + [e] && held' == held && done && !e.IsTick() && (held == [] || held[0].key != e.key))
  }

  lemma HandedOnAppend(out: Trace, o: Output)
    ensures o.Handed? ==> HandedOn(out + [o]) == HandedOn(out) + (if o.origin.Synthetic? then [] else [o.rec.event])
    ensures o.Cleared? ==> HandedOn(out + [o]) == []
  {
    assert (out + [o])[..|out|] == out;
  }

  lemma ScanTapMoves(s: State, env: Env)
    requires Inv(s) && Unsettled(s.slot)
    ensures var t := ScanTap(s, env);
      && Inv(t) && Events(t.queue) == Events(s.queue)
      && ((HandedOn(t.out) == HandedOn(s.out) && Held(t.slot) == [s.slot.event])
          || (HandedOn(t.out) == HandedOn(s.out) + [s.slot.event] && Held(t.slot) == []))
  {
    HandedOnAppend(s.out, Handed(s.slot.(tap := s.slot.tap.(count := 1)), FromSlot));
  }

  /** What every `process_tapping` call keeps. */
  predicate Conserves(s: State, r: Record, o: Outcome)
  {
    && Inv(o.state) && (!o.done ==> Fresh(o.rec)) && o.rec.event == r.event
    && Events(o.state.queue) == Events(s.queue)
    && Moves(HandedOn(s.out), Held(s.slot), r.event, HandedOn(o.state.out), Held(o.state.slot), o.done)
  }

  lemma IdleConserves(s: State, r: Record, env: Env)
    requires Inv(s) && Fresh(r) && Idle(s.slot)
    ensures Conserves(s, r, ProcessIdle(s, r, env))
  {
    hide ScanTap;
    HandedOnAppend(s.out, Handed(r, FromEvent));
    if r.event.pressed && !r.event.IsTick() {
      ScanTapMoves(s.(slot := r), env);
    }
  }

  lemma UnsettledConserves(s: State, r: Record, env: Env)
    requires Inv(s) && Fresh(r) && Unsettled(s.slot) && !r.event.IsTick()
    ensures Conserves(s, r, ProcessUnsettled(s, r, env))
  {
    hide HandedOn, Typed, Events;
    HandedOnAppend(s.out, Handed(r, FromEvent));
    HandedOnAppend(s.out, Handed(s.slot, FromSlot));
    HandedOnAppend(s.out, Handed(s.slot.(tap := s.slot.tap.(count := 1)), FromSlot));
    HandedOnAppend(s.out, Handed(s.slot.(tap := s.slot.tap.(interrupted := true)), FromSlot));
  }

  lemma TapWhileTappedConserves(s: State, r: Record, env: Env)
    requires Inv(s) && Fresh(r) && !Idle(s.slot) && s.slot.tap.count > 0 && !r.event.IsTick() && r.event.pressed
    ensures Conserves(s, r, Outcome(ScanTap(s.(slot := r), env), true, r))
    ensures var release := Record(Event(s.slot.event.key, r.event.time, s.slot.event.kind, false), s.slot.tap);
      Conserves(s, r, Outcome(ScanTap(Hand(s, release, Synthetic).(slot := r), env), true, r))
  {
    hide ScanTap;
    ScanTapMoves(s.(slot := r), env);
    var release := Record(Event(s.slot.event.key, r.event.time, s.slot.event.kind, false), s.slot.tap);
    HandedOnAppend(s.out, Handed(release, Synthetic));
    ScanTapMoves(Hand(s, release, Synthetic).(slot := r), env);
  }

  lemma TappedConserves(s: State, r: Record, within: bool, env: Env)
    requires Inv(s) && Fresh(r) && !Idle(s.slot) && s.slot.event.pressed && s.slot.tap.count > 0 && !r.event.IsTick()
    ensures Conserves(s, r, ProcessTapped(s, r, within, env))
  {
    hide HandedOn, ScanTap;
    HandedOnAppend(s.out, Handed(r, FromEvent));
    HandedOnAppend(s.out, Handed(r.(tap := s.slot.tap), FromEvent));
    if r.event.pressed {
      TapWhileTappedConserves(s, r, env);
    }
  }

  lemma ReleasedConserves(s: State, r: Record, env: Env)
    requires Inv(s) && Fresh(r) && !Idle(s.slot) && !s.slot.event.pressed && !r.event.IsTick()
    ensures Conserves(s, r, ProcessReleased(s, r, env))
  {
    hide ScanTap, HandedOn;
    var count := if s.slot.tap.count < 15 then s.slot.tap.count + 1 else s.slot.tap.count;
    HandedOnAppend(s.out, Handed(r, FromEvent));
    HandedOnAppend(s.out, Handed(r.(tap := s.slot.tap.(count := count)), FromEvent));
    if r.event.pressed {
      ScanTapMoves(s.(slot := r), env);
    }
  }

  /** The effect of one `process_tapping` call on every event in the engine. */
  lemma ProcessConserves(s: State, r: Record, env: Env)
    requires Inv(s) && Fresh(r)
    ensures Conserves(s, r, Process(s, r, env))
  {
    HandedOnAppend(s.out, Handed(s.slot, FromSlot));
    if Idle(s.slot) {
      IdleConserves(s, r, env);
    } else if r.event.IsTick() {
    } else if Unsettled(s.slot) {
      UnsettledConserves(s, r, env);
    } else if s.slot.event.pressed {
      TappedConserves(s, r, WithinTerm(s, r.event, env), env);
    } else {
      ReleasedConserves(s, r, env);
    }
  }

  // ---------------------------------------------------------------- conservation

  /** Every event the engine accounts for. */
  function Total(s: State): multiset<Event>
  {
    multiset(HandedOn(s.out)) + multiset(Held(s.slot)) + multiset(Events(s.queue))
  }

  /** The events of one key. */
  function Of(k: Key, es: seq<Event>): seq<Event>
  {
    if es == [] then []
    else (if es[0].key == k then [es[0]] else []) + Of(k, es[1..])
  }

  /** One key's events in the order the engine has them: handed on, undecided, waiting. */
  function KeyOrder(s: State, k: Key): seq<Event>
  {
    Of(k, HandedOn(s.out)) + Of(k, Held(s.slot)) + Of(k, Events(s.queue))
  }

  lemma {:induction false} OfConcat(k: Key, a: seq<Event>, b: seq<Event>)
    ensures Of(k, a + b) == Of(k, a) + Of(k, b)
  {
    if a == [] {
      assert a + b == b;
    } else {
      assert (a + b)[1..] == a[1..] + b;
      OfConcat(k, a[1..], b);
    }
  }

  lemma MovesKeepTotal(h: seq<Event>, held: seq<Event>, e: Event, h': seq<Event>, held': seq<Event>, done: bool)
    requires Moves(h, held, e, h', held', done)
    ensures multiset(h') + multiset(held')
         == multiset(h) + multiset(held) + (if done then multiset(Arriving(e)) else multiset{})
  {
  }

  lemma MovesKeepOrder(h: seq<Event>, held: seq<Event>, e: Event, h': seq<Event>, held': seq<Event>, done: bool, k: Key)
    requires Moves(h, held, e, h', held', done) && |held| <= 1
    ensures Of(k, h') + Of(k, held') == Of(k, h) + Of(k, held) + (if done then Of(k, Arriving(e)) else [])
  {
    if h' == h + held && held' == [] && !done {
      OfConcat(k, h, held);
    } else if h' == h + [e] && held' == held && done {
      OfConcat(k, h, [e]);
      if e.key == k && held != [] {
        assert Of(k, held) == [];
      }
    }
  }

  /** One turn of the drain loop: the queue's head leaves it if the record is done. */
  lemma TurnKeepsTotal(h: seq<Event>, held: seq<Event>, q: seq<Event>, h': seq<Event>, held': seq<Event>, done: bool)
    requires q != [] && !q[0].IsTick() && Moves(h, held, q[0], h', held', done)
    ensures multiset(h') + multiset(held') + multiset(if done then q[1..] else q)
         == multiset(h) + multiset(held) + multiset(q)
  {
    MovesKeepTotal(h, held, q[0], h', held', done);
    assert q == [q[0]] + q[1..];
  }

  lemma TurnKeepsOrder(h: seq<Event>, held: seq<Event>, q: seq<Event>, h': seq<Event>, held': seq<Event>, done: bool,
                       k: Key)
    requires q != [] && !q[0].IsTick() && |held| <= 1 && Moves(h, held, q[0], h', held', done)
    ensures Of(k, h') + Of(k, held') + Of(k, if done then q[1..] else q) == Of(k, h) + Of(k, held) + Of(k, q)
  {
    MovesKeepOrder(h, held, q[0], h', held', done, k);
  }

  /** The drain loop moves waiting events on without losing, duplicating or reordering any. */
  lemma {:induction false} DrainConserves(s: State, env: Env)
    requires Inv(s)
    ensures Inv(Drain(s, env))
    ensures Total(Drain(s, env)) == Total(s)
    ensures forall k :: KeyOrder(Drain(s, env), k) == KeyOrder(s, k)
    decreases |s.queue|
  {
    hide Process, Moves;
    if s.queue != [] {
      var o := Process(s, s.queue[0], env);
      ProcessConserves(s, s.queue[0], env);
      ProcessKeepsQueueLength(s, s.queue[0], env);
      var queue := o.state.queue[0 := o.rec];
      assert Events(queue) == Events(o.state.queue);
      assert Events(queue[1..]) == Events(queue)[1..];
      var t := o.state.(queue := if o.done then queue[1..] else queue);
      TurnKeepsTotal(HandedOn(s.out), Held(s.slot), Events(s.queue), HandedOn(t.out), Held(t.slot), o.done);
      forall k ensures KeyOrder(t, k) == KeyOrder(s, k) {
        TurnKeepsOrder(HandedOn(s.out), Held(s.slot), Events(s.queue), HandedOn(t.out), Held(t.slot), o.done, k);
      }
      if o.done {
        DrainConserves(o.state.(queue := queue[1..]), env);
      }
    }
  }

  lemma NothingHeld()
    ensures Held(NO_RECORD) == [] && Events([]) == []
  {
  }

  lemma AdmitConserves(s: State, r: Record, o: Outcome)
    requires Inv(s) && Conserves(s, r, o)
    ensures Inv(Admit(o))
    ensures Total(Admit(o)) == if Full(o) then multiset{} else Total(s) + multiset(Arriving(r.event))
  {
    hide Moves, HandedOn, Held;
    MovesKeepTotal(HandedOn(s.out), Held(s.slot), r.event, HandedOn(o.state.out), Held(o.state.slot), o.done);
    if Full(o) {
      HandedOnAppend(o.state.out, Cleared);
      assert Held(NO_RECORD) == [] && Events([]) == [] by { NothingHeld(); }
    } else if !o.done && !r.event.IsTick() {
      assert Events(o.state.queue + [o.rec]) == Events(o.state.queue) + [r.event];
      assert multiset(Events(Admit(o).queue)) == multiset(Events(s.queue)) + multiset([r.event]);
    }
  }

  lemma StepConserves(s: State, e: Event, env: Env)
    requires Inv(s)
    ensures Inv(Step(s, e, env))
    ensures Total(Step(s, e, env)) == if Overflows(s, e, env) then multiset{} else Total(s) + multiset(Arriving(e))
  {
    var o := Process(s, NewRecord(e), env);
    ProcessConserves(s, NewRecord(e), env);
    AdmitConserves(s, NewRecord(e), o);
    DrainConserves(Admit(o), env);
  }

  /** Conservation, for every run: each event since the last overflow is either handed on once,
      or the undecided tapping key, or waiting. The tapping key is never "released with count 0". */
  lemma {:induction false} NothingLostNothingDuplicated(inputs: seq<Input>)
    ensures Inv(Run(inputs))
    ensures multiset(Live(inputs)) == Total(Run(inputs))
  {
    if inputs != [] {
      var init, last := inputs[..|inputs| - 1], inputs[|inputs| - 1];
      NothingLostNothingDuplicated(init);
      StepConserves(Run(init), last.event, last.env);
    }
  }
}
