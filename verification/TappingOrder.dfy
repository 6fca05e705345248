/** When the tap/hold engine keeps each key's events in order, and when it does not. */
module TappingOrder {
  import opened Keyboard
  import opened TappingSpec
  import opened TappingRun

  /** No two consecutive events of a key have the same direction. */
  predicate Alternates(es: seq<Event>)
  {
    forall i :: 0 < i < |es| ==> es[i - 1].pressed != es[i].pressed
  }

  /** Does this arrival overtake an earlier event of its own key? A new event is processed before
      the waiting ones; it goes through at once unless the tapping key is undecided or was
      released more than a term ago. */
  predicate Overtakes(s: State, e: Event, env: Env)
  {
    && !e.IsTick()
    && Of(e.key, Events(s.queue)) != []
    && !Unsettled(s.slot)
    && (Idle(s.slot) || s.slot.event.pressed || WithinTerm(s, e, env))
  }

  predicate NeverOvertakes(inputs: seq<Input>)
  {
    inputs != [] ==>
      var init, last := inputs[..|inputs| - 1], inputs[|inputs| - 1];
      NeverOvertakes(init) && !Overtakes(Run(init), last.event, last.env)
  }

  lemma {:induction false} LiveIsSuffix(inputs: seq<Input>)
    ensures exists n :: 0 <= n <= |KeyEvents(inputs)| && Live(inputs) == KeyEvents(inputs)[n..]
  {
    if inputs == [] {
      assert Live(inputs) == KeyEvents(inputs)[0..];
    } else {
      var init, last := inputs[..|inputs| - 1], inputs[|inputs| - 1];
      LiveIsSuffix(init);
      var n :| 0 <= n <= |KeyEvents(init)| && Live(init) == KeyEvents(init)[n..];
      if Overflows(Run(init), last.event, last.env) {
        assert Live(inputs) == KeyEvents(inputs)[|KeyEvents(inputs)|..];
      } else {
        assert Live(inputs) == KeyEvents(inputs)[n..];
      }
    }
  }

  lemma {:induction false} OfFindsTyped(queue: seq<Record>, k: Key)
    requires Of(k, Events(queue)) != []
    ensures var last := Of(k, Events(queue))[|Of(k, Events(queue))| - 1];
      exists i :: 0 <= i < |queue| && queue[i].event.key == k && queue[i].event.pressed == last.pressed
  {
    assert Events(queue)[1..] == Events(queue[1..]);
    if Of(k, Events(queue[1..])) != [] {
      OfFindsTyped(queue[1..], k);
      var i :| 0 <= i < |queue[1..]| && queue[1..][i].event.key == k
        && queue[1..][i].event.pressed == Of(k, Events(queue[1..]))[|Of(k, Events(queue[1..]))| - 1].pressed;
      assert queue[i + 1].event.key == k;
    } else {
      assert queue[0].event.key == k;
    }
  }

  /** A waiting event of an alternating key makes the key's next event "typed". */
  lemma WaitingMeansTyped(s: State, e: Event)
    requires Alternates(KeyOrder(s, e.key) + [e])
    requires Of(e.key, Events(s.queue)) != []
    ensures Typed(s.queue, e)
    ensures var q := Of(e.key, Events(s.queue)); q[|q| - 1].pressed != e.pressed
  {
    hide HandedOn, Held, Events;
    var q, all := Of(e.key, Events(s.queue)), KeyOrder(s, e.key) + [e];
    assert all[|all| - 2] == q[|q| - 1] && all[|all| - 1] == e;
    OfFindsTyped(s.queue, e.key);
  }

  lemma OvertakesIffDone(s: State, e: Event, env: Env)
    requires Inv(s) && !e.IsTick() && Alternates(KeyOrder(s, e.key) + [e])
    requires Of(e.key, Events(s.queue)) != []
    ensures Overtakes(s, e, env) <==> Process(s, NewRecord(e), env).done
  {
    hide KeyOrder, Events, ScanTap;
    WaitingMeansTyped(s, e);
  }

  /** Admission appends to the key's order, unless an event that is done finds one waiting. */
  lemma AdmitOrder(s: State, r: Record, o: Outcome, k: Key)
    requires Conserves(s, r, o) && !Full(o)
    ensures var a, q, x := Of(k, HandedOn(s.out)) + Of(k, Held(s.slot)), Of(k, Events(s.queue)),
      Of(k, Arriving(r.event));
      KeyOrder(Admit(o), k) == if o.done then a + x + q else a + q + x
  {
    hide Moves, HandedOn;
    MovesKeepOrder(HandedOn(s.out), Held(s.slot), r.event, HandedOn(o.state.out), Held(o.state.slot), o.done, k);
    if !o.done && !r.event.IsTick() {
      assert Events(o.state.queue + [o.rec]) == Events(s.queue) + [r.event];
      OfConcat(k, Events(s.queue), [r.event]);
    }
  }

  /** Exactly when an arrival keeps every key in order. */
  lemma StepKeepsOrderIff(s: State, e: Event, env: Env)
    requires Inv(s) && !Overflows(s, e, env)
    requires !e.IsTick() ==> Alternates(KeyOrder(s, e.key) + [e])
    ensures (forall k :: KeyOrder(Step(s, e, env), k) == KeyOrder(s, k) + Of(k, Arriving(e)))
       <==> !Overtakes(s, e, env)
  {
    hide Process, Moves, HandedOn, Held, Events, Unsettled, Alternates;
    var o := Process(s, NewRecord(e), env);
    ProcessConserves(s, NewRecord(e), env);
    AdmitConserves(s, NewRecord(e), o);
    DrainConserves(Admit(o), env);
    if !e.IsTick() && Of(e.key, Events(s.queue)) != [] {
      OvertakesIffDone(s, e, env);
    }
    forall k ensures !Overtakes(s, e, env) ==> KeyOrder(Step(s, e, env), k) == KeyOrder(s, k) + Of(k, Arriving(e)) {
      AdmitOrder(s, NewRecord(e), o, k);
    }
    if Overtakes(s, e, env) {
      OvertakingBreaksOrder(s, e, o);
    }
  }

  lemma OvertakingBreaksOrder(s: State, e: Event, o: Outcome)
    requires Conserves(s, NewRecord(e), o) && o.done && !e.IsTick()
    requires Alternates(KeyOrder(s, e.key) + [e])
    requires Of(e.key, Events(s.queue)) != []
    ensures KeyOrder(Admit(o), e.key) != KeyOrder(s, e.key) + Of(e.key, Arriving(e))
  {
    hide Moves, HandedOn, Held, Events, Alternates, Typed, Admit;
    var k := e.key;
    WaitingMeansTyped(s, e);
    AdmitOrder(s, NewRecord(e), o, k);
    assert Of(k, Arriving(e)) == [e];
    var a, q := Of(k, HandedOn(s.out)) + Of(k, Held(s.slot)), Of(k, Events(s.queue));
    RotationDiffers(a, q, e);
  }

  lemma RotationDiffers(a: seq<Event>, q: seq<Event>, e: Event)
    requires q != [] && q[|q| - 1] != e
    ensures a + [e] + q != a + q + [e]
  {
    assert (a + [e] + q)[|a| + |q|] == q[|q| - 1] && (a + q + [e])[|a| + |q|] == e;
  }

  lemma OverflowForgets(s: State, e: Event, env: Env)
    requires Inv(s) && Overflows(s, e, env)
    ensures Step(s, e, env).queue == [] && Idle(Step(s, e, env).slot)
    ensures HandedOn(Step(s, e, env).out) == []
  {
    hide Process;
    HandedOnAppend(Process(s, NewRecord(e), env).state.out, Cleared);
  }

  /** Order, for every run whose keys alternate and in which no arrival overtakes: what was handed
      on for a key, then the undecided tapping key, then what waits, is the key's input in order. */
  lemma {:induction false} EachKeyKeepsItsOrder(inputs: seq<Input>, k: Key)
    requires NeverOvertakes(inputs)
    requires forall key :: Alternates(Of(key, KeyEvents(inputs)))
    ensures KeyOrder(Run(inputs), k) == Of(k, Live(inputs))
  {
    if inputs != [] {
      hide Step, Overflows, Overtakes, HandedOn, Alternates, Of, KeyEvents;
      var init, last := inputs[..|inputs| - 1], inputs[|inputs| - 1];
      var e := last.event;
      assert init + [last] == inputs;
      forall key ensures Alternates(Of(key, KeyEvents(init))) {
        HistoryAlternates(init, last, key);
      }
      EachKeyKeepsItsOrder(init, k);
      NothingLostNothingDuplicated(init);
      if Overflows(Run(init), e, last.env) {
        OverflowForgets(Run(init), e, last.env);
        NothingAtAll(Step(Run(init), e, last.env), k);
      } else {
        OfConcat(k, Live(init), Arriving(e));
        EachKeyKeepsItsOrder(init, e.key);
        HistoryAlternates(init, last, e.key);
        StepKeepsOrderIff(Run(init), e, last.env);
      }
    }
  }

  lemma NothingAtAll(s: State, k: Key)
    requires Idle(s.slot) && s.queue == [] && HandedOn(s.out) == []
    ensures KeyOrder(s, k) == [] == Of(k, [])
  {
  }

  /** Alternation carries over to a shorter history, and to the part since the last overflow
      followed by the new event. */
  lemma HistoryAlternates(init: seq<Input>, last: Input, key: Key)
    requires Alternates(Of(key, KeyEvents(init + [last])))
    ensures Alternates(Of(key, KeyEvents(init)))
    ensures !last.event.IsTick() && key == last.event.key ==> Alternates(Of(key, Live(init)) + [last.event])
  {
    hide Alternates;
    var e := last.event;
    assert (init + [last])[..|init|] == init;
    OfConcat(key, KeyEvents(init), Arriving(e));
    AlternatesPrefix(Of(key, KeyEvents(init)), Of(key, Arriving(e)));
    if !e.IsTick() && key == e.key {
      assert Of(key, [e]) == [e];
      AlternatesAtArrival(init, e);
    }
  }

  /** It is enough that each key event arrives with nothing waiting or the tapping key undecided. */
  lemma {:induction false} PromptNeverOvertakes(inputs: seq<Input>)
    requires forall n :: 0 <= n < |inputs| ==>
      inputs[n].event.IsTick() || Run(inputs[..n]).queue == [] || Unsettled(Run(inputs[..n]).slot)
    ensures NeverOvertakes(inputs)
  {
    if inputs != [] {
      var init := inputs[..|inputs| - 1];
      forall n | 0 <= n < |init|
        ensures init[n].event.IsTick() || Run(init[..n]).queue == [] || Unsettled(Run(init[..n]).slot)
      {
        assert init[..n] == inputs[..n];
      }
      PromptNeverOvertakes(init);
    }
  }

  lemma AlternatesPrefix(a: seq<Event>, b: seq<Event>)
    requires Alternates(a + b)
    ensures Alternates(a)
  {
    assert forall i :: 0 <= i < |a| ==> a[i] == (a + b)[i];
  }

  lemma AlternatesAtArrival(init: seq<Input>, e: Event)
    requires Alternates(Of(e.key, KeyEvents(init)) + [e])
    ensures Alternates(Of(e.key, Live(init)) + [e])
  {
    LiveIsSuffix(init);
    hide Live, KeyEvents, Of, Alternates;
    var all := KeyEvents(init);
    var n :| 0 <= n <= |all| && Live(init) == all[n..];
    OfConcat(e.key, all[..n], all[n..]);
    assert all[..n] + all[n..] == all;
    var a, b := Of(e.key, all[..n]), Of(e.key, all[n..]) + [e];
    assert Of(e.key, all) + [e] == a + b;
    AlternatesSuffix(a, b);
  }

  lemma AlternatesSuffix(a: seq<Event>, b: seq<Event>)
    requires Alternates(a + b)
    ensures Alternates(b)
  {
    forall i | 0 < i < |b| ensures b[i - 1].pressed != b[i].pressed {
      assert (a + b)[|a| + i - 1] == b[i - 1] && (a + b)[|a| + i] == b[i];
    }
  }

  /** Order does break: A and B are tap keys, X is not. X's press times out A and then B, is
      retained with the slot empty, and X's release, arriving before the next tick, overtakes it. */
  lemma ReleaseCanOvertakeItsPress(env: Env)
    requires forall r, t :: env.term(r, t) == 200
    requires forall r: Record, t :: env.isTap(r, t) <==> r.event.key.row == 0
    requires forall r, t :: !env.holdOnOtherKey(r, t)
    ensures var x := Key(1, 0);
      var press, release := Event(x, 220, KeyEvent, true), Event(x, 221, KeyEvent, false);
      var inputs := [Input(Event(Key(0, 0), 0, KeyEvent, true), env), Input(Event(Key(0, 1), 10, KeyEvent, true), env),
                     Input(press, env), Input(release, env)];
      Of(x, KeyEvents(inputs)) == [press, release] && Of(x, HandedOn(Run(inputs).out)) == [release, press]
  {
    hide Step, Of, HandedOn, Run;
    var x := Key(1, 0);
    var a, b := Event(Key(0, 0), 0, KeyEvent, true), Event(Key(0, 1), 10, KeyEvent, true);
    var press, release := Event(x, 220, KeyEvent, true), Event(x, 221, KeyEvent, false);
    var inputs := [Input(a, env), Input(b, env), Input(press, env), Input(release, env)];
    assert inputs[..3][..2] == inputs[..2] && inputs[..2][..1] == inputs[..1] && inputs[..1][..0] == [];
    assert KeyEvents(inputs) == [a, b, press, release] by {
      assert KeyEvents(inputs[..1]) == [a] && KeyEvents(inputs[..2]) == [a, b];
      assert KeyEvents(inputs[..3]) == [a, b, press];
    }
    OnlyTheLastTwo(a, b, press, release);
    var s1, s2 := State(NewRecord(a), [], []), State(Record(a, Tap(true, 0)), [NewRecord(b)], []);
    PressesWait(a, b, env);
    TimeoutsInOneDrain(s2, press, env);
    var s3 := Step(s2, press, env);
    ReleaseThenPress(s3, press, release, env);
    NextStep(inputs, 0);
    NextStep(inputs, 1);
    NextStep(inputs, 2);
    NextStep(inputs, 3);
    assert inputs[..4] == inputs;
  }

  lemma OnlyTheLastTwo(a: Event, b: Event, c: Event, d: Event)
    requires a.key != c.key && b.key != c.key && c.key == d.key
    ensures Of(c.key, [a, b, c, d]) == [c, d]
  {
    assert [a, b, c, d] == [a] + ([b] + ([c] + [d]));
    OfConcat(c.key, [a], [b] + ([c] + [d]));
    OfConcat(c.key, [b], [c] + [d]);
    OfConcat(c.key, [c], [d]);
  }

  lemma PressesWait(a: Event, b: Event, env: Env)
    requires forall r, t :: env.term(r, t) == 200
    requires forall r: Record, t :: env.isTap(r, t) <==> r.event.key.row == 0
    requires forall r, t :: !env.holdOnOtherKey(r, t)
    requires a == Event(Key(0, 0), 0, KeyEvent, true) && b == Event(Key(0, 1), 10, KeyEvent, true)
    ensures Step(INITIAL, a, env) == State(NewRecord(a), [], [])
    ensures Step(State(NewRecord(a), [], []), b, env) == State(Record(a, Tap(true, 0)), [NewRecord(b)], [])
  {
    var s := State(NewRecord(a), [], []);
    assert Process(INITIAL, NewRecord(a), env) == Outcome(s, true, NewRecord(a));
    var t := State(Record(a, Tap(true, 0)), [NewRecord(b)], []);
    assert Process(s, NewRecord(b), env) == Outcome(t.(queue := []), false, NewRecord(b));
    assert Process(t, NewRecord(b), env) == Outcome(t, false, NewRecord(b));
    assert t.queue[0 := NewRecord(b)] == t.queue;
    assert Drain(t, env) == t;
  }

  lemma TimeoutsInOneDrain(s: State, press: Event, env: Env)
    requires forall r, t :: env.term(r, t) == 200
    requires forall r: Record, t :: env.isTap(r, t) <==> r.event.key.row == 0
    requires s == State(Record(Event(Key(0, 0), 0, KeyEvent, true), Tap(true, 0)),
                        [NewRecord(Event(Key(0, 1), 10, KeyEvent, true))], [])
    requires press == Event(Key(1, 0), 220, KeyEvent, true)
    ensures Step(s, press, env) == State(NO_RECORD, [NewRecord(press)],
      [Handed(s.slot, FromSlot), Handed(s.queue[0], FromSlot)])
  {
    var b := s.queue[0];
    var t := State(NO_RECORD, [b, NewRecord(press)], [Handed(s.slot, FromSlot)]);
    assert Admit(Process(s, NewRecord(press), env)) == t;
    var u := State(b, [NewRecord(press)], t.out);
    assert Process(t, b, env) == Outcome(t.(slot := b), true, b);
    assert t.queue[0 := b][1..] == u.queue;
    assert Drain(t, env) == Drain(u, env);
    var o := Process(u, NewRecord(press), env);
    assert o == Outcome(State(NO_RECORD, u.queue, u.out + [Handed(b, FromSlot)]), false, NewRecord(press));
    assert u.queue[0 := NewRecord(press)] == u.queue;
    assert Drain(u, env) == o.state;
  }

  lemma ReleaseThenPress(s: State, press: Event, release: Event, env: Env)
    requires !release.IsTick() && !release.pressed && !press.IsTick() && press.key == release.key
    requires Idle(s.slot) && s.queue == [NewRecord(press)] &&
      !env.isTap(NewRecord(press), s.out + [Handed(NewRecord(release), FromEvent)])
    requires |s.out| == 2 && forall i :: 0 <= i < 2 ==> s.out[i].Handed? && s.out[i].rec.event.key != press.key
    ensures Of(press.key, HandedOn(Step(s, release, env).out)) == [release, press]
  {
    hide Step;
    var h1, h2 := Handed(NewRecord(release), FromEvent), Handed(NewRecord(press), FromEvent);
    ReleaseGoesFirst(s, press, release, env);
    HandedOnAppend(s.out, h1);
    HandedOnAppend(s.out + [h1], h2);
    OfConcat(press.key, HandedOn(s.out), [release]);
    OfConcat(press.key, HandedOn(s.out) + [release], [press]);
    HandedOnAppend([], s.out[0]);
    HandedOnAppend([s.out[0]], s.out[1]);
    assert [] + [s.out[0]] == [s.out[0]] && [s.out[0]] + [s.out[1]] == s.out;
  }

  lemma ReleaseGoesFirst(s: State, press: Event, release: Event, env: Env)
    requires !release.IsTick() && !release.pressed && !press.IsTick()
    requires Idle(s.slot) && s.queue == [NewRecord(press)] &&
      !env.isTap(NewRecord(press), s.out + [Handed(NewRecord(release), FromEvent)])
    ensures Step(s, release, env).out
      == s.out + [Handed(NewRecord(release), FromEvent)] + [Handed(NewRecord(press), FromEvent)]
  {
    hide ScanTap;
    var h1, h2 := Handed(NewRecord(release), FromEvent), Handed(NewRecord(press), FromEvent);
    var t := s.(out := s.out + [h1]);
    assert Process(s, NewRecord(release), env) == Outcome(t, true, NewRecord(release));
    var u := State(s.slot, [], s.out + [h1] + [h2]);
    assert Process(t, NewRecord(press), env) == Outcome(t.(out := u.out), true, NewRecord(press));
    assert t.queue[0 := NewRecord(press)][1..] == [];
    assert Drain(t, env) == Drain(u, env) == u;
  }
}
