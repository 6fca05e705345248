/** What happens to a press that enters the tapping slot while earlier records wait: they are compared
    with it although they came before it, and it is taken as a hold at once. */
module TappingJumps {
  import opened Keyboard
  import opened TappingSpec
  import opened TappingRun
  import opened TappingOrder
  import opened TappingEvidence
  import opened TappingLiveness

  /** Everything waiting is stamped earlier than this event, though less than 2^16 ms minus a term. */
  predicate StampedEarlier(queue: seq<Record>, e: Event, maxTerm: uint16)
  {
    forall i :: 0 <= i < |queue| ==> 0 < TimerDiff16(e.time, queue[i].event.time) <= 0x1_0000 - maxTerm
  }

  /** Has a press with this event been handed on from the slot since? */
  predicate HandedFromSlot(out: Trace, from: nat, e: Event)
  {
    exists i :: from <= i < |out| && IsFromSlot(out[i], e)
  }

  predicate IsFromSlot(o: Output, e: Event) { o.Handed? && o.origin.FromSlot? && o.rec.event == e }

  lemma DifferenceReversed(a: uint16, b: uint16)
    ensures a != b ==> TimerDiff16(b, a) == 0x1_0000 - TimerDiff16(a, b)
  {
  }

  /** A press that jumps the queue is taken as a hold in the very call that presses it. */
  lemma JumpIsHeldAtOnce(s: State, e: Event, env: Env, maxTerm: uint16)
    requires TermsAtMost(env, maxTerm) && StampedEarlier(s.queue, e, maxTerm) && Jumps(s, e, env)
    ensures var r := NewRecord(e);
      Step(s, e, env) == State(NO_RECORD, s.queue, EntryTrace(s, r) + [Handed(r, FromSlot)])
  {
    hide Process, EntryTrace, TermsAtMost;
    var r := NewRecord(e);
    var t := State(r, s.queue, EntryTrace(s, r));
    EntersIs(s, r, env);
    forall i | 0 <= i < |s.queue| ensures !WithinTerm(t, s.queue[i].event, env) {
      NotWithin(t, s.queue[i].event, env, maxTerm);
    }
    assert ScanTap(t, env) == t;
    TimesOut(t, s.queue[0], env);
    var o := Process(t, s.queue[0], env);
    assert o.state.queue[0 := o.rec] == s.queue;
  }

  lemma NotWithin(t: State, e: Event, env: Env, maxTerm: uint16)
    requires TermsAtMost(env, maxTerm) && 0 < TimerDiff16(t.slot.event.time, e.time) <= 0x1_0000 - maxTerm
    ensures !WithinTerm(t, e, env)
  {
    DifferenceReversed(t.slot.event.time, e.time);
    assert env.term(t.slot, t.out) <= maxTerm;
  }

  lemma TimesOut(t: State, r: Record, env: Env)
    requires Unsettled(t.slot) && !WithinTerm(t, r.event, env)
    ensures Process(t, r, env) == Outcome(Hand(t, t.slot, FromSlot).(slot := NO_RECORD), false, r)
  {
  }

  // ---------------------------------------------------------------- and no other is

  /** What processing a record hands on from the slot: the undecided key that was there, or the record
      itself if it enters while a release of its key waits. */
  lemma ProcessHands(s: State, r: Record, env: Env, e: Event)
    requires !(Unsettled(s.slot) && s.slot.event == e)
    requires Enters(s, r, env) && r.event == e ==>
      forall i :: 0 <= i < |s.queue| ==> s.queue[i].event.pressed || s.queue[i].event.key != e.key
    ensures !HandedFromSlot(Process(s, r, env).state.out, |s.out|, e)
  {
  }

  lemma {:induction false} DrainSpares(s: State, env: Env, e: Event)
    requires Inv(s) && !(Unsettled(s.slot) && s.slot.event == e)
    requires forall i :: 0 <= i < |s.queue| && s.queue[i].event == e ==> i == |s.queue| - 1
    ensures s.out <= Drain(s, env).out && !HandedFromSlot(Drain(s, env).out, |s.out|, e)
    decreases |s.queue|
  {
    assert s.queue != [] && Enters(s, s.queue[0], env) ==> s.queue[0].event.pressed;
    hide Process, Moves, Enters;
    if s.queue != [] {
      var o := Process(s, s.queue[0], env);
      ProcessConserves(s, s.queue[0], env);
      ProcessKeepsQueueLength(s, s.queue[0], env);
      ProcessExtends(s, s.queue[0], env);
      ProcessHands(s, s.queue[0], env, e);
      SlotAfter(s, s.queue[0], env);
      HeadReplaced(o.state.queue, o.rec, s.queue);
      var queue := o.state.queue[0 := o.rec];
      if o.done && queue[1..] != [] {
        var t := o.state.(queue := queue[1..]);
        assert Inv(t);
        assert forall i :: 0 <= i < |queue| ==>
          Events(queue)[i] == queue[i].event && Events(s.queue)[i] == s.queue[i].event;
        DrainSpares(t, env, e);
        SparedJoin(s.out, t.out, Drain(t, env).out, e);
      }
    }
  }

  lemma ProcessExtends(s: State, r: Record, env: Env)
    ensures s.out <= Process(s, r, env).state.out
  {
  }

  lemma SparedJoin(a: Trace, b: Trace, c: Trace, e: Event)
    requires a <= b <= c && !HandedFromSlot(b, |a|, e) && !HandedFromSlot(c, |b|, e)
    ensures !HandedFromSlot(c, |a|, e)
  {
    forall i | |a| <= i < |c| ensures !IsFromSlot(c[i], e) {
      assert i < |b| ==> c[i] == b[i];
    }
  }

  lemma OthersAreSpared(s: State, e: Event, env: Env, maxTerm: uint16)
    requires Inv(s) && StampedEarlier(s.queue, e, maxTerm) && s.slot.event != e && !Jumps(s, e, env)
    ensures !HandedFromSlot(Step(s, e, env).out, |s.out|, e)
  {
    hide Process, Moves, Enters, HandedFromSlot, StampedEarlier, Inv, Events;
    var r := NewRecord(e);
    var o := Process(s, r, env);
    ProcessConserves(s, r, env);
    AdmitConserves(s, r, o);
    ProcessExtends(s, r, env);
    ProcessHands(s, r, env, e);
    SlotAfter(s, r, env);
    NotWaiting(s.queue, o.state.queue, e, maxTerm);
    AdmitSpares(s, o, e);
    var t := Admit(o);
    if Enters(s, r, env) {
      EntersIs(s, r, env);
      NoEvents(s.queue, o.state.queue);
      assert Drain(t, env) == t;
    } else {
      DrainSpares(t, env, e);
      SparedJoin(s.out, t.out, Drain(t, env).out, e);
    }
  }

  lemma NoEvents(queue: seq<Record>, queue': seq<Record>)
    requires queue == [] && Events(queue') == Events(queue)
    ensures Events(queue') == [] && |Events(queue')| == |queue'|
  {
  }

  /** Exactly then: of an event stamped after everything waiting, a step hands the press on from the
      slot if and only if the press jumps the queue. */
  lemma HeldAtOnceIff(s: State, e: Event, env: Env, maxTerm: uint16)
    requires Inv(s) && TermsAtMost(env, maxTerm) && StampedEarlier(s.queue, e, maxTerm) && s.slot.event != e
    ensures HandedFromSlot(Step(s, e, env).out, |s.out|, e) <==> Jumps(s, e, env)
  {
    hide Step, TermsAtMost, StampedEarlier, Jumps;
    if Jumps(s, e, env) {
      JumpIsHeldAtOnce(s, e, env, maxTerm);
      var out := Step(s, e, env).out;
      assert IsFromSlot(out[|out| - 1], e);
    } else {
      OthersAreSpared(s, e, env, maxTerm);
    }
  }

  lemma NotWaiting(queue: seq<Record>, queue': seq<Record>, e: Event, maxTerm: uint16)
    requires StampedEarlier(queue, e, maxTerm) && Events(queue') == Events(queue)
    ensures forall i :: 0 <= i < |queue'| ==> queue'[i].event != e
  {
    assert |Events(queue')| == |queue'| && |Events(queue)| == |queue|;
    forall i | 0 <= i < |queue'| ensures queue'[i].event != e {
      assert Events(queue')[i] == Events(queue)[i];
      assert TimerDiff16(e.time, queue[i].event.time) > 0;
    }
  }

  lemma AdmitSpares(s: State, o: Outcome, e: Event)
    requires s.out <= o.state.out && !HandedFromSlot(o.state.out, |s.out|, e)
    ensures s.out <= Admit(o).out && !HandedFromSlot(Admit(o).out, |s.out|, e)
  {
    assert Full(o) ==> forall i :: |s.out| <= i < |o.state.out| ==> !IsFromSlot((o.state.out + [Cleared])[i], e);
  }

  // ---------------------------------------------------------------- evidence, exactly

  /** Each input of a run is stamped after everything that waits when it arrives. */
  ghost predicate InOrder(inputs: seq<Input>, maxTerm: uint16)
  {
    forall n :: 0 <= n < |inputs| ==> ArrivesInOrder(inputs, n, maxTerm)
  }

  ghost predicate ArrivesInOrder(inputs: seq<Input>, n: nat, maxTerm: uint16)
    requires n < |inputs|
  {
    TermsAtMost(inputs[n].env, maxTerm) && StampedEarlier(Run(inputs[..n]).queue, inputs[n].event, maxTerm)
  }

  /** In such runs no undecided press is ever late: one that jumps the queue is gone with its own step. */
  lemma {:induction false} RunInOrder(inputs: seq<Input>, n: nat, maxTerm: uint16) returns (at: Places)
    requires n <= |inputs| && forall k :: 0 <= k < n ==> ArrivesInOrder(inputs, k, maxTerm)
    ensures Inv(Run(inputs[..n])) && Placed(Run(inputs[..n]), inputs, n, at, {})
  {
    at := Places(0, []);
    if n > 0 {
      hide Step, Inv, Jumps, AllDecided, TermsAtMost, StampedEarlier;
      var s, input := Run(inputs[..n - 1]), inputs[n - 1];
      NextStep(inputs, n - 1);
      NothingLostNothingDuplicated(inputs[..n]);
      at := RunInOrder(inputs, n - 1, maxTerm);
      assert ArrivesInOrder(inputs, n - 1, maxTerm);
      if Jumps(s, input.event, input.env) {
        JumpIsHeldAtOnce(s, input.event, input.env, maxTerm);
      } else {
        at := StepDecided(s, inputs, n - 1, at, {});
      }
    }
  }

  /** The property itself, exactly: in a run whose inputs arrive in order, every press that a step hands
      on from the slot was decided by a later input if and only if the arriving event is not a press that
      jumps the queue. */
  lemma EvidenceIff(inputs: seq<Input>, n: nat, maxTerm: uint16)
    requires n < |inputs| && InOrder(inputs[..n + 1], maxTerm)
    requires forall k :: 0 <= k < n ==> inputs[k].event != inputs[n].event
    ensures AllDecided(Run(inputs[..n]).out, Run(inputs[..n + 1]).out, inputs, n, {})
       <==> !Jumps(Run(inputs[..n]), inputs[n].event, inputs[n].env)
  {
    hide Step, Jumps, AllDecided, TermsAtMost, StampedEarlier, Placed, Inv;
    var s, e, env := Run(inputs[..n]), inputs[n].event, inputs[n].env;
    NextStep(inputs, n);
    forall k | 0 <= k <= n ensures ArrivesInOrder(inputs, k, maxTerm) {
      assert ArrivesInOrder(inputs[..n + 1], k, maxTerm);
      assert inputs[..n + 1][..k] == inputs[..k];
    }
    var at := RunInOrder(inputs, n, maxTerm);
    assert ArrivesInOrder(inputs, n, maxTerm);
    if Jumps(s, e, env) {
      JumpIsHeldAtOnce(s, e, env, maxTerm);
      UndecidedOnArrival(s.out, EntryTrace(s, NewRecord(e)), inputs, n);
    } else {
      at := StepDecided(s, inputs, n, at, {});
    }
  }

  /** No input before the last can be what decided a press that has only just arrived. */
  lemma UndecidedOnArrival(before: Trace, out: Trace, inputs: seq<Input>, n: nat)
    requires n < |inputs| && (forall k :: 0 <= k < n ==> inputs[k].event != inputs[n].event) && before <= out
    ensures !AllDecided(before, out + [Handed(NewRecord(inputs[n].event), FromSlot)], inputs, n, {})
  {
    hide Decided;
    var all := out + [Handed(NewRecord(inputs[n].event), FromSlot)];
    assert !DecidedAt(all[|out|], all[..|out|], inputs, n, {});
  }

  // ---------------------------------------------------------------- two runs

  /** It does happen: A and B are tap keys, X is not. X's press times out A and then B and waits; one
      millisecond later tap key C is pressed, and X, which came before, times it out at once. No input
      after C's press exists to decide it. */
  lemma PressHeldAtOnce(env: Env)
    requires forall r, t :: env.term(r, t) == 200
    requires forall r: Record, t :: env.isTap(r, t) <==> r.event.key.row == 0
    requires forall r, t :: !env.holdOnOtherKey(r, t)
    ensures var c := Event(Key(0, 2), 221, KeyEvent, true);
      var inputs := [Input(Event(Key(0, 0), 0, KeyEvent, true), env), Input(Event(Key(0, 1), 10, KeyEvent, true), env),
                     Input(Event(Key(1, 0), 220, KeyEvent, true), env), Input(c, env)];
      && HandedFromSlot(Run(inputs).out, |Run(inputs[..3]).out|, c)
      && Run(inputs).out[|Run(inputs).out| - 1] == Handed(NewRecord(c), FromSlot)
      && !AllDecided(Run(inputs[..3]).out, Run(inputs).out, inputs, 3, {})
  {
    hide Step, HandedFromSlot, Run, AllDecided;
    var a, b := Event(Key(0, 0), 0, KeyEvent, true), Event(Key(0, 1), 10, KeyEvent, true);
    var x, c := Event(Key(1, 0), 220, KeyEvent, true), Event(Key(0, 2), 221, KeyEvent, true);
    var inputs := [Input(a, env), Input(b, env), Input(x, env), Input(c, env)];
    NextStep(inputs, 0);
    NextStep(inputs, 1);
    NextStep(inputs, 2);
    NextStep(inputs, 3);
    assert inputs[..4] == inputs;
    var s1, s2 := State(NewRecord(a), [], []), State(Record(a, Tap(true, 0)), [NewRecord(b)], []);
    PressesWait(a, b, env);
    TimeoutsInOneDrain(s2, x, env);
    var s3 := Step(s2, x, env);
    assert Run(inputs[..1]) == s1 && Run(inputs[..2]) == s2 && Run(inputs[..3]) == s3;
    assert Run(inputs) == Step(s3, c, env);
    JumpIsHeldAtOnce(s3, c, env, 200);
    HeldAtOnceIff(s3, c, env, 200);
    UndecidedOnArrival(s3.out, EntryTrace(s3, NewRecord(c)), inputs, 3);
  }

  /** When a release that waits settles the slot inside its term: under permissive hold, exactly if a
      press of its key waits behind it. No press of that key can be waiting before it any more. */
  lemma WaitingReleaseHoldsIff(s: State, env: Env)
    requires s.queue != [] && Unsettled(s.slot) && !s.queue[0].event.IsTick() && !s.queue[0].event.pressed
    requires s.queue[0].event.key != s.slot.event.key && WithinTerm(s, s.queue[0].event, env)
    ensures HandedFromSlot(Process(s, s.queue[0], env).state.out, |s.out|, s.slot.event) <==>
      && env.permissiveHold(s.slot, s.out)
      && exists i :: 0 < i < |s.queue| && s.queue[i].event.key == s.queue[0].event.key && s.queue[i].event.pressed
  {
    var r, o := s.queue[0], Process(s, s.queue[0], env);
    assert Typed(s.queue, r.event) <==>
      exists i :: 0 < i < |s.queue| && s.queue[i].event.key == r.event.key && s.queue[i].event.pressed;
    if Typed(s.queue, r.event) && env.permissiveHold(s.slot, s.out) {
      assert IsFromSlot(o.state.out[|s.out|], s.slot.event);
    }
  }

  /** A release that waits can be paired with a press that came after it. X is a held modifier, A a tap
      key with permissive hold: X up and X down again, while A is down, count as a nested tap of X. */
  lemma ReleaseThenPressHolds(env: Env)
    requires forall r, t :: env.term(r, t) == 200 && env.permissiveHold(r, t) && env.retain(r, t)
    requires forall r: Record, t :: env.isTap(r, t) <==> r.event.key.row == 0
    requires forall r, t :: !env.holdOnOtherKey(r, t)
    ensures var a, x := Event(Key(0, 0), 10, KeyEvent, true), Key(1, 0);
      var inputs := [Input(Event(x, 0, KeyEvent, true), env), Input(a, env), Input(Event(x, 20, KeyEvent, false), env),
                     Input(Event(x, 30, KeyEvent, true), env)];
      Run(inputs).out == Run(inputs[..3]).out + [Handed(Record(a, Tap(true, 0)), FromSlot)]
  {
    hide Step, Run;
    var a, x := Event(Key(0, 0), 10, KeyEvent, true), Key(1, 0);
    var down, up, again := Event(x, 0, KeyEvent, true), Event(x, 20, KeyEvent, false), Event(x, 30, KeyEvent, true);
    var inputs := [Input(down, env), Input(a, env), Input(up, env), Input(again, env)];
    NextStep(inputs, 0);
    NextStep(inputs, 1);
    NextStep(inputs, 2);
    NextStep(inputs, 3);
    assert inputs[..4] == inputs;
    var h := Handed(NewRecord(down), FromEvent);
    var s1, s2 := State(NO_RECORD, [], [h]), State(NewRecord(a), [], [h]);
    var s3 := State(NewRecord(a), [NewRecord(up)], [h]);
    HeldDown(down, a, env);
    ReleaseWaits(s2, up, env);
    PairedWithLater(s3, up, again, env);
    assert Run(inputs[..1]) == s1 && Run(inputs[..2]) == s2 && Run(inputs[..3]) == s3;
    assert Run(inputs) == Step(s3, again, env);
  }

  lemma HeldDown(down: Event, a: Event, env: Env)
    requires forall r: Record, t :: env.isTap(r, t) <==> r.event.key.row == 0
    requires down == Event(Key(1, 0), 0, KeyEvent, true) && a == Event(Key(0, 0), 10, KeyEvent, true)
    ensures var h := Handed(NewRecord(down), FromEvent);
      Step(INITIAL, down, env) == State(NO_RECORD, [], [h]) &&
        Step(State(NO_RECORD, [], [h]), a, env) == State(NewRecord(a), [], [h])
  {
    var h := Handed(NewRecord(down), FromEvent);
    assert Process(INITIAL, NewRecord(down), env) == Outcome(State(NO_RECORD, [], [h]), true, NewRecord(down));
    assert Process(State(NO_RECORD, [], [h]), NewRecord(a), env) ==
      Outcome(State(NewRecord(a), [], [h]), true, NewRecord(a));
  }

  lemma ReleaseWaits(s: State, up: Event, env: Env)
    requires forall r, t :: env.term(r, t) == 200 && env.retain(r, t)
    requires s.slot == NewRecord(Event(Key(0, 0), 10, KeyEvent, true)) && s.queue == []
    requires up == Event(Key(1, 0), 20, KeyEvent, false)
    ensures Step(s, up, env) == s.(queue := [NewRecord(up)])
  {
    var t := s.(queue := [NewRecord(up)]);
    assert Process(s, NewRecord(up), env) == Outcome(s, false, NewRecord(up));
    assert Process(t, NewRecord(up), env) == Outcome(t, false, NewRecord(up));
    assert t.queue[0 := NewRecord(up)] == t.queue;
    assert Drain(t, env) == t;
  }

  lemma PairedWithLater(s: State, up: Event, again: Event, env: Env)
    requires forall r, t :: env.term(r, t) == 200 && env.permissiveHold(r, t)
    requires forall r, t :: !env.holdOnOtherKey(r, t)
    requires s.slot == NewRecord(Event(Key(0, 0), 10, KeyEvent, true)) && s.queue == [NewRecord(up)]
    requires up == Event(Key(1, 0), 20, KeyEvent, false) && again == Event(Key(1, 0), 30, KeyEvent, true)
    ensures Step(s, again, env).out == s.out + [Handed(Record(s.slot.event, Tap(true, 0)), FromSlot)]
  {
    var slot := Record(s.slot.event, Tap(true, 0));
    var t := State(slot, [NewRecord(up), NewRecord(again)], s.out);
    assert Admit(Process(s, NewRecord(again), env)) == t;
    assert t.queue[1].event.key == up.key && t.queue[1].event.pressed;
    assert Typed(t.queue, up);
    var o := Process(t, NewRecord(up), env);
    assert o == Outcome(State(NO_RECORD, t.queue, t.out + [Handed(slot, FromSlot)]), false, NewRecord(up));
    assert Drain(t, env).out == o.state.out;
  }
}
