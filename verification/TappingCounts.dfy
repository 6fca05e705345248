/** Tap counts: what a press and its release are handed on as. */
module TappingCounts {
  import opened Keyboard
  import opened TappingSpec
  import opened TappingRun

  // ---------------------------------------------------------------- quick taps

  /** One tap of a key: the stamps of its press and of its release. */
  datatype Strike = Strike(down: uint16, up: uint16)

  function Press(k: Key, t: Strike): Event { Event(k, t.down, KeyEvent, true) }

  function Release(k: Key, t: Strike): Event { Event(k, t.up, KeyEvent, false) }

  function Inputs(k: Key, taps: seq<Strike>, env: Env): seq<Input>
  {
    if taps == [] then []
    else
      var t := taps[|taps| - 1];
      Inputs(k, taps[..|taps| - 1], env) + [Input(Press(k, t), env), Input(Release(k, t), env)]
  }

  /** Each tap is shorter than the term, and the next one follows inside both terms. */
  predicate Quick(taps: seq<Strike>, term: nat, quickTerm: nat)
  {
    && (forall i :: 0 <= i < |taps| ==> TimerDiff16(taps[i].up, taps[i].down) < term)
    && (forall i :: 0 < i < |taps| ==>
          TimerDiff16(taps[i].down, taps[i - 1].up) < term && TimerDiff16(taps[i].down, taps[i - 1].up) < quickTerm)
  }

  /** The key is a tap key, and its terms are at least these. */
  ghost predicate TapKey(env: Env, k: Key, term: nat, quickTerm: nat)
  {
    && (forall r: Record, t :: r.event.key == k ==> env.isTap(r, t))
    && (forall r, t :: env.term(r, t) >= term && env.quickTerm(r, t) >= quickTerm)
  }

  /** The 4-bit counter stops at 15. */
  function CountOf(n: nat): TapCount { if n < 15 then n else 15 }

  /** What `n` taps are handed on as: press and release with the same count, one more at each tap. */
  function Counted(k: Key, taps: seq<Strike>): Trace
  {
    if taps == [] then []
    else
      var n, t := |taps|, taps[|taps| - 1];
      var tap := Tap(false, CountOf(n));
      Counted(k, taps[..n - 1])
        + [Handed(Record(Press(k, t), tap), if n == 1 then FromSlot else FromEvent)]
        + [Handed(Record(Release(k, t), tap), FromEvent)]
  }

  /** The state after some taps: the last release in the slot, with its count. */
  function Tapped(k: Key, taps: seq<Strike>): State
  {
    if taps == [] then INITIAL
    else State(Record(Release(k, taps[|taps| - 1]), Tap(false, CountOf(|taps|))), [], Counted(k, taps))
  }

  /** Quick taps of one key are counted: 1 and 1, 2 and 2, up to 15. */
  lemma {:induction false} QuickTapsCount(k: Key, taps: seq<Strike>, env: Env, term: nat, quickTerm: nat)
    requires TapKey(env, k, term, quickTerm) && Quick(taps, term, quickTerm)
    ensures Run(Inputs(k, taps, env)) == Tapped(k, taps)
  {
    hide Step, TapKey, Quick, Tapped, Run;
    if taps == [] {
      NextRuns([], Input(Press(k, Strike(0, 0)), env), Input(Press(k, Strike(0, 0)), env));
      NoTaps(k, taps);
    } else {
      var init, t := taps[..|taps| - 1], taps[|taps| - 1];
      FewerAreQuick(taps, term, quickTerm);
      QuickTapsCount(k, init, env, term, quickTerm);
      NextRuns(Inputs(k, init, env), Input(Press(k, t), env), Input(Release(k, t), env));
      OneMoreTap(k, taps, env, term, quickTerm);
    }
  }

  lemma NoTaps(k: Key, taps: seq<Strike>)
    requires taps == []
    ensures Tapped(k, taps) == INITIAL
  {
  }

  lemma FewerAreQuick(taps: seq<Strike>, term: nat, quickTerm: nat)
    requires taps != [] && Quick(taps, term, quickTerm)
    ensures Quick(taps[..|taps| - 1], term, quickTerm)
  {
  }

  lemma NextRuns(inputs: seq<Input>, a: Input, b: Input)
    ensures Run([]) == INITIAL
    ensures Run(inputs + [a, b]) == Step(Step(Run(inputs), a.event, a.env), b.event, b.env)
  {
    hide Step;
    var all := inputs + [a, b];
    assert all[..|inputs|] == inputs && all[..|inputs| + 2] == all;
    NextStep(all, |inputs|);
    NextStep(all, |inputs| + 1);
  }

  lemma OneMoreTap(k: Key, taps: seq<Strike>, env: Env, term: nat, quickTerm: nat)
    requires taps != [] && TapKey(env, k, term, quickTerm) && Quick(taps, term, quickTerm)
    ensures var t := taps[|taps| - 1];
      Step(Step(Tapped(k, taps[..|taps| - 1]), Press(k, t), env), Release(k, t), env) == Tapped(k, taps)
  {
    hide Step, TapKey;
    var init, t := taps[..|taps| - 1], taps[|taps| - 1];
    if init == [] {
      FirstTap(k, t, env, term, quickTerm);
      var tap := Tap(false, 1);
      var a, b := Handed(Record(Press(k, t), tap), FromSlot), Handed(Record(Release(k, t), tap), FromEvent);
      assert Counted(k, init) == [] && [] + [a] + [b] == [a] + [b];
    } else {
      assert init[|init| - 1] == taps[|taps| - 2];
      NextTap(Tapped(k, init), k, init[|init| - 1], t, env, term, quickTerm);
    }
  }

  lemma FirstTap(k: Key, t: Strike, env: Env, term: nat, quickTerm: nat)
    requires TapKey(env, k, term, quickTerm) && TimerDiff16(t.up, t.down) < term
    ensures var press, tap := NewRecord(Press(k, t)), Tap(false, 1);
      && Step(INITIAL, Press(k, t), env) == State(press, [], [])
      && Step(State(press, [], []), Release(k, t), env)
           == State(Record(Release(k, t), tap), [], [Handed(Record(Press(k, t), tap), FromSlot)]
                                                  + [Handed(Record(Release(k, t), tap), FromEvent)])
  {
    var press, tap := NewRecord(Press(k, t)), Tap(false, 1);
    var s := State(press, [], []);
    assert Process(INITIAL, press, env) == Outcome(s, true, press);
    var slot, release := Record(Press(k, t), tap), Record(Release(k, t), tap);
    var o := Process(s, NewRecord(Release(k, t)), env);
    assert o == Outcome(State(slot, [], [Handed(slot, FromSlot)]), false, release);
    var u := State(slot, [release], [Handed(slot, FromSlot)]);
    assert Admit(o) == u;
    var v := Process(u, release, env);
    assert v == Outcome(State(release, [release], u.out + [Handed(release, FromEvent)]), true, release);
    assert v.state.queue[0 := release][1..] == [];
    assert Drain(u, env) == Drain(State(release, [], v.state.out), env);
  }

  lemma NextTap(s: State, k: Key, last: Strike, t: Strike, env: Env, term: nat, quickTerm: nat)
    requires TapKey(env, k, term, quickTerm) && TimerDiff16(t.up, t.down) < term
    requires TimerDiff16(t.down, last.up) < term && TimerDiff16(t.down, last.up) < quickTerm
    requires s.queue == [] && s.slot.event == Release(k, last) && !s.slot.tap.interrupted && s.slot.tap.count > 0
    ensures var tap := Tap(false, if s.slot.tap.count < 15 then s.slot.tap.count + 1 else 15);
      var press, release := Record(Press(k, t), tap), Record(Release(k, t), tap);
      var u := State(press, [], s.out + [Handed(press, FromEvent)]);
      && Step(s, Press(k, t), env) == u
      && Step(u, Release(k, t), env) == State(release, [], u.out + [Handed(release, FromEvent)])
  {
    var tap := Tap(false, if s.slot.tap.count < 15 then s.slot.tap.count + 1 else 15);
    var press, release := Record(Press(k, t), tap), Record(Release(k, t), tap);
    var u := State(press, [], s.out + [Handed(press, FromEvent)]);
    assert Process(s, NewRecord(Press(k, t)), env) == Outcome(u, true, press);
    assert Process(u, NewRecord(Release(k, t)), env)
        == Outcome(State(release, [], u.out + [Handed(release, FromEvent)]), true, release);
  }

  // ---------------------------------------------------------------- when a tap is counted on

  /** A further press of a key whose tap is in the slot is handed on as one tap more exactly if it comes
      inside both terms and no other key interrupted; otherwise it is a new, undecided tapping key. */
  lemma CountedOnIff(s: State, e: Event, env: Env)
    requires s.queue == [] && !Idle(s.slot) && !s.slot.event.pressed && s.slot.tap.count > 0
    requires !e.IsTick() && e.pressed && e.key == s.slot.event.key && forall t :: env.isTap(NewRecord(e), t)
    ensures var more := WithinTerm(s, e, env) && WithinQuickTerm(s, e, env) && !s.slot.tap.interrupted;
      var count := if s.slot.tap.count < 15 then s.slot.tap.count + 1 else 15;
      var press := Record(e, Tap(false, count));
      Step(s, e, env) == if more then State(press, [], s.out + [Handed(press, FromEvent)])
                         else State(NewRecord(e), [], s.out)
  {
    if WithinTerm(s, e, env) {
      var o := Process(s, NewRecord(e), env);
      assert Admit(o) == o.state && o.state.queue == [];
    } else {
      hide Process, ScanTap;
      LatePressEnters(s, e, env);
    }
  }

  lemma LatePressEnters(s: State, e: Event, env: Env)
    requires s.queue == [] && !Idle(s.slot) && !s.slot.event.pressed && !WithinTerm(s, e, env)
    requires !e.IsTick() && e.pressed && env.isTap(NewRecord(e), s.out)
    ensures Step(s, e, env) == State(NewRecord(e), [], s.out)
  {
    var r := NewRecord(e);
    var t, u := State(NO_RECORD, [r], s.out), State(r, [r], s.out);
    assert Process(s, r, env) == Outcome(State(NO_RECORD, [], s.out), false, r);
    assert Admit(Process(s, r, env)) == t;
    assert ScanTap(u, env) == u by { assert !Candidate(u, r, env); }
    assert Process(t, r, env) == Outcome(u, true, r);
    assert u.queue[0 := r][1..] == [];
    assert Drain(t, env) == Drain(State(r, [], s.out), env);
  }

  /** A press of another, plain key while the tap is in the slot is handed on and interrupts it. */
  lemma OtherPressInterrupts(s: State, e: Event, env: Env)
    requires s.queue == [] && !Idle(s.slot) && !s.slot.event.pressed && WithinTerm(s, e, env)
    requires !e.IsTick() && e.pressed && e.key != s.slot.event.key && !env.isTap(NewRecord(e), s.out)
    ensures Step(s, e, env)
      == State(s.slot.(tap := s.slot.tap.(interrupted := true)), [], s.out + [Handed(NewRecord(e), FromEvent)])
  {
    var o := Process(s, NewRecord(e), env);
    assert Admit(o) == o.state && o.state.queue == [];
  }

  // ---------------------------------------------------------------- a release carries its press's count

  /** The state after further inputs. */
  function RunFrom(s: State, inputs: seq<Input>): State
    decreases |inputs|
  {
    if inputs == [] then s else RunFrom(Step(s, inputs[0].event, inputs[0].env), inputs[1..])
  }

  /** No input is of this key, and none enters the slot. */
  predicate Undisturbed(s: State, inputs: seq<Input>, k: Key)
    decreases |inputs|
  {
    inputs != [] ==>
      var e, env := inputs[0].event, inputs[0].env;
      && e.key != k && !(e.pressed && !e.IsTick() && env.isTap(NewRecord(e), s.out))
      && Undisturbed(Step(s, e, env), inputs[1..], k)
  }

  /** A key that is down and counted as a tap stays so while nothing else enters the slot, and then its
      release is handed on with the count its press was handed on with; inside the term it stays in the
      slot to be counted on. */
  lemma {:induction false} ReleaseCarriesCount(s: State, inputs: seq<Input>, e: Event, env: Env)
    requires !Idle(s.slot) && s.slot.event.pressed && s.slot.tap.count > 0 && s.queue == []
    requires Undisturbed(s, inputs, s.slot.event.key)
    requires !e.IsTick() && !e.pressed && e.key == s.slot.event.key
    ensures var u, release := RunFrom(s, inputs), Record(e, s.slot.tap);
      && u.slot == s.slot && u.queue == []
      && Step(u, e, env) == State(if WithinTerm(u, e, env) then release else NO_RECORD, [],
                                  u.out + [Handed(release, FromEvent)])
    decreases |inputs|
  {
    if inputs != [] {
      hide Process;
      TapStays(s, inputs[0].event, inputs[0].env);
      ReleaseCarriesCount(Step(s, inputs[0].event, inputs[0].env), inputs[1..], e, env);
    } else {
      var o := Process(s, NewRecord(e), env);
      assert Admit(o) == o.state && o.state.queue == [];
    }
  }

  lemma TapStays(s: State, e: Event, env: Env)
    requires !Idle(s.slot) && s.slot.event.pressed && s.slot.tap.count > 0 && s.queue == []
    requires e.key != s.slot.event.key && !(e.pressed && !e.IsTick() && env.isTap(NewRecord(e), s.out))
    ensures Step(s, e, env) == if e.IsTick() then s else s.(out := s.out + [Handed(NewRecord(e), FromEvent)])
  {
    var o := Process(s, NewRecord(e), env);
    assert Admit(o) == o.state && o.state.queue == [];
  }

  /** A key that is down and counted as a tap has been handed on just as the slot has it. */
  ghost predicate SlotWasHanded(s: State)
  {
    !Idle(s.slot) && s.slot.event.pressed && s.slot.tap.count > 0 ==> WasHanded(s.out, s.slot)
  }

  ghost predicate WasHanded(out: Trace, r: Record)
  {
    exists i :: 0 <= i < |out| && out[i].Handed? && !out[i].origin.Synthetic? && out[i].rec == r
  }

  lemma HandedLast(out: Trace, r: Record, origin: Origin)
    ensures !origin.Synthetic? ==> WasHanded(out + [Handed(r, origin)], r)
  {
    var all := out + [Handed(r, origin)];
    assert all[|out|] == Handed(r, origin);
  }

  lemma StillHanded(out: Trace, out': Trace, r: Record)
    requires out <= out' && WasHanded(out, r)
    ensures WasHanded(out', r)
  {
    var i :| 0 <= i < |out| && out[i].Handed? && !out[i].origin.Synthetic? && out[i].rec == r;
    assert out'[i] == out[i];
  }

  /** What processing does to the slot: nothing that counts, or it hands the slot's new key on. */
  lemma ProcessHandsTaps(s: State, r: Record, env: Env)
    requires SlotWasHanded(s) && Fresh(r)
    ensures SlotWasHanded(Process(s, r, env).state)
  {
    hide WasHanded;
    var t := Process(s, r, env).state;
    if !Idle(t.slot) && t.slot.event.pressed && t.slot.tap.count > 0 {
      if t.slot == s.slot {
        assert s.out <= t.out;
        StillHanded(s.out, t.out, s.slot);
      } else {
        assert |t.out| > 0 && t.out[|t.out| - 1].Handed? && t.out[|t.out| - 1].rec == t.slot;
        assert t.out == t.out[..|t.out| - 1] + [t.out[|t.out| - 1]];
        HandedLast(t.out[..|t.out| - 1], t.slot, t.out[|t.out| - 1].origin);
      }
    }
  }

  lemma {:induction false} DrainHandsTaps(s: State, env: Env)
    requires Inv(s) && SlotWasHanded(s)
    ensures SlotWasHanded(Drain(s, env))
    decreases |s.queue|
  {
    hide Process, Moves, SlotWasHanded;
    if s.queue != [] {
      var o := Process(s, s.queue[0], env);
      ProcessConserves(s, s.queue[0], env);
      ProcessKeepsQueueLength(s, s.queue[0], env);
      ProcessHandsTaps(s, s.queue[0], env);
      var queue := o.state.queue[0 := o.rec];
      QueueIgnored(o.state, queue);
      QueueIgnored(o.state, queue[1..]);
      if o.done {
        DrainHandsTaps(o.state.(queue := queue[1..]), env);
      }
    }
  }

  lemma QueueIgnored(s: State, queue: seq<Record>)
    requires SlotWasHanded(s)
    ensures SlotWasHanded(s.(queue := queue))
  {
  }

  /** In every run, the count that a held-down tap's release will carry is that of its press. */
  lemma {:induction false} TapsWereHanded(inputs: seq<Input>)
    ensures SlotWasHanded(Run(inputs))
  {
    if inputs != [] {
      hide Process, Moves, Events, Total, SlotWasHanded, Drain;
      var init, last := inputs[..|inputs| - 1], inputs[|inputs| - 1];
      var s, r := Run(init), NewRecord(last.event);
      TapsWereHanded(init);
      NothingLostNothingDuplicated(init);
      var o := Process(s, r, last.env);
      ProcessConserves(s, r, last.env);
      AdmitConserves(s, r, o);
      ProcessHandsTaps(s, r, last.env);
      AdmitHandsTaps(o);
      DrainHandsTaps(Admit(o), last.env);
    } else {
      assert Idle(Run(inputs).slot);
    }
  }

  lemma AdmitHandsTaps(o: Outcome)
    requires SlotWasHanded(o.state)
    ensures SlotWasHanded(Admit(o))
  {
  }

  /** A key that was taken as a hold has left the slot; while nothing else enters it, its release is
      handed on with count 0, as its press was. */
  lemma {:induction false} HoldReleasedAsHold(s: State, inputs: seq<Input>, e: Event, env: Env)
    requires Idle(s.slot) && s.queue == [] && Undisturbed(s, inputs, e.key)
    requires !e.IsTick() && !e.pressed
    ensures var u := RunFrom(s, inputs);
      && u.slot == s.slot && u.queue == []
      && Step(u, e, env) == State(s.slot, [], u.out + [Handed(NewRecord(e), FromEvent)])
    decreases |inputs|
  {
    if inputs != [] {
      hide Process;
      IdleStays(s, inputs[0].event, inputs[0].env);
      HoldReleasedAsHold(Step(s, inputs[0].event, inputs[0].env), inputs[1..], e, env);
    } else {
      IdleStays(s, e, env);
    }
  }

  lemma IdleStays(s: State, e: Event, env: Env)
    requires Idle(s.slot) && s.queue == [] && !(e.pressed && !e.IsTick() && env.isTap(NewRecord(e), s.out))
    ensures Step(s, e, env) == if e.IsTick() then s else s.(out := s.out + [Handed(NewRecord(e), FromEvent)])
  {
    var o := Process(s, NewRecord(e), env);
    assert Admit(o) == o.state && o.state.queue == [];
  }

  // ---------------------------------------------------------------- what settles an undecided key

  predicate OwnRelease(s: State, e: Event) { !e.IsTick() && !e.pressed && e.key == s.slot.event.key }

  /** A release of another key whose press waits, with permissive hold on. */
  predicate NestedTap(s: State, e: Event, env: Env)
  {
    !e.IsTick() && !e.pressed && e.key != s.slot.event.key && Typed(s.queue, e) && env.permissiveHold(s.slot, s.out)
  }

  /** The slot as a press of a further key leaves it. */
  function Interrupted(slot: Record): Record { slot.(tap := slot.tap.(interrupted := true)) }

  /** A press, with hold-on-other-key on. */
  predicate OtherPress(s: State, e: Event, env: Env)
  {
    !e.IsTick() && e.pressed && env.holdOnOtherKey(Interrupted(s.slot), s.out)
  }

  /** An undecided key is settled exactly by these: as a tap by its own release inside the term, as a hold
      by anything past the term, a nested tap or another press. The settling record goes on waiting,
      the tap's release with the tap's count; every other record leaves the key undecided. */
  lemma SettledExactly(s: State, r: Record, env: Env)
    requires Unsettled(s.slot)
    ensures var e, o := r.event, Process(s, r, env);
      var within, press := WithinTerm(s, e, env), !e.IsTick() && e.pressed;
      var tapped := s.slot.(tap := s.slot.tap.(count := 1));
      if within && OwnRelease(s, e) then
        o == Outcome(State(tapped, s.queue, s.out + [Handed(tapped, FromSlot)]), false, r.(tap := tapped.tap))
      else if !within || NestedTap(s, e, env) then
        o == Outcome(State(NO_RECORD, s.queue, s.out + [Handed(s.slot, FromSlot)]), false, r)
      else if OtherPress(s, e, env) then
        o == Outcome(State(NO_RECORD, s.queue, s.out + [Handed(Interrupted(s.slot), FromSlot)]), false, r)
      else
        && Unsettled(o.state.slot) && o.state.slot == (if press then Interrupted(s.slot) else s.slot)
        && o.state.queue == s.queue && o.rec == r
        && (o.done <==> e.IsTick() || (!e.pressed && !Typed(s.queue, e) && !env.retain(r, s.out)))
        && o.state.out == if o.done && !e.IsTick() then s.out + [Handed(r, FromEvent)] else s.out
  {
  }

  // ---------------------------------------------------------------- what is handed on beside the slot

  /** A record is handed on as it is, but for the release of a tapped key, which takes the tap state of
      its press, and for a further tap, which counts one more. */
  function Carried(s: State, r: Record, env: Env): Record
  {
    if Idle(s.slot) || s.slot.event.key != r.event.key || s.slot.tap.count == 0 then r
    else if s.slot.event.pressed then if r.event.pressed then r else r.(tap := s.slot.tap)
    else if r.event.pressed then r.(tap := s.slot.tap.(count := CountOf(s.slot.tap.count + 1)))
    else r
  }

  /** Only a key that was tapped twice or more is released on the spot, when another takes the slot. */
  predicate MadeUp(s: State, r: Record, o: Output)
    requires o.Handed?
  {
    && !Idle(s.slot) && s.slot.event.pressed && s.slot.tap.count > 1 && r.event.pressed
    && o.rec == Record(Event(s.slot.event.key, r.event.time, s.slot.event.kind, false), s.slot.tap)
  }

  lemma HandedAs(s: State, r: Record, env: Env)
    requires Inv(s)
    ensures var out := Process(s, r, env).state.out;
      forall i :: |s.out| <= i < |out| ==>
        && out[i].Handed?
        && (out[i].origin.FromEvent? ==> out[i].rec == Carried(s, r, env))
        && (out[i].origin.Synthetic? ==> MadeUp(s, r, out[i]))
  {
    hide ScanTap;
    ScanTapHandsSlot(s.(slot := r), env);
    var release := Record(Event(s.slot.event.key, r.event.time, s.slot.event.kind, false), s.slot.tap);
    ScanTapHandsSlot(Hand(s, release, Synthetic).(slot := r), env);
  }

  lemma ScanTapHandsSlot(s: State, env: Env)
    ensures var out := ScanTap(s, env).out;
      s.out <= out && forall i :: |s.out| <= i < |out| ==> out[i].Handed? && out[i].origin.FromSlot?
  {
  }

  /** When a press enters the slot, the first waiting release of its key inside the term settles it as a
      tap, and that release is marked with the tap's count; without one it stays undecided. */
  lemma ScanTapExactly(s: State, env: Env, i: nat)
    requires Unsettled(s.slot) && i <= |s.queue|
    requires forall j :: 0 <= j < i ==> !Candidate(s, s.queue[j], env)
    requires i < |s.queue| ==> Candidate(s, s.queue[i], env)
    ensures var tapped := s.slot.(tap := s.slot.tap.(count := 1));
      ScanTap(s, env) == if i == |s.queue| then s
        else State(tapped, s.queue[i := s.queue[i].(tap := s.queue[i].tap.(count := 1))],
                   s.out + [Handed(tapped, FromSlot)])
  {
  }
}
