/** Why each tapping key was taken as a tap or as a hold: which input, after the key's press, decided it. */
module TappingEvidence {
  import opened Keyboard
  import opened TappingSpec
  import opened TappingRun

  // ---------------------------------------------------------------- evidence

  /** The slot counted as a tap because of a release of its key inside its term. */
  predicate TapEvidence(slot: Record, before: Trace, e: Event, env: Env)
  {
    && !e.IsTick() && e.key == slot.event.key && !e.pressed
    && TimerDiff16(e.time, slot.event.time) < env.term(slot.(tap := slot.tap.(count := 0)), before)
  }

  /** Input `q` came after the press `p`, unless `p` is one of the presses known to be late. */
  predicate Follows(p: nat, q: nat, late: set<nat>) { p < q || (p in late && p != q) }

  /** The press that makes a release of another key count as a nested tap. It lies between the tapping
      key's press `p` and the release `q` if the release is the arriving event `n`; if the release was
      waiting already, the press that the firmware finds came after it. */
  predicate NestedPress(inputs: seq<Input>, p: nat, q: nat, m: nat, n: nat, late: set<nat>)
    requires p <= n && q <= n < |inputs| && m <= n
  {
    && inputs[m].event.pressed && inputs[m].event.key == inputs[q].event.key
    && if q == n then m < q && Follows(p, m, late) else q < m
  }

  /** The press `p` counted as a hold because of input `q`, under the decisions of step `n`: an event at
      or past its term, a release that ends a nested tap under permissive hold, or a press under
      hold-on-other-key. */
  ghost predicate HoldEvidence(slot: Record, before: Trace, inputs: seq<Input>, p: nat, q: nat, n: nat, late: set<nat>)
    requires p <= n && q <= n < |inputs|
  {
    var e, env := inputs[q].event, inputs[n].env;
    || TimerDiff16(e.time, slot.event.time) >= env.term(slot, before)
    || (!e.IsTick() && !e.pressed && e.key != slot.event.key && env.permissiveHold(slot, before)
        && exists m :: 0 <= m <= n && NestedPress(inputs, p, q, m, n, late))
    || (!e.IsTick() && e.pressed && env.holdOnOtherKey(slot, before))
  }

  /** What step `n` hands on from the tapping slot is a press `p` that an input `q` no later than the
      step has decided; `q` came after `p`, unless `p` is a late press. */
  ghost predicate DecidedAt(o: Output, before: Trace, inputs: seq<Input>, n: nat, late: set<nat>)
    requires n < |inputs|
  {
    o.Handed? && o.origin.FromSlot? ==>
      && o.rec.event.pressed
      && exists p, q ::
           && 0 <= p <= n && 0 <= q <= n && Follows(p, q, late) && inputs[p].event == o.rec.event
           && Decided(o.rec, before, inputs, p, q, n, late)
  }

  ghost predicate Decided(slot: Record, before: Trace, inputs: seq<Input>, p: nat, q: nat, n: nat, late: set<nat>)
    requires p <= n && q <= n < |inputs|
  {
    || (slot.tap.count == 1 && TapEvidence(slot, before, inputs[q].event, inputs[n].env))
    || (slot.tap.count == 0 && HoldEvidence(slot, before, inputs, p, q, n, late))
  }

  /** Everything that step `n` has added to the trace is decided. */
  ghost predicate AllDecided(a: Trace, b: Trace, inputs: seq<Input>, n: nat, late: set<nat>)
    requires n < |inputs|
  {
    a <= b && forall i :: |a| <= i < |b| ==> DecidedAt(b[i], b[..i], inputs, n, late)
  }

  lemma OneDecided(a: Trace, o: Output, inputs: seq<Input>, n: nat, late: set<nat>)
    requires n < |inputs| && DecidedAt(o, a, inputs, n, late)
    ensures AllDecided(a, a + [o], inputs, n, late)
  {
    assert (a + [o])[..|a|] == a;
  }

  lemma DecidedJoin(a: Trace, b: Trace, c: Trace, inputs: seq<Input>, n: nat, late: set<nat>)
    requires n < |inputs| && AllDecided(a, b, inputs, n, late) && AllDecided(b, c, inputs, n, late)
    ensures AllDecided(a, c, inputs, n, late)
  {
    hide DecidedAt;
    forall i | |a| <= i < |c| ensures DecidedAt(c[i], c[..i], inputs, n, late) {
      if i < |b| {
        assert c[..i] == b[..i] && c[i] == b[i];
      }
    }
  }

  // ---------------------------------------------------------------- presses that jump the queue

  /** Does this press enter the tapping slot as an undecided key? */
  predicate Enters(s: State, r: Record, env: Env)
  {
    && !r.event.IsTick() && r.event.pressed
    && if Idle(s.slot) then env.isTap(r, s.out)
       else if s.slot.event.pressed then s.slot.tap.count > 0 && env.isTap(r, s.out)
       else
         && WithinTerm(s, r.event, env)
         && if s.slot.event.key == r.event.key then !Requick(s, r, env) else env.isTap(r, s.out)
  }

  /** A further tap of the tapping key. */
  predicate Requick(s: State, r: Record, env: Env)
  {
    WithinQuickTerm(s, r.event, env) && !s.slot.tap.interrupted && s.slot.tap.count > 0
  }

  /** An arriving press that enters the slot while earlier records wait: those are compared with it
      afterwards, although they came before it. */
  predicate Jumps(s: State, e: Event, env: Env)
  {
    s.queue != [] && Enters(s, NewRecord(e), env)
  }

  /** The inputs of a run that are such presses. */
  function Jumpers(inputs: seq<Input>): set<nat>
  {
    set p | 0 <= p < |inputs| && Jumps(Run(inputs[..p]), inputs[p].event, inputs[p].env)
  }

  /** Whatever undecided key is in the slot after a record was processed was there before, or is that record. */
  lemma SlotAfter(s: State, r: Record, env: Env)
    ensures var o := Process(s, r, env);
      Unsettled(o.state.slot) ==>
        if Enters(s, r, env) then o.done && o.state.slot.event == r.event
        else Unsettled(s.slot) && o.state.slot.event == s.slot.event
  {
  }

  // ---------------------------------------------------------------- where records came in

  /** The inputs that the slot's and the waiting records' events came in with. */
  datatype Places = Places(slot: nat, queue: seq<nat>)

  /** Records wait in the order they came in, all later than an undecided slot's press that is not late. */
  ghost predicate Placed(s: State, inputs: seq<Input>, n: nat, at: Places, late: set<nat>)
  {
    && n <= |inputs| && |at.queue| == |s.queue|
    && (forall i :: 0 <= i < |at.queue| ==> at.queue[i] < n && inputs[at.queue[i]].event == s.queue[i].event)
    && (forall i, j :: 0 <= i < j < |at.queue| ==> at.queue[i] < at.queue[j])
    && (Unsettled(s.slot) ==>
          && at.slot < n && inputs[at.slot].event == s.slot.event
          && forall i :: 0 <= i < |at.queue| ==> Follows(at.slot, at.queue[i], late))
  }

  /** A record that came in as input `x` is processed in step `n`: it has just arrived, or it is the
      first one waiting. */
  ghost predicate Due(s: State, r: Record, inputs: seq<Input>, n: nat, at: Places, x: nat, late: set<nat>)
  {
    && n < |inputs| && Placed(s, inputs, n + 1, at, late) && x <= n && inputs[x].event == r.event
    && (Unsettled(s.slot) ==> Follows(at.slot, x, late))
    && (Enters(s, r, inputs[n].env) ==> x in late || forall i :: 0 <= i < |at.queue| ==> x <= at.queue[i])
    && (|| (x == n && forall i :: 0 <= i < |at.queue| ==> at.queue[i] < n)
        || (forall i :: 0 <= i < |at.queue| ==> x <= at.queue[i]))
  }

  lemma ScanTapDecided(s: State, inputs: seq<Input>, n: nat, queue: seq<nat>, x: nat, late: set<nat>)
    requires n < |inputs| && x <= n && inputs[x].event == s.slot.event && s.slot.event.pressed && |queue| == |s.queue|
    requires forall i :: 0 <= i < |queue| ==>
      (x <= queue[i] || x in late) && queue[i] <= n && inputs[queue[i]].event == s.queue[i].event
    ensures AllDecided(s.out, ScanTap(s, inputs[n].env).out, inputs, n, late)
  {
    var env := inputs[n].env;
    var i := FirstCandidate(s, env, 0);
    if s.slot.tap.count == 0 && i < |s.queue| {
      var slot := s.slot.(tap := s.slot.tap.(count := 1));
      assert slot.(tap := slot.tap.(count := 0)) == s.slot;
      assert Follows(x, queue[i], late);
      assert Decided(slot, s.out, inputs, x, queue[i], n, late);
      OneDecided(s.out, Handed(slot, FromSlot), inputs, n, late);
    }
  }

  lemma HoldDecided(slot: Record, before: Trace, inputs: seq<Input>, p: nat, q: nat, n: nat, late: set<nat>)
    requires p <= n && q <= n < |inputs| && Follows(p, q, late)
    requires slot.event.pressed && slot.tap.count == 0 && inputs[p].event == slot.event
    requires HoldEvidence(slot, before, inputs, p, q, n, late)
    ensures AllDecided(before, before + [Handed(slot, FromSlot)], inputs, n, late)
  {
    assert Decided(slot, before, inputs, p, q, n, late) by { hide HoldEvidence; }
    OneDecided(before, Handed(slot, FromSlot), inputs, n, late);
  }

  lemma UnsettledDecided(s: State, r: Record, inputs: seq<Input>, n: nat, at: Places, x: nat, late: set<nat>)
    requires Due(s, r, inputs, n, at, x, late) && Unsettled(s.slot) && !r.event.IsTick() &&
      WithinTerm(s, r.event, inputs[n].env)
    ensures AllDecided(s.out, ProcessUnsettled(s, r, inputs[n].env).state.out, inputs, n, late)
  {
    hide AllDecided, Enters;
    var e, env := r.event, inputs[n].env;
    if s.slot.event.key == e.key && !e.pressed {
      var slot := s.slot.(tap := s.slot.tap.(count := 1));
      assert slot.(tap := slot.tap.(count := 0)) == s.slot;
      assert Decided(slot, s.out, inputs, at.slot, x, n, late);
      OneDecided(s.out, Handed(slot, FromSlot), inputs, n, late);
    } else if !e.pressed && Typed(s.queue, e) && env.permissiveHold(s.slot, s.out) {
      var i :| 0 <= i < |s.queue| && s.queue[i].event.key == e.key && s.queue[i].event.pressed != e.pressed;
      assert at.queue[i] != x;
      assert NestedPress(inputs, at.slot, x, at.queue[i], n, late);
      HoldDecided(s.slot, s.out, inputs, at.slot, x, n, late);
    } else if !e.pressed {
      NothingDecided(s.out, Handed(r, FromEvent), inputs, n, late);
    } else {
      var slot := s.slot.(tap := s.slot.tap.(interrupted := true));
      if env.holdOnOtherKey(slot, s.out) {
        HoldDecided(slot, s.out, inputs, at.slot, x, n, late);
      } else {
        NothingDecided(s.out, Cleared, inputs, n, late);
      }
    }
  }

  lemma NothingDecided(out: Trace, o: Output, inputs: seq<Input>, n: nat, late: set<nat>)
    requires n < |inputs| && (o.Handed? ==> !o.origin.FromSlot?)
    ensures AllDecided(out, out, inputs, n, late) && AllDecided(out, out + [o], inputs, n, late)
  {
    OneDecided(out, o, inputs, n, late);
  }

  /** The trace when a press enters the slot: a tapping key that was tapped more than once is released. */
  function EntryTrace(s: State, r: Record): Trace
  {
    if !Idle(s.slot) && s.slot.event.pressed && s.slot.tap.count > 1
    then s.out + [Handed(Record(Event(s.slot.event.key, r.event.time, s.slot.event.kind, false), s.slot.tap),
      Synthetic)]
    else s.out
  }

  lemma EntersIs(s: State, r: Record, env: Env)
    requires Enters(s, r, env)
    ensures var o, t := Process(s, r, env), State(r, s.queue, EntryTrace(s, r));
      o.done && o.rec == r && (o.state == ScanTap(t, env) || o.state == t)
  {
    hide ScanTap;
  }

  lemma EnteringDecided(s: State, r: Record, inputs: seq<Input>, n: nat, at: Places, x: nat, late: set<nat>)
    requires Due(s, r, inputs, n, at, x, late) && Enters(s, r, inputs[n].env)
    ensures AllDecided(s.out, Process(s, r, inputs[n].env).state.out, inputs, n, late)
  {
    hide AllDecided, Process, ScanTap;
    var env := inputs[n].env;
    EntersIs(s, r, env);
    var t := State(r, s.queue, EntryTrace(s, r));
    NothingDecided(s.out, Cleared, inputs, n, late);
    if t.out != s.out {
      NothingDecided(s.out, t.out[|s.out|], inputs, n, late);
    }
    assert AllDecided(s.out, t.out, inputs, n, late);
    NothingDecided(t.out, Cleared, inputs, n, late);
    ScanTapDecided(t, inputs, n, at.queue, x, late);
    DecidedJoin(s.out, t.out, ScanTap(t, env).out, inputs, n, late);
  }

  lemma TimeoutDecided(s: State, r: Record, inputs: seq<Input>, n: nat, at: Places, x: nat, late: set<nat>)
    requires Due(s, r, inputs, n, at, x, late) && Unsettled(s.slot) && !WithinTerm(s, r.event, inputs[n].env)
    ensures AllDecided(s.out, s.out + [Handed(s.slot, FromSlot)], inputs, n, late)
  {
    HoldDecided(s.slot, s.out, inputs, at.slot, x, n, late);
  }

  /** Whatever processing a record hands on from the slot has its evidence. */
  lemma ProcessDecided(s: State, r: Record, inputs: seq<Input>, n: nat, at: Places, x: nat, late: set<nat>)
    requires Due(s, r, inputs, n, at, x, late)
    ensures AllDecided(s.out, Process(s, r, inputs[n].env).state.out, inputs, n, late)
  {
    hide AllDecided, Placed, ScanTap;
    var e, env := r.event, inputs[n].env;
    NothingDecided(s.out, Cleared, inputs, n, late);
    forall t: Tap ensures AllDecided(s.out, s.out + [Handed(r.(tap := t), FromEvent)], inputs, n, late) {
      NothingDecided(s.out, Handed(r.(tap := t), FromEvent), inputs, n, late);
    }
    assert r == r.(tap := r.tap);
    if Enters(s, r, env) {
      EnteringDecided(s, r, inputs, n, at, x, late);
    } else if Unsettled(s.slot) {
      if !WithinTerm(s, e, env) {
        TimeoutDecided(s, r, inputs, n, at, x, late);
      } else if !e.IsTick() {
        UnsettledDecided(s, r, inputs, n, at, x, late);
      }
    }
  }

  // ---------------------------------------------------------------- steps and runs

  /** One turn of the drain loop. */
  lemma TurnPlaced(s: State, inputs: seq<Input>, n: nat, at: Places, o: Outcome, queue: seq<Record>,
                   t: State, late: set<nat>)
    returns (at': Places)
    requires s.queue != [] && n < |inputs| && Placed(s, inputs, n + 1, at, late)
    requires o == Process(s, s.queue[0], inputs[n].env)
    requires |o.state.queue| == |s.queue| && queue == o.state.queue[0 := o.rec] && Events(queue) == Events(s.queue)
    requires t == o.state.(queue := if o.done then queue[1..] else queue)
    ensures Placed(t, inputs, n + 1, at', late)
  {
    hide Process, ScanTap, Enters;
    SlotAfter(s, s.queue[0], inputs[n].env);
    var entered := Enters(s, s.queue[0], inputs[n].env);
    at' := Places(if entered then at.queue[0] else at.slot, if o.done then at.queue[1..] else at.queue);
    assert |Events(queue)| == |queue| && |Events(s.queue)| == |s.queue|;
    forall i | 0 <= i < |queue| ensures queue[i].event == s.queue[i].event {
      assert Events(queue)[i] == Events(s.queue)[i];
    }
  }

  lemma {:induction false} DrainDecided(s: State, inputs: seq<Input>, n: nat, at: Places, late: set<nat>)
    returns (at': Places)
    requires n < |inputs| && Inv(s) && Placed(s, inputs, n + 1, at, late)
    ensures Placed(Drain(s, inputs[n].env), inputs, n + 1, at', late)
    ensures AllDecided(s.out, Drain(s, inputs[n].env).out, inputs, n, late)
    decreases |s.queue|
  {
    hide Process, AllDecided, Moves, Placed, Events, Enters;
    at' := at;
    NothingDecided(s.out, Cleared, inputs, n, late);
    if s.queue != [] {
      var env := inputs[n].env;
      var o := Process(s, s.queue[0], env);
      ProcessConserves(s, s.queue[0], env);
      ProcessKeepsQueueLength(s, s.queue[0], env);
      HeadIsDue(s, inputs, n, at, late);
      ProcessDecided(s, s.queue[0], inputs, n, at, at.queue[0], late);
      var queue := o.state.queue[0 := o.rec];
      HeadReplaced(o.state.queue, o.rec, s.queue);
      var t := o.state.(queue := if o.done then queue[1..] else queue);
      at' := TurnPlaced(s, inputs, n, at, o, queue, t, late);
      if o.done {
        assert Inv(t);
        at' := DrainDecided(t, inputs, n, at', late);
        DecidedJoin(s.out, t.out, Drain(t, env).out, inputs, n, late);
      }
    }
  }

  lemma HeadReplaced(queue: seq<Record>, r: Record, before: seq<Record>)
    requires |queue| == |before| > 0 && Events(queue) == Events(before) && r.event == before[0].event
    ensures Events(queue[0 := r]) == Events(before)
  {
    assert Events(queue)[0] == Events(before)[0];
  }

  lemma HeadIsDue(s: State, inputs: seq<Input>, n: nat, at: Places, late: set<nat>)
    requires n < |inputs| && s.queue != [] && Placed(s, inputs, n + 1, at, late)
    ensures |at.queue| == |s.queue| && Due(s, s.queue[0], inputs, n, at, at.queue[0], late)
  {
    hide Enters;
  }

  lemma ArrivalIsDue(s: State, inputs: seq<Input>, n: nat, at: Places, late: set<nat>)
    requires n < |inputs| && Placed(s, inputs, n, at, late)
    requires Jumps(s, inputs[n].event, inputs[n].env) ==> n in late
    ensures Placed(s, inputs, n + 1, at, late) && Due(s, NewRecord(inputs[n].event), inputs, n, at, n, late)
  {
    hide Enters;
  }

  /** The arriving record is admitted at its place: in the slot, or at the end of the queue. */
  lemma AdmitPlaced(s: State, inputs: seq<Input>, n: nat, at: Places, o: Outcome, late: set<nat>) returns (at': Places)
    requires n < |inputs| && Placed(s, inputs, n, at, late)
    requires Jumps(s, inputs[n].event, inputs[n].env) ==> n in late
    requires o == Process(s, NewRecord(inputs[n].event), inputs[n].env)
    requires Events(o.state.queue) == Events(s.queue) && o.rec.event == inputs[n].event
    ensures Placed(Admit(o), inputs, n + 1, at', late)
  {
    hide Process, ScanTap, Enters;
    var e, env := inputs[n].event, inputs[n].env;
    SlotAfter(s, NewRecord(e), env);
    var entered := Enters(s, NewRecord(e), env);
    var added := !(o.done || e.IsTick());
    at' := Places(if entered then n else at.slot, if !added then at.queue else if Full(o) then [] else at.queue + [n]);
    assert |Events(o.state.queue)| == |o.state.queue| && |Events(s.queue)| == |s.queue|;
    forall i | 0 <= i < |s.queue| ensures o.state.queue[i].event == s.queue[i].event {
      assert Events(o.state.queue)[i] == Events(s.queue)[i];
    }
  }

  lemma StepDecided(s: State, inputs: seq<Input>, n: nat, at: Places, late: set<nat>) returns (at': Places)
    requires n < |inputs| && Inv(s) && Placed(s, inputs, n, at, late)
    requires Jumps(s, inputs[n].event, inputs[n].env) ==> n in late
    ensures var t := Step(s, inputs[n].event, inputs[n].env);
      Inv(t) && Placed(t, inputs, n + 1, at', late) && AllDecided(s.out, t.out, inputs, n, late)
  {
    hide Process, AllDecided, Moves, Placed, Events, Inv, Total, Jumps;
    var r, env := NewRecord(inputs[n].event), inputs[n].env;
    var o := Process(s, r, env);
    ProcessConserves(s, r, env);
    ArrivalIsDue(s, inputs, n, at, late);
    ProcessDecided(s, r, inputs, n, at, n, late);
    AdmitConserves(s, r, o);
    at' := AdmitPlaced(s, inputs, n, at, o, late);
    NothingDecided(o.state.out, Cleared, inputs, n, late);
    DecidedJoin(s.out, o.state.out, Admit(o).out, inputs, n, late);
    DrainConserves(Admit(o), env);
    at' := DrainDecided(Admit(o), inputs, n, at', late);
    DecidedJoin(s.out, Admit(o).out, Drain(Admit(o), env).out, inputs, n, late);
  }

  lemma {:induction false} RunPlaced(inputs: seq<Input>, n: nat) returns (at: Places)
    requires n <= |inputs|
    ensures Inv(Run(inputs[..n])) && Placed(Run(inputs[..n]), inputs, n, at, Jumpers(inputs))
  {
    at := Places(0, []);
    if n > 0 {
      hide Step, Placed, Inv, Jumps, AllDecided;
      NextStep(inputs, n - 1);
      at := RunPlaced(inputs, n - 1);
      at := StepDecided(Run(inputs[..n - 1]), inputs, n - 1, at, Jumpers(inputs));
    }
  }

  /** In every run whatever, what a step hands on from the tapping slot is a press that an input decided:
      a tap by a release of the same key less than one term after it, a hold by a timeout, a nested tap
      under permissive hold, or a press under hold-on-other-key. That input came after the press, unless
      this very press jumped the queue when it arrived. */
  lemma EveryDecisionHasEvidence(inputs: seq<Input>, n: nat)
    requires n < |inputs|
    ensures AllDecided(Run(inputs[..n]).out, Run(inputs[..n + 1]).out, inputs, n, Jumpers(inputs))
  {
    hide Step, Placed, Inv, Jumps, AllDecided;
    NextStep(inputs, n);
    var at := RunPlaced(inputs, n);
    at := StepDecided(Run(inputs[..n]), inputs, n, at, Jumpers(inputs));
  }
}
