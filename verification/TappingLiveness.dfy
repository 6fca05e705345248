/** Ticks alone empty the waiting buffer. */
module TappingLiveness {
  import opened Keyboard
  import opened Arithmetic
  import opened TappingSpec
  import opened TappingRun

  /** An upper bound on the ticks until a waiting record moves, if the next tick is stamped `now`. */
  function Patience(s: State, now: uint16, maxTerm: uint16): nat
  {
    if Unsettled(s.slot) then
      var d := TimerDiff16(now, s.slot.event.time);
      if d >= maxTerm then 0 else maxTerm - d
    else if !Idle(s.slot) && !s.slot.event.pressed then 1
    else 0
  }

  function Budget(s: State, now: uint16, maxTerm: uint16): nat
  {
    |s.queue| * (maxTerm + 2) + Patience(s, now, maxTerm)
  }

  function Tick(now: uint16): Event { Event(Key(0, 0), now, TickEvent, false) }

  ghost predicate TermsAtMost(env: Env, maxTerm: uint16)
  {
    forall r, t :: env.term(r, t) <= maxTerm
  }

  lemma {:induction false} DrainShrinks(s: State, env: Env)
    ensures |Drain(s, env).queue| <= |s.queue|
    decreases |s.queue|
  {
    hide Process;
    if s.queue != [] {
      var o := Process(s, s.queue[0], env);
      ProcessKeepsQueueLength(s, s.queue[0], env);
      if o.done {
        DrainShrinks(o.state.(queue := o.state.queue[0 := o.rec][1..]), env);
      }
    }
  }

  /** A tick leaves the slot alone or empties it; an undecided slot that stays is inside its term. */
  lemma TickEffect(s: State, now: uint16, env: Env)
    ensures var t := Admit(Process(s, NewRecord(Tick(now)), env));
      && t.queue == s.queue
      && (Idle(t.slot) || t.slot == s.slot)
      && (Unsettled(t.slot) ==> WithinTerm(s, Tick(now), env))
  {
  }

  /** Once the tick has passed, the queue's head either goes through or wears the slot down. */
  lemma HeadProgress(s: State, now: uint16, env: Env, maxTerm: uint16)
    requires Inv(s) && s.queue != [] && TermsAtMost(env, maxTerm)
    requires Unsettled(s.slot) ==> TimerDiff16(now, s.slot.event.time) < maxTerm
    ensures var o := Process(s, s.queue[0], env);
      o.done || Patience(o.state, (now + 1) % 0x1_0000, maxTerm) < Patience(s, now, maxTerm)
  {
    hide ScanTap, Typed;
  }

  /** One tick with something waiting brings the budget down. */
  lemma TickProgress(s: State, now: uint16, env: Env, maxTerm: uint16)
    requires Inv(s) && TermsAtMost(env, maxTerm)
    ensures var t := Step(s, Tick(now), env);
      && Inv(t)
      && (s.queue == [] ==> t.queue == [])
      && (s.queue != [] ==> Budget(t, (now + 1) % 0x1_0000, maxTerm) < Budget(s, now, maxTerm))
  {
    hide Process, Inv, Total;
    var u := Admit(Process(s, NewRecord(Tick(now)), env));
    TickEffect(s, now, env);
    StepConserves(s, Tick(now), env);
    ProcessConserves(s, NewRecord(Tick(now)), env);
    AdmitConserves(s, NewRecord(Tick(now)), Process(s, NewRecord(Tick(now)), env));
    if s.queue != [] {
      HeadProgress(u, now, env, maxTerm);
      var o := Process(u, u.queue[0], env);
      ProcessKeepsQueueLength(u, u.queue[0], env);
      if o.done {
        DrainShrinks(o.state.(queue := o.state.queue[0 := o.rec][1..]), env);
        BudgetDrops(Drain(u, env), s, now, maxTerm);
      }
    }
  }

  lemma BudgetDrops(t: State, s: State, now: uint16, maxTerm: uint16)
    requires |t.queue| < |s.queue|
    ensures Budget(t, (now + 1) % 0x1_0000, maxTerm) < Budget(s, now, maxTerm)
  {
    NextMultiple(|t.queue|, |s.queue|, maxTerm + 2);
    assert Patience(t, (now + 1) % 0x1_0000, maxTerm) < maxTerm + 2;
  }

  /** A run of ticks with consecutive stamps starting at `now`. */
  function RunTicks(s: State, now: uint16, envs: seq<Env>): State
    decreases |envs|
  {
    if envs == [] then s
    else RunTicks(Step(s, Tick(now), envs[0]), (now + 1) % 0x1_0000, envs[1..])
  }

  /** Liveness: ticks alone empty the waiting buffer within the budget, across timer wrap. */
  lemma {:induction false} TicksEmptyTheBuffer(s: State, now: uint16, envs: seq<Env>, maxTerm: uint16)
    requires Inv(s)
    requires forall i :: 0 <= i < |envs| ==> TermsAtMost(envs[i], maxTerm)
    requires s.queue == [] || |envs| >= Budget(s, now, maxTerm)
    ensures RunTicks(s, now, envs).queue == []
    decreases |envs|
  {
    hide Step, Patience;
    if envs != [] {
      TickProgress(s, now, envs[0], maxTerm);
      TicksEmptyTheBuffer(Step(s, Tick(now), envs[0]), (now + 1) % 0x1_0000, envs[1..], maxTerm);
    }
  }

  lemma {:induction false} BufferFits(inputs: seq<Input>)
    ensures |Run(inputs).queue| < WAITING_BUFFER_SIZE
  {
    if inputs != [] {
      hide Process;
      var init, last := inputs[..|inputs| - 1], inputs[|inputs| - 1];
      BufferFits(init);
      ProcessKeepsQueueLength(Run(init), NewRecord(last.event), last.env);
      DrainShrinks(Admit(Process(Run(init), NewRecord(last.event), last.env)), last.env);
    }
  }

  lemma BudgetBound(s: State, now: uint16, maxTerm: uint16)
    requires |s.queue| < WAITING_BUFFER_SIZE
    ensures Budget(s, now, maxTerm) <= WAITING_BUFFER_SIZE * (maxTerm + 2)
  {
    assert |s.queue| * (maxTerm + 2) <= 7 * (maxTerm + 2);
  }

  /** After any run whatever, a bounded number of ticks leaves nothing waiting. */
  lemma EveryRunSettles(inputs: seq<Input>, now: uint16, envs: seq<Env>, maxTerm: uint16)
    requires forall i :: 0 <= i < |envs| ==> TermsAtMost(envs[i], maxTerm)
    requires |envs| >= WAITING_BUFFER_SIZE * (maxTerm + 2)
    ensures RunTicks(Run(inputs), now, envs).queue == []
  {
    hide Run, Inv, RunTicks, TermsAtMost, Total, Live, Budget;
    BufferFits(inputs);
    NothingLostNothingDuplicated(inputs);
    BudgetBound(Run(inputs), now, maxTerm);
    TicksEmptyTheBuffer(Run(inputs), now, envs, maxTerm);
  }
}
