/** A timing discipline that keeps every deadline inside the 32-bit window, and what the wrapping
    executor guarantees under it. */
module DeferredTiming {
  import opened Keyboard
  import opened DeferredSpec
  import opened DeferredIdeal
  import opened DeferredRun
  import opened DeferredGuarantees
  import opened DeferredPromises

  // ---------------------------------------------------------------- the discipline

  /** No request asks for more than `longest` milliseconds. */
  predicate OpTimely(op: Op, longest: nat)
  {
    (op.Defer? || op.Extend?) ==> op.delay <= longest
  }

  /** A repeating callback asks for at least the time between two passes. */
  predicate ScriptTimely(script: Script, gap: nat, longest: nat)
  {
    && (script.delay == 0 || gap <= script.delay <= longest)
    && forall k :: 0 <= k < |script.calls| ==> OpTimely(script.calls[k].op, longest)
  }

  /** Passes start at most `gap` milliseconds apart and take no longer than that. */
  ghost predicate StepTimely(s: Sched, input: Input, gap: nat, longest: nat)
  {
    && (input.Request? ==> OpTimely(input.op, longest))
    && (input.Pass? ==>
          && s.clock - s.last <= gap && Step(s, input).clock - s.clock <= gap
          && forall n :: ScriptTimely(input.behave(n), gap, longest))
  }

  predicate ReuseFreeFrom(s: Sched, i: nat, now: nat, behave: nat -> Script)
    requires i <= |s.jobs|
    decreases |s.jobs| - i
  {
    i < |s.jobs| ==>
      && (s.jobs[i].Job? && s.jobs[i].due <= now ==> NoReuse(s, i, behave))
      && ReuseFreeFrom(Visit(s, i, now, behave), i + 1, now, behave)
  }

  ghost predicate TimelyRun(s: Sched, inputs: seq<Input>, gap: nat, longest: nat)
  {
    inputs != [] ==>
      var init, last := inputs[..|inputs| - 1], inputs[|inputs| - 1];
      var u := Run(s, init);
      && TimelyRun(s, init, gap, longest)
      && StepTimely(u, last, gap, longest)
      && (last.Pass? && u.clock > u.last ==> ReuseFreeFrom(u.(last := u.clock), 0, u.clock, last.behave))
  }

  // ---------------------------------------------------------------- deadlines stay in the window

  /** Whatever a stretch of calls leaves in a slot was there before or is at most `longest` ahead. */
  predicate FreshWithin(s: Sched, u: Sched, longest: nat)
  {
    && |u.jobs| == |s.jobs| && u.clock >= s.clock
    && forall m :: 0 <= m < |s.jobs| && u.jobs[m].Job? ==> u.jobs[m] == s.jobs[m] || u.jobs[m].due <= u.clock + longest
  }

  lemma {:induction false} ApplyAllFresh(s: Sched, calls: seq<Call>, longest: nat)
    requires forall k :: 0 <= k < |calls| ==> OpTimely(calls[k].op, longest)
    ensures FreshWithin(s, ApplyAll(s, calls), longest)
    decreases |calls|
  {
    if calls != [] {
      AfterFresh(s, calls[0], longest);
      hide After;
      ApplyAllFresh(After(s, calls[0]), calls[1..], longest);
    }
  }

  lemma AfterFresh(s: Sched, call: Call, longest: nat)
    requires OpTimely(call.op, longest)
    ensures FreshWithin(s, After(s, call), longest)
  {
    hide Search, Usable, Slot;
  }

  /** In the middle of a pass: visited slots hold later deadlines, the others are not older than the
      previous pass, and nothing is further ahead than two of the longest delays. */
  predicate InBounds(s: Sched, i: nat, previous: nat, now: nat, longest: nat)
  {
    && now <= s.clock
    && forall m :: 0 <= m < |s.jobs| && s.jobs[m].Job? ==>
         (if m < i then now else previous) < s.jobs[m].due <= s.clock + 2 * longest
  }

  lemma VisitInBounds(s: Sched, i: nat, previous: nat, now: nat, behave: nat -> Script, gap: nat, longest: nat)
    requires Ok(s) && i < |s.jobs| && InBounds(s, i, previous, now, longest) && previous <= now <= previous + gap
    requires ScriptTimely(behave(s.invoked), gap, longest)
    ensures InBounds(Visit(s, i, now, behave), i + 1, previous, now, longest)
  {
    var j := s.jobs[i];
    if j.Job? && j.due <= now {
      hide ApplyAll;
      var fired := Firing(s, i);
      var u := Invoke(s, i, behave);
      InvokeEvolves(s, i, behave);
      ApplyAllFresh(fired, behave(s.invoked).calls, longest);
      forall m | 0 <= m < |s.jobs| && u.jobs[m].Job?
        ensures u.jobs[m] == s.jobs[m] || now < u.jobs[m].due <= u.clock + longest
      {
        assert SlotEvolves(fired, u, m);
      }
    }
  }

  lemma {:induction false} PassIsSafe(s: Sched, i: nat, previous: nat, now: nat, behave: nat -> Script, gap: nat,
                                      longest: nat)
    requires Ok(s) && i <= |s.jobs| && InBounds(s, i, previous, now, longest) && previous <= now <= previous + gap
    requires forall n :: ScriptTimely(behave(n), gap, longest)
    requires gap + 2 * longest < HALF && VisitFrom(s, i, now, behave).clock <= now + gap
    requires ReuseFreeFrom(s, i, now, behave)
    ensures SafeFrom(s, i, now, behave)
    ensures var r := VisitFrom(s, i, now, behave); InBounds(r, |r.jobs|, previous, now, longest) && r.last == s.last
    decreases |s.jobs| - i
  {
    VisitFromExtends(s, i, now, behave);
    if i < |s.jobs| {
      hide Visit, ScriptTimely, NoReuse;
      VisitInBounds(s, i, previous, now, behave, gap, longest);
      VisitIsTurn(s, i, now, behave);
      PassIsSafe(Visit(s, i, now, behave), i + 1, previous, now, behave, gap, longest);
    }
  }

  /** Between steps: deadlines lie after the last pass and at most two longest delays ahead. */
  predicate Resting(s: Sched, longest: nat)
  {
    && s.last <= s.clock
    && forall m :: 0 <= m < |s.jobs| && s.jobs[m].Job? ==> s.last < s.jobs[m].due <= s.clock + 2 * longest
  }

  lemma RequestKeepsResting(s: Sched, op: Op, longest: nat)
    requires Ok(s) && Resting(s, longest) && OpTimely(op, longest)
    ensures Resting(Apply(s, op), longest)
  {
    hide Apply;
    ApplyEvolves(s, op);
    assert After(s, Call(0, op)) == Apply(s, op);
    AfterFresh(s, Call(0, op), longest);
    var u := Apply(s, op);
    forall m | 0 <= m < |u.jobs| && u.jobs[m].Job? ensures u.last < u.jobs[m].due <= u.clock + 2 * longest {
      assert SlotEvolves(s, u, m);
    }
  }

  /** With passes at most `gap` apart, repeat delays of at least `gap`, and no delay so long that
      `gap` plus twice it reaches 2^31, every pass of every run is safe, so by RunRefines the
      wrapping executor is the ideal scheduler throughout. */
  lemma {:induction false} TimelyRunsAreSafe(size: nat, inputs: seq<Input>, gap: nat, longest: nat)
    requires gap + 2 * longest < HALF && TimelyRun(Boot(size), inputs, gap, longest)
    ensures SafeRun(Boot(size), inputs) && Resting(Run(Boot(size), inputs), longest)
  {
    if inputs != [] {
      hide Apply, VisitFrom, SafeFrom, ReuseFreeFrom, OpTimely, ScriptTimely, Recorded;
      var init, last := inputs[..|inputs| - 1], inputs[|inputs| - 1];
      TimelyRunsAreSafe(size, init, gap, longest);
      NeverEarly(size, init);
      var s := Run(Boot(size), init);
      RecordedIsOk(s);
      match last {
        case Wait(ms) =>
        case Request(op) => RequestKeepsResting(s, op, longest);
        case Pass(behave) =>
          if s.clock > s.last {
            var t := s.(last := s.clock);
            OkIgnoresTime(s, t);
            PassIsSafe(t, 0, s.last, s.clock, behave, gap, longest);
            VisitFromExtends(t, 0, s.clock, behave);
          }
      }
    }
  }

  lemma TimelyExecutorIsIdeal(size: nat, inputs: seq<Input>, gap: nat, longest: nat)
    requires gap + 2 * longest < HALF && TimelyRun(Boot(size), inputs, gap, longest)
    ensures Stored(Run(Boot(size), inputs)) == RunStored(Stored(Boot(size)), inputs)
  {
    hide Run, RunStored, TimelyRun, SafeRun;
    TimelyRunsAreSafe(size, inputs, gap, longest);
    RunRefines(Boot(size), inputs);
  }

  // ---------------------------------------------------------------- what the firmware promises then

  /** The wrapping executor never calls a callback early, its repeats do not drift, and each live entry
      holds its true deadline, wrapped. */
  lemma TimelyExecutorIsOnTime(size: nat, inputs: seq<Input>, gap: nat, longest: nat)
    requires gap + 2 * longest < HALF && TimelyRun(Boot(size), inputs, gap, longest)
    ensures OnTime(RunStored(Stored(Boot(size)), inputs))
  {
    hide RunStored, SafeRun, OnTime;
    TimelyRunsAreSafe(size, inputs, gap, longest);
    SafeExecutorIsOnTime(size, inputs);
  }

  /** Every pass that is not throttled does its work in time. */
  lemma TimelyPassIsPrompt(size: nat, inputs: seq<Input>, behave: nat -> Script, gap: nat, longest: nat)
    requires gap + 2 * longest < HALF && TimelyRun(Boot(size), inputs + [Pass(behave)], gap, longest)
    requires var t := RunStored(Stored(Boot(size)), inputs); !NotAfter(t.clock % WRAP, t.last)
    ensures PromptPass(RunStored(Stored(Boot(size)), inputs), RunStored(Stored(Boot(size)), inputs + [Pass(behave)]))
  {
    hide RunStored, SafeRun, PromptPass, NotAfter;
    TimelyRunsAreSafe(size, inputs + [Pass(behave)], gap, longest);
    SafePassIsPrompt(size, inputs, behave);
  }
}
