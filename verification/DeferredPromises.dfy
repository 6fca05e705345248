/** What the wrapping executor itself guarantees in every run whose passes are safe, that is, see their
    deadlines inside the 32-bit window while no callback meets its own token. */
module DeferredPromises {
  import opened Keyboard
  import opened DeferredSpec
  import opened DeferredIdeal
  import opened DeferredRun
  import opened DeferredGuarantees

  /** No callback was called early, repeats did not drift, and each live entry holds its true deadline,
      wrapped. */
  ghost predicate OnTime(t: Table)
  {
    && FiresOnTime(t.log) && NoDrift(t.log)
    && forall m :: 0 <= m < |t.entries| && t.entries[m].token != INVALID_TOKEN ==>
         0 <= DueIn(t.log, t.entries[m].token) && t.entries[m].trigger == DueIn(t.log, t.entries[m].token) % WRAP
  }

  lemma SafeExecutorIsOnTime(size: nat, inputs: seq<Input>)
    requires SafeRun(Boot(size), inputs)
    ensures OnTime(RunStored(Stored(Boot(size)), inputs))
  {
    hide Run, RunStored, SafeRun, Entries, Notes, DueIn, FiresOnTime, NoDrift;
    RunRefines(Boot(size), inputs);
    NeverEarly(size, inputs);
    var s := Run(Boot(size), inputs);
    EntriesAre(s.jobs);
    OnTimeMeansNoDrift(Notes(s.log));
  }

  /** Has the registration with this token been fired, extended or cancelled since? */
  predicate NotedSince(log: seq<Note>, from: nat, token: uint8)
  {
    exists k :: from <= k < |log| && (log[k].Fired? || log[k].Extended? || log[k].Cancelled?) && log[k].token == token
  }

  /** What one pass does, from the table before it and the table after it: whatever is truly due is
      called, unless a callback of the pass extends or cancels it first; only what the table held when
      the pass began is called, each slot at most once and nothing registered in the pass. */
  ghost predicate PromptPass(t: Table, r: Table)
  {
    && t.log <= r.log
    && (forall m :: 0 <= m < |t.entries| && t.entries[m].token != INVALID_TOKEN
                    && DueIn(t.log, t.entries[m].token) <= t.clock ==>
          NotedSince(r.log, |t.log|, t.entries[m].token))
    && ProperPass(t.entries, r.log, |t.log|, t.clock)
  }

  /** Every safe pass that is not throttled is prompt. */
  lemma SafePassIsPrompt(size: nat, inputs: seq<Input>, behave: nat -> Script)
    requires SafeRun(Boot(size), inputs + [Pass(behave)])
    requires var t := RunStored(Stored(Boot(size)), inputs); !NotAfter(t.clock % WRAP, t.last)
    ensures PromptPass(RunStored(Stored(Boot(size)), inputs), RunStored(Stored(Boot(size)), inputs + [Pass(behave)]))
  {
    hide Run, RunStored, Step, NotAfter, SafeFrom, Entries, Notes;
    var all := inputs + [Pass(behave)];
    assert all[..|all| - 1] == inputs;
    RunRefines(Boot(size), all);
    RunRefines(Boot(size), inputs);
    var s := Run(Boot(size), inputs);
    var r := Step(s, Pass(behave));
    assert Run(Boot(size), all) == r by { LastStep(Boot(size), inputs, Pass(behave)); }
    WindowExact(s.clock, s.last);
    EveryPass(size, inputs, behave);
    NeverEarly(size, inputs);
    PromptFromIdeal(s, r);
  }

  lemma LastStep(s: Sched, inputs: seq<Input>, input: Input)
    ensures Run(s, inputs + [input]) == Step(Run(s, inputs), input)
  {
    assert (inputs + [input])[..|inputs|] == inputs;
  }

  lemma PromptFromIdeal(s: Sched, r: Sched)
    requires Recorded(s) && s.log <= r.log && ProperPass(Entries(s.jobs), Notes(r.log), |s.log|, s.clock)
    requires forall m :: 0 <= m < |s.jobs| && s.jobs[m].Job? && s.jobs[m].due <= s.clock ==>
      TouchedSince(s.log, r.log, s.jobs[m])
    ensures PromptPass(Stored(s), Stored(r))
  {
    hide ProperPass, FiresOnTime, DueIn, Entries;
    var t := Stored(s);
    EntriesAre(s.jobs);
    forall m | && 0 <= m < |t.entries| && t.entries[m].token != INVALID_TOKEN
               && DueIn(t.log, t.entries[m].token) <= t.clock
      ensures NotedSince(Notes(r.log), |t.log|, t.entries[m].token)
    {
      var k :| |s.log| <= k < |r.log| && Touches(r.log[k], s.jobs[m]);
      assert Notes(r.log)[k] == r.log[k].note;
    }
    assert forall k :: 0 <= k < |s.log| ==> r.log[k] == s.log[k];
  }
}
