/** Whole runs of the deferred executor: when the wrapping table behaves as the ideal scheduler,
    and what the ideal scheduler guarantees. */
module DeferredRun {
  import opened Keyboard
  import opened DeferredSpec
  import opened DeferredIdeal

  // ---------------------------------------------------------------- when wrapping is harmless

  predicate InWindow(due: nat, now: nat) { -HALF <= due - now < HALF }

  /** The 32-bit test is right about a deadline exactly when that deadline is less than 2^31 ms
      ahead and at most 2^31 ms overdue (for deadlines less than 2^32 ms away). */
  lemma WindowExact(due: nat, now: nat)
    requires -WRAP < due - now < WRAP
    ensures (NotAfter(due % WRAP, now % WRAP) <==> due <= now) <==> InWindow(due, now)
  {
    var d := due - now;
    assert (due % WRAP - now % WRAP) % WRAP == d % WRAP by { ModDifference(due, now); }
    assert d % WRAP == if d >= 0 then d else d + WRAP;
  }

  lemma ModDifference(a: nat, b: nat)
    ensures (a % WRAP - b % WRAP) % WRAP == (a - b) % WRAP
  {
    assert a == WRAP * (a / WRAP) + a % WRAP && b == WRAP * (b / WRAP) + b % WRAP;
    assert a - b == WRAP * (a / WRAP - b / WRAP) + (a % WRAP - b % WRAP);
  }

  /** A callback that cancels itself and queues again does not get its old token back. */
  predicate NoReuse(s: Sched, i: nat, behave: nat -> Script)
    requires i < |s.jobs| && s.jobs[i].Job?
  {
    var u := Invoke(s, i, behave);
    u.jobs[i].Job? && u.jobs[i].token == s.jobs[i].token ==> u.jobs[i].serial == s.jobs[i].serial
  }

  predicate SafeVisit(s: Sched, i: nat, now: nat, behave: nat -> Script)
    requires i < |s.jobs|
  {
    s.jobs[i].Job? ==> InWindow(s.jobs[i].due, now) && (s.jobs[i].due <= now ==> NoReuse(s, i, behave))
  }

  predicate SafeFrom(s: Sched, i: nat, now: nat, behave: nat -> Script)
    requires i <= |s.jobs|
    decreases |s.jobs| - i
  {
    i < |s.jobs| ==> SafeVisit(s, i, now, behave) && SafeFrom(Visit(s, i, now, behave), i + 1, now, behave)
  }

  predicate SafeTask(s: Sched, behave: nat -> Script)
  {
    InWindow(s.clock, s.last) && (s.clock > s.last ==> SafeFrom(s.(last := s.clock), 0, s.clock, behave))
  }

  lemma VisitRefines(s: Sched, i: nat, now: nat, behave: nat -> Script)
    requires i < |s.jobs| && Ok(s) && SafeVisit(s, i, now, behave)
    ensures Ok(Visit(s, i, now, behave))
    ensures Stored(Visit(s, i, now, behave)) == VisitStored(Stored(s), i, now % WRAP, behave)
  {
    hide ApplyAllStored, ApplyAll, NotAfter, Entries, Notes;
    EntriesAre(s.jobs);
    if s.jobs[i].Job? {
      WindowExact(s.jobs[i].due, now);
      if s.jobs[i].due <= now {
        InvokeRefines(s, i, behave);
        var u := Invoke(s, i, behave);
        EntriesAre(u.jobs);
        EntriesUpdate(u.jobs, i, NoJob);
        NotesAppend(u.log, Happening(s.jobs[i].serial, Finished(s.jobs[i].token)));
        if u.jobs[i].Job? {
          var delay := behave(s.invoked).delay;
          ModSum(u.jobs[i].due, delay);
          EntriesUpdate(u.jobs, i, u.jobs[i].(due := u.jobs[i].due + delay));
          NotesAppend(u.log, Happening(s.jobs[i].serial, Repeated(s.jobs[i].token, delay)));
        }
      }
    }
  }

  lemma InvokeRefines(s: Sched, i: nat, behave: nat -> Script)
    requires i < |s.jobs| && Ok(s) && s.jobs[i].Job?
    ensures var u := Invoke(s, i, behave);
      Ok(u) && Stored(u) == ApplyAllStored(Called(Stored(s), i), behave(s.invoked).calls)
    ensures var j, k := s.jobs[i], Invoke(s, i, behave).jobs[i];
      k.Job? && k.serial == j.serial ==> k.token == j.token
  {
    hide ApplyAll, ApplyAllStored, Notes;
    var u, s1 := Invoke(s, i, behave), Firing(s, i);
    NotesAppend(s.log, FiringOf(s, i));
    EntriesAre(s.jobs);
    assert Stored(s1) == Called(Stored(s), i);
    ApplyAllRefines(s1, behave(s.invoked).calls);
    ApplyAllEvolves(s1, behave(s.invoked).calls);
    assert SlotEvolves(s1, u, i);
  }

  /** One turn of the loop is the ideal one exactly when it is safe: the deadline is in the window
      and, if the job is due, its callback does not meet its own token (for deadlines less than
      2^32 ms away). */
  lemma VisitRefinesIff(s: Sched, i: nat, now: nat, behave: nat -> Script)
    requires i < |s.jobs| && Ok(s) && (s.jobs[i].Job? ==> -WRAP < s.jobs[i].due - now < WRAP)
    ensures Stored(Visit(s, i, now, behave)) == VisitStored(Stored(s), i, now % WRAP, behave)
      <==> SafeVisit(s, i, now, behave)
  {
    if SafeVisit(s, i, now, behave) {
      VisitRefines(s, i, now, behave);
    } else {
      hide Visit, VisitStored, NoReuse;
      WindowExact(s.jobs[i].due, now);
      if InWindow(s.jobs[i].due, now) {
        ReuseDeviates(s, i, now, behave);
      } else {
        WrongTestDeviates(s, i, now, behave);
      }
    }
  }

  /** Outside the window one of the two runs the callback and the other does not. */
  lemma WrongTestDeviates(s: Sched, i: nat, now: nat, behave: nat -> Script)
    requires i < |s.jobs| && Ok(s) && s.jobs[i].Job?
    requires NotAfter(s.jobs[i].due % WRAP, now % WRAP) <==> s.jobs[i].due > now
    ensures |Stored(Visit(s, i, now, behave)).log| != |VisitStored(Stored(s), i, now % WRAP, behave).log|
  {
    hide ApplyAllStored, ApplyAll, NotAfter, Entries, Notes;
    EntriesAre(s.jobs);
    InvokeRefines(s, i, behave);
    ApplyAllEvolves(Firing(s, i), behave(s.invoked).calls) by { OkIgnoresTime(s, Firing(s, i)); }
    assert |Invoke(s, i, behave).log| > |s.log|;
  }

  /** A callback that meets its own token is rescheduled or cleared by the firmware only. */
  lemma ReuseDeviates(s: Sched, i: nat, now: nat, behave: nat -> Script)
    requires i < |s.jobs| && Ok(s) && s.jobs[i].Job? && s.jobs[i].due <= now && InWindow(s.jobs[i].due, now)
    requires !NoReuse(s, i, behave)
    ensures |Stored(Visit(s, i, now, behave)).log| != |VisitStored(Stored(s), i, now % WRAP, behave).log|
  {
    hide ApplyAllStored, ApplyAll, NotAfter, Entries, Notes;
    EntriesAre(s.jobs);
    WindowExact(s.jobs[i].due, now);
    InvokeRefines(s, i, behave);
    EntriesAre(Invoke(s, i, behave).jobs);
  }

  lemma {:induction false} VisitFromRefines(s: Sched, i: nat, now: nat, behave: nat -> Script)
    requires i <= |s.jobs| && Ok(s) && SafeFrom(s, i, now, behave)
    ensures Ok(VisitFrom(s, i, now, behave))
    ensures Stored(VisitFrom(s, i, now, behave)) == VisitFromStored(Stored(s), i, now % WRAP, behave)
    decreases |s.jobs| - i
  {
    EntriesAre(s.jobs);
    if i < |s.jobs| {
      hide Visit, VisitStored, SafeVisit, Entries, Ok;
      VisitRefines(s, i, now, behave);
      VisitFromRefines(Visit(s, i, now, behave), i + 1, now, behave);
    }
  }

  // ---------------------------------------------------------------- runs

  datatype Input = Wait(ms: nat) | Request(op: Op) | Pass(behave: nat -> Script)

  function Step(s: Sched, input: Input): Sched
  {
    match input
    case Wait(ms) => s.(clock := s.clock + ms)
    case Request(op) => Apply(s, op)
    case Pass(behave) => Task(s, behave)
  }

  function Run(s: Sched, inputs: seq<Input>): Sched
  {
    if inputs == [] then s
    else Step(Run(s, inputs[..|inputs| - 1]), inputs[|inputs| - 1])
  }

  /** The same steps on the table as the firmware stores it. */
  function StepStored(t: Table, input: Input): Table
  {
    match input
    case Wait(ms) => t.(clock := t.clock + ms)
    case Request(op) => ApplyStored(t, op)
    case Pass(behave) => TaskStored(t, behave)
  }

  function RunStored(t: Table, inputs: seq<Input>): Table
  {
    if inputs == [] then t
    else StepStored(RunStored(t, inputs[..|inputs| - 1]), inputs[|inputs| - 1])
  }

  /** One input more. */
  lemma NextStep(s: Sched, t: Table, inputs: seq<Input>, n: nat)
    requires n < |inputs|
    ensures Run(s, inputs[..0]) == s && Run(s, inputs[..n + 1]) == Step(Run(s, inputs[..n]), inputs[n])
    ensures RunStored(t, inputs[..0]) == t
    ensures RunStored(t, inputs[..n + 1]) == StepStored(RunStored(t, inputs[..n]), inputs[n])
  {
    assert inputs[..n + 1][..n] == inputs[..n];
  }

  function Boot(size: nat): Sched
  {
    Sched(seq(size, _ => NoJob), 0, 0, 0, 0, 0, [])
  }

  predicate SafeRun(s: Sched, inputs: seq<Input>)
  {
    inputs != [] ==>
      var init, last := inputs[..|inputs| - 1], inputs[|inputs| - 1];
      SafeRun(s, init) && (last.Pass? ==> SafeTask(Run(s, init), last.behave))
  }

  /** As long as every pass sees its deadlines inside the window and no callback gets its own
      token back, the wrapping executor is the ideal scheduler. */
  lemma {:induction false} RunRefines(s: Sched, inputs: seq<Input>)
    requires Ok(s) && SafeRun(s, inputs)
    ensures Ok(Run(s, inputs)) && Stored(Run(s, inputs)) == RunStored(Stored(s), inputs)
  {
    if inputs != [] {
      hide VisitFrom, VisitFromStored, Apply, ApplyStored, SafeFrom, Ok, Entries;
      var init, last := inputs[..|inputs| - 1], inputs[|inputs| - 1];
      RunRefines(s, init);
      var u := Run(s, init);
      match last {
        case Wait(ms) => OkIgnoresTime(u, u.(clock := u.clock + ms));
        case Request(op) => ApplyRefines(u, op);
        case Pass(behave) =>
          WindowExact(u.clock, u.last);
          OkIgnoresTime(u, u.(last := u.clock));
          if u.clock > u.last {
            VisitFromRefines(u.(last := u.clock), 0, u.clock, behave);
          }
      }
    }
  }

  /** In every run, timely or not, whatever the callbacks do, live tokens are pairwise distinct. */
  lemma {:induction false} TokensStayDistinct(t: Table, inputs: seq<Input>)
    requires Distinct(t.entries)
    ensures Distinct(RunStored(t, inputs).entries)
  {
    hide Distinct, VisitFromStored, ApplyStored, NotAfter;
    if inputs != [] {
      var init, last := inputs[..|inputs| - 1], inputs[|inputs| - 1];
      TokensStayDistinct(t, init);
      var u := RunStored(t, init);
      match last {
        case Wait(_) =>
        case Request(op) => ApplyKeepsDistinct(u, op);
        case Pass(behave) => VisitFromKeepsDistinct(u.(last := u.clock % WRAP), 0, u.clock % WRAP, behave);
      }
    }
  }
}
