/** What goes wrong with the deferred executor outside its timing discipline, and when a callback
    meets its own token. */
module DeferredLimits {
  import opened Keyboard
  import opened DeferredSpec
  import opened DeferredIdeal
  import opened DeferredRun

  // ---------------------------------------------------------------- lag adds up

  /** A repeat delay of 1 ms and passes 2^31 - 1 ms apart: every delay and every gap is below 2^31,
      yet the lag adds up and the second firing never happens. */
  lemma LaggingRepeatIsLost(behave: nat -> Script)
    requires forall n :: behave(n) == Script([], 1)
    ensures var inputs := [Request(Defer(1, 1, 0)), Wait(HALF - 1), Pass(behave), Wait(HALF - 1), Pass(behave)];
      Run(Boot(1), inputs).invoked == 2 && RunStored(Stored(Boot(1)), inputs).invoked == 1
  {
    var inputs := [Request(Defer(1, 1, 0)), Wait(HALF - 1), Pass(behave), Wait(HALF - 1), Pass(behave)];
    LaggingIdeal(behave, inputs);
    LaggingStored(behave, inputs);
  }

  lemma FirstRequest()
    ensures var s := Apply(Boot(1), Defer(1, 1, 0));
      s.jobs == [Job(0, 1, 1, 1, 0)] && s.last == 0 && s.clock == 0 && s.invoked == 0
    ensures var t := ApplyStored(Stored(Boot(1)), Defer(1, 1, 0));
      t.entries == [Entry(1, 1, 1, 0)] && t.last == 0 && t.clock == 0 && t.invoked == 0
  {
    assert Entries(Boot(1).jobs) == [FREE];
    assert Slot([FREE], INVALID_TOKEN) == 0 && Search([FREE], 1, 0xFF) == 1;
  }

  lemma LaggingIdeal(behave: nat -> Script, inputs: seq<Input>)
    requires forall n :: behave(n) == Script([], 1)
    requires inputs == [Request(Defer(1, 1, 0)), Wait(HALF - 1), Pass(behave), Wait(HALF - 1), Pass(behave)]
    ensures Run(Boot(1), inputs).invoked == 2
  {
    hide Apply, VisitFrom, Run, RunStored, StepStored;
    var s, t := Boot(1), Stored(Boot(1));
    FirstRequest();
    FiveSteps(s, t, inputs);
    var s2, s4 := Run(s, inputs[..2]), Run(s, inputs[..4]);
    FireOnce(s2.(last := s2.clock), behave);
    FireOnce(s4.(last := s4.clock), behave);
  }

  lemma FiveSteps(s: Sched, t: Table, inputs: seq<Input>)
    requires |inputs| == 5
    ensures Run(s, inputs[..1]) == Step(s, inputs[0]) && Run(s, inputs[..2]) == Step(Run(s, inputs[..1]), inputs[1])
    ensures Run(s, inputs[..3]) == Step(Run(s, inputs[..2]), inputs[2])
    ensures Run(s, inputs[..4]) == Step(Run(s, inputs[..3]), inputs[3])
    ensures Run(s, inputs) == Step(Run(s, inputs[..4]), inputs[4])
    ensures RunStored(t, inputs[..1]) == StepStored(t, inputs[0])
    ensures RunStored(t, inputs[..2]) == StepStored(RunStored(t, inputs[..1]), inputs[1])
    ensures RunStored(t, inputs[..3]) == StepStored(RunStored(t, inputs[..2]), inputs[2])
    ensures RunStored(t, inputs[..4]) == StepStored(RunStored(t, inputs[..3]), inputs[3])
    ensures RunStored(t, inputs) == StepStored(RunStored(t, inputs[..4]), inputs[4])
  {
    hide Run, RunStored, Step, StepStored;
    NextStep(s, t, inputs, 0);
    NextStep(s, t, inputs, 1);
    NextStep(s, t, inputs, 2);
    NextStep(s, t, inputs, 3);
    NextStep(s, t, inputs, 4);
    assert inputs[..5] == inputs;
  }

  lemma FireOnce(s: Sched, behave: nat -> Script)
    requires |s.jobs| == 1 && s.jobs[0].Job? && s.jobs[0].due <= s.clock
    requires forall n :: behave(n) == Script([], 1)
    ensures var r := VisitFrom(s, 0, s.clock, behave);
      && r.jobs == [s.jobs[0].(due := s.jobs[0].due + 1)]
      && r.invoked == s.invoked + 1 && r.clock == s.clock && r.last == s.last
  {
    var r := Visit(s, 0, s.clock, behave);
    assert r.jobs == [s.jobs[0].(due := s.jobs[0].due + 1)];
    assert VisitFrom(s, 0, s.clock, behave) == VisitFrom(r, 1, s.clock, behave) == r;
  }

  lemma StoredFireOnce(t: Table, now: uint32, behave: nat -> Script)
    requires t.entries == [Entry(1, 1, 1, 0)] && now == HALF - 1
    requires forall n :: behave(n) == Script([], 1)
    ensures var r := VisitFromStored(t, 0, now, behave);
      r.entries == [Entry(1, 2, 1, 0)] && r.invoked == t.invoked + 1 && r.clock == t.clock && r.last == t.last
  {
    var r := VisitStored(t, 0, now, behave);
    assert r.entries == [Entry(1, 2, 1, 0)];
    assert VisitFromStored(t, 0, now, behave) == VisitFromStored(r, 1, now, behave) == r;
  }

  lemma StoredFireMissed(t: Table, now: uint32, behave: nat -> Script)
    requires t.entries == [Entry(1, 2, 1, 0)] && now == WRAP - 2
    ensures VisitFromStored(t, 0, now, behave) == t
  {
    assert VisitStored(t, 0, now, behave) == t;
    assert VisitFromStored(t, 0, now, behave) == VisitFromStored(t, 1, now, behave) == t;
  }

  lemma LaggingStored(behave: nat -> Script, inputs: seq<Input>)
    requires forall n :: behave(n) == Script([], 1)
    requires inputs == [Request(Defer(1, 1, 0)), Wait(HALF - 1), Pass(behave), Wait(HALF - 1), Pass(behave)]
    ensures RunStored(Stored(Boot(1)), inputs).invoked == 1
  {
    hide ApplyStored, VisitFromStored, Stored, Run, RunStored, Step;
    var s, t := Boot(1), Stored(Boot(1));
    FirstRequest();
    FiveSteps(s, t, inputs);
    var t2, t4 := RunStored(t, inputs[..2]), RunStored(t, inputs[..4]);
    StoredFireOnce(t2.(last := HALF - 1), HALF - 1, behave);
    StoredFireMissed(t4.(last := WRAP - 2), WRAP - 2, behave);
  }

  // ---------------------------------------------------------------- meeting one's own token

  /** A callback that does not cancel its own registration keeps it, so it cannot meet its own token. */
  lemma KeepingOneselfIsReuseFree(s: Sched, i: nat, behave: nat -> Script)
    requires Ok(s) && i < |s.jobs| && s.jobs[i].Job?
    requires forall k :: 0 <= k < |behave(s.invoked).calls| ==>
      behave(s.invoked).calls[k].op != Cancel(s.jobs[i].token)
    ensures NoReuse(s, i, behave)
  {
    OwnSlotKept(Firing(s, i), i, behave(s.invoked).calls);
  }

  lemma {:induction false} OwnSlotKept(s: Sched, i: nat, calls: seq<Call>)
    requires Ok(s) && i < |s.jobs| && s.jobs[i].Job?
    requires forall k :: 0 <= k < |calls| ==> calls[k].op != Cancel(s.jobs[i].token)
    ensures ApplyAll(s, calls).jobs[i].Job? && ApplyAll(s, calls).jobs[i].serial == s.jobs[i].serial
    decreases |calls|
  {
    if calls != [] {
      OwnSlotKeptOnce(s, i, calls[0]);
      AfterRefines(s, calls[0]);
      hide After, Ok, Stored;
      OwnSlotKept(After(s, calls[0]), i, calls[1..]);
    }
  }

  lemma OwnSlotKeptOnce(s: Sched, i: nat, call: Call)
    requires Ok(s) && i < |s.jobs| && s.jobs[i].Job? && call.op != Cancel(s.jobs[i].token)
    ensures var j := After(s, call).jobs[i]; j.Job? && j.serial == s.jobs[i].serial && j.token == s.jobs[i].token
  {
    hide Search, Usable;
    EntriesAre(s.jobs);
  }

  /** What decides it for a callback that cancels itself and queues again, before it is called: its
      slot is the first free one, and every token on the way from the counter to its own is in use. */
  predicate ComesRound(s: Sched, i: nat)
    requires i < |s.jobs| && s.jobs[i].Job?
  {
    && (forall m :: 0 <= m < i ==> s.jobs[m].Job?)
    && AllTakenTo(Entries(s.jobs), Next(s.current), s.jobs[i].token)
  }

  /** A callback that cancels itself and queues again meets its own token exactly then. */
  lemma RequeueReusesIff(s: Sched, i: nat, behave: nat -> Script, wait: nat, wait': nat,
                         delay: uint32, callback: nat, arg: nat)
    requires Ok(s) && Distinct(Entries(s.jobs)) && i < |s.jobs| && s.jobs[i].Job? && delay != 0 && callback != 0
    requires behave(s.invoked).calls == [Call(wait, Cancel(s.jobs[i].token)), Call(wait', Defer(delay, callback, arg))]
    ensures !NoReuse(s, i, behave) <==> ComesRound(s, i)
  {
    hide Search, Entries, Slot, Distinct, AllTakenTo;
    var token := s.jobs[i].token;
    var c0, c1 := Call(wait, Cancel(token)), Call(wait', Defer(delay, callback, arg));
    var s0 := Firing(s, i);
    EntriesAre(s.jobs);
    OwnSlot(s.jobs, i);
    var s1 := After(s0, c0);
    assert s1.jobs == s.jobs[i := NoJob] && s1.current == s.current && s1.next == s.next;
    EntriesAre(s1.jobs);
    FreedToken(s.jobs, s1.jobs, i, s.current);
    FirstFree(s.jobs, s1.jobs, i);
    var s2 := After(s1, c1);
    assert behave(s.invoked).calls[1..] == [c1] && [c1][1..] == [];
    assert Invoke(s, i, behave) == ApplyAll(s1, [c1]) == ApplyAll(s2, []) == s2;
  }

  lemma OwnSlot(jobs: seq<Job>, i: nat)
    requires i < |jobs| && jobs[i].Job? && jobs[i].token != INVALID_TOKEN && Distinct(Entries(jobs))
    ensures Slot(Entries(jobs), jobs[i].token) == i
  {
    var k := Slot(Entries(jobs), jobs[i].token);
    assert Entries(jobs)[i].token == jobs[i].token;
  }

  lemma FirstFree(jobs: seq<Job>, freed: seq<Job>, i: nat)
    requires i < |jobs| && freed == jobs[i := NoJob]
    requires forall m :: 0 <= m < |jobs| && jobs[m].Job? ==> jobs[m].token != INVALID_TOKEN
    ensures Slot(Entries(freed), INVALID_TOKEN) <= i
    ensures Slot(Entries(freed), INVALID_TOKEN) == i <==> forall m :: 0 <= m < i ==> jobs[m].Job?
  {
    EntriesAre(freed);
    hide Entries;
    var k := Slot(Entries(freed), INVALID_TOKEN);
    assert Entries(freed)[i].token == INVALID_TOKEN;
    forall m | 0 <= m < i ensures jobs[m].Job? <==> Entries(freed)[m].token != INVALID_TOKEN {
      assert freed[m] == jobs[m];
    }
  }

  /** Once a token is given back, the search gives it out again exactly when all before it are taken. */
  lemma FreedToken(jobs: seq<Job>, freed: seq<Job>, i: nat, current: uint8)
    requires i < |jobs| && freed == jobs[i := NoJob] && jobs[i].Job? && jobs[i].token != INVALID_TOKEN
    requires Distinct(Entries(jobs))
    ensures Allocate(Entries(freed), current).0 != INVALID_TOKEN
    ensures Allocate(Entries(freed), current).0 == jobs[i].token
      <==> AllTakenTo(Entries(jobs), Next(current), jobs[i].token)
  {
    hide Search;
    var token, first := jobs[i].token, Next(current);
    UsableAfter(jobs, freed, i);
    assert Usable(Entries(freed), token);
    AllocateSucceeds(Entries(freed), current);
    assert Ahead(first, 0) == first;
    SearchGives(Entries(freed), first, 0, token);
    forall n | 0 <= n < StepsTo(first, token)
      ensures Usable(Entries(freed), Ahead(first, n)) <==> Usable(Entries(jobs), Ahead(first, n))
    {
      AheadApart(first, n, StepsTo(first, token));
    }
  }

  lemma UsableAfter(jobs: seq<Job>, freed: seq<Job>, i: nat)
    requires i < |jobs| && freed == jobs[i := NoJob] && jobs[i].Job? && jobs[i].token != INVALID_TOKEN
    requires Distinct(Entries(jobs))
    ensures forall x: uint8 :: Usable(Entries(freed), x) <==> Usable(Entries(jobs), x) || x == jobs[i].token
  {
    EntriesAre(jobs);
    EntriesUpdate(jobs, i, NoJob);
    hide Entries;
    var old', new' := Entries(jobs), Entries(freed);
    assert new' == old'[i := FREE] && old'[i].token == jobs[i].token;
    forall x: uint8 ensures Usable(new', x) <==> Usable(old', x) || x == jobs[i].token {
      if Usable(new', x) && x != jobs[i].token {
        assert forall m :: 0 <= m < |old'| ==> old'[m].token != x by {
          forall m | 0 <= m < |old'| ensures old'[m].token != x {
            assert m != i ==> new'[m].token != x;
          }
        }
      }
      if x == jobs[i].token {
        forall m | 0 <= m < |new'| ensures new'[m].token != x {
          assert m < i ==> old'[m].token != old'[i].token;
          assert i < m ==> old'[i].token != old'[m].token;
        }
      }
    }
  }

  // ---------------------------------------------------------------- any callback

  /** How many tokens can still be given out on a way of some steps. */
  function UsableOn(entries: seq<Entry>, first: uint8, steps: nat): nat
    decreases steps
  {
    if steps == 0 then 0
    else (if Usable(entries, first) then 1 else 0) + UsableOn(entries, Next(first), steps - 1)
  }

  /** How many allocations it takes at least until a token that is given back is given out again. */
  function RoomBefore(entries: seq<Entry>, current: uint8, token: uint8): nat
  {
    UsableOn(entries, Next(current), StepsTo(Next(current), token))
  }

  function Defers(calls: seq<Call>): nat
  {
    if calls == [] then 0 else (if calls[0].op.Defer? then 1 else 0) + Defers(calls[1..])
  }

  /** A callback cannot meet its own token if it queues no more often than there are tokens to give out
      on the way from the counter to its own, whatever else it cancels, extends and queues. */
  lemma FewDefersAreReuseFree(s: Sched, i: nat, behave: nat -> Script)
    requires Ok(s) && i < |s.jobs| && s.jobs[i].Job?
    requires forall k :: 0 <= k < |behave(s.invoked).calls| ==> !behave(s.invoked).calls[k].op.Elsewhere?
    requires Defers(behave(s.invoked).calls) <= RoomBefore(Entries(s.jobs), s.current, s.jobs[i].token)
    ensures NoReuse(s, i, behave)
  {
    OwnTokenKept(Firing(s, i), i, behave(s.invoked).calls, s.jobs[i].token, s.jobs[i].serial);
  }

  /** Whoever holds the token in the slot is the registration with this serial number. */
  predicate OnlyOwner(s: Sched, i: nat, token: uint8, serial: nat)
    requires i < |s.jobs|
  {
    s.jobs[i].Job? && s.jobs[i].token == token ==> s.jobs[i].serial == serial
  }

  lemma {:induction false} OwnTokenKept(s: Sched, i: nat, calls: seq<Call>, token: uint8, serial: nat)
    requires Ok(s) && i < |s.jobs| && OnlyOwner(s, i, token, serial)
    requires forall k :: 0 <= k < |calls| ==> !calls[k].op.Elsewhere?
    requires Defers(calls) <= RoomBefore(Entries(s.jobs), s.current, token)
    ensures OnlyOwner(ApplyAll(s, calls), i, token, serial)
    decreases |calls|
  {
    hide After, Ok, Stored, RoomBefore, OnlyOwner, Entries;
    if calls != [] {
      AfterRefines(s, calls[0]);
      CallTakesRoom(s, i, calls[0], token, serial);
      OwnTokenKept(After(s, calls[0]), i, calls[1..], token, serial);
    }
  }

  /** One call takes at most one token off the way, and only if it queues. */
  lemma CallTakesRoom(s: Sched, i: nat, call: Call, token: uint8, serial: nat)
    requires Ok(s) && i < |s.jobs| && OnlyOwner(s, i, token, serial) && !call.op.Elsewhere?
    requires call.op.Defer? ==> RoomBefore(Entries(s.jobs), s.current, token) > 0
    ensures var u := After(s, call);
      && OnlyOwner(u, i, token, serial)
      && RoomBefore(Entries(u.jobs), u.current, token) + (if call.op.Defer? then 1 else 0)
           >= RoomBefore(Entries(s.jobs), s.current, token)
  {
    hide Search, Usable, Slot, UsableOn, Entries;
    var u, entries := After(s, call), Entries(s.jobs);
    EntriesAre(s.jobs);
    if call.op.Defer? {
      AllocationTakesRoom(entries, s.current, token);
      var k := Slot(entries, INVALID_TOKEN);
      if k < |entries| && u.jobs != s.jobs {
        var given := Allocate(entries, s.current).0;
        EntriesUpdate(s.jobs, k, u.jobs[k]);
        GivenTokenTaken(entries, k, Wrapped(u.jobs[k]), given, StepsTo(Next(given), token), token);
      }
    } else {
      TokensOnlyFreed(entries, Entries(u.jobs), Next(s.current), StepsTo(Next(s.current), token)) by {
        NothingTaken(s, call);
      }
    }
  }

  /** An allocation with room before a token gives another one, and leaves one less. */
  lemma AllocationTakesRoom(entries: seq<Entry>, current: uint8, token: uint8)
    requires RoomBefore(entries, current, token) > 0
    ensures var (given, counter) := Allocate(entries, current);
      && given != INVALID_TOKEN && given != token && counter == given
      && RoomBefore(entries, given, token) + 1 == RoomBefore(entries, current, token)
  {
    hide Search, Usable, UsableOn;
    var first := Next(current);
    SearchTakesFirst(entries, first, StepsTo(first, token), 0xFF, token);
  }

  lemma {:induction false} SearchTakesFirst(entries: seq<Entry>, first: uint8, steps: nat, left: nat, token: uint8)
    requires steps == StepsTo(first, token) && steps <= left && UsableOn(entries, first, steps) > 0
    ensures var given := Search(entries, first, left);
      && given != INVALID_TOKEN && given != token
      && UsableOn(entries, Next(given), StepsTo(Next(given), token)) + 1 == UsableOn(entries, first, steps)
    decreases steps
  {
    assert Usable(entries, first) ==> first != INVALID_TOKEN;
    hide Usable, Search;
    SearchNext(entries, first, left);
    StepsShrink(first, token);
    if !Usable(entries, first) {
      SearchTakesFirst(entries, Next(first), steps - 1, left - 1, token);
    }
  }

  lemma StepsShrink(first: uint8, token: uint8)
    ensures StepsTo(first, token) > 0 ==> first != token && StepsTo(Next(first), token) == StepsTo(first, token) - 1
  {
  }

  /** The token just given out is not on the rest of the way. */
  lemma GivenTokenTaken(entries: seq<Entry>, k: nat, entry: Entry, given: uint8, steps: nat, token: uint8)
    requires k < |entries| && entries[k].token == INVALID_TOKEN && entry.token == given != token
    requires steps == StepsTo(Next(given), token)
    ensures UsableOn(entries[k := entry], Next(given), steps) == UsableOn(entries, Next(given), steps)
  {
    WayAvoids(given, token);
    var after := entries[k := entry];
    forall x: uint8 | x != given ensures Usable(entries, x) <==> Usable(after, x) {
      if Usable(after, x) {
        forall m | 0 <= m < |entries| ensures entries[m].token != x {
          assert m != k ==> after[m] == entries[m];
        }
      }
    }
    SameOnTheWay(entries, entries[k := entry], Next(given), steps, given);
  }

  /** From just after a token to another one, it is not met again. */
  lemma WayAvoids(given: uint8, token: uint8)
    requires given != token
    ensures forall n :: 0 <= n < StepsTo(Next(given), token) ==> Ahead(Next(given), n) != given
  {
  }

  lemma {:induction false} SameOnTheWay(a: seq<Entry>, b: seq<Entry>, first: uint8, steps: nat, given: uint8)
    requires steps <= 0xFF && forall n :: 0 <= n < steps ==> Ahead(first, n) != given
    requires forall x: uint8 :: x != given ==> (Usable(a, x) <==> Usable(b, x))
    ensures UsableOn(a, first, steps) == UsableOn(b, first, steps)
    decreases steps
  {
    hide Usable;
    if steps > 0 {
      assert Ahead(first, 0) == first;
      forall n | 0 <= n < steps - 1 ensures Ahead(Next(first), n) != given {
        AheadOne(first, n);
        assert Ahead(first, n + 1) != given;
      }
      SameOnTheWay(a, b, Next(first), steps - 1, given);
    }
  }

  lemma AheadOne(first: uint8, n: nat)
    requires n < 0xFF
    ensures Ahead(Next(first), n) == Ahead(first, n + 1)
  {
  }

  /** Extending and cancelling take no token. */
  lemma NothingTaken(s: Sched, call: Call)
    requires call.op.Extend? || call.op.Cancel?
    ensures forall x: uint8 :: Usable(Entries(s.jobs), x) ==> Usable(Entries(After(s, call).jobs), x)
  {
    hide Slot;
    EntriesAre(s.jobs);
    EntriesAre(After(s, call).jobs);
  }

  lemma {:induction false} TokensOnlyFreed(a: seq<Entry>, b: seq<Entry>, first: uint8, steps: nat)
    requires forall x: uint8 :: Usable(a, x) ==> Usable(b, x)
    ensures UsableOn(a, first, steps) <= UsableOn(b, first, steps)
    decreases steps
  {
    hide Usable;
    if steps > 0 {
      TokensOnlyFreed(a, b, Next(first), steps - 1);
    }
  }

  // ---------------------------------------------------------------- a run

  function ComingRound(behave: nat -> Script): seq<Input>
  {
    [Request(Elsewhere(4)), Request(Defer(100, 1, 0)), Request(Elsewhere(4)), Wait(100), Pass(behave)]
  }

  /** It does happen, in a run from boot: the counter, which other tables share, has come round to just
      before the token when the callback cancels itself and queues again. The firmware then moves the
      new registration's deadline as if it were the old one's. */
  lemma TokenComesBack(behave: nat -> Script)
    requires behave(0) == Script([Call(0, Cancel(5)), Call(0, Defer(10, 1, 0))], 7)
    ensures Stored(Run(Boot(1), ComingRound(behave))) != RunStored(Stored(Boot(1)), ComingRound(behave))
  {
    hide Visit, VisitStored, Stored, Apply, NotAfter, Entries, Search, Run, RunStored, TaskStored, Task;
    var inputs := ComingRound(behave);
    assert inputs[..4] == [Request(Elsewhere(4)), Request(Defer(100, 1, 0)), Request(Elsewhere(4)), Wait(100)];
    var s4 := Run(Boot(1), inputs[..4]);
    FiveSteps(Boot(1), Stored(Boot(1)), inputs);
    BeforeThePass(inputs[..4]);
    NoPassIsSafe(Boot(1), inputs[..4]);
    RunRefines(Boot(1), inputs[..4]);
    PassOfOne(s4, behave);
    MeetsItself(s4.(last := 100), behave);
  }

  lemma MeetsItself(s: Sched, behave: nat -> Script)
    requires behave(0) == Script([Call(0, Cancel(5)), Call(0, Defer(10, 1, 0))], 7)
    requires s.jobs == [Job(0, 5, 100, 1, 0)] && s.current == 4 && s.next == 1 && s.invoked == 0
    ensures Stored(Visit(s, 0, 100, behave)) != VisitStored(Stored(s), 0, 100, behave)
  {
    hide Visit, VisitStored, Entries, Search, NoReuse;
    RequeueReusesIff(s, 0, behave, 0, 0, 10, 1, 0) by { AloneIsDistinct(s); }
    assert AllTakenTo(Entries(s.jobs), 5, 5);
    ReuseDeviates(s, 0, 100, behave);
  }

  lemma NoPassIsSafe(s: Sched, inputs: seq<Input>)
    requires forall k :: 0 <= k < |inputs| ==> !inputs[k].Pass?
    ensures SafeRun(s, inputs)
  {
    if inputs != [] {
      NoPassIsSafe(s, inputs[..|inputs| - 1]);
    }
  }

  lemma AloneIsDistinct(s: Sched)
    requires |s.jobs| == 1
    ensures Distinct(Entries(s.jobs))
  {
  }

  lemma PassOfOne(s: Sched, behave: nat -> Script)
    requires |s.jobs| == 1 && s.last == 0 && s.clock == 100
    ensures Task(s, behave) == Visit(s.(last := 100), 0, 100, behave)
    ensures TaskStored(Stored(s), behave) == VisitStored(Stored(s.(last := 100)), 0, 100, behave)
  {
    hide VisitStored, Visit;
    var u := s.(last := 100);
    var t := Stored(u);
    var v, r := Visit(u, 0, 100, behave), VisitStored(t, 0, 100, behave);
    assert VisitFrom(u, 0, 100, behave) == VisitFrom(v, 1, 100, behave) == v;
    assert VisitFromStored(t, 0, 100, behave) == VisitFromStored(r, 1, 100, behave) == r;
  }

  lemma BeforeThePass(inputs: seq<Input>)
    requires inputs == [Request(Elsewhere(4)), Request(Defer(100, 1, 0)), Request(Elsewhere(4)), Wait(100)]
    ensures var s := Run(Boot(1), inputs);
      s.jobs == [Job(0, 5, 100, 1, 0)] && s.current == 4 && s.last == 0 && s.clock == 100 && s.next == 1 &&
        s.invoked == 0
  {
    assert inputs[..3][..2] == inputs[..2] && inputs[..2][..1] == inputs[..1] && inputs[..1][..0] == [];
    var s1 := Boot(1).(current := 4);
    assert Run(Boot(1), inputs[..1]) == s1;
    assert Entries(s1.jobs) == [FREE];
    assert Slot([FREE], INVALID_TOKEN) == 0 && Search([FREE], 5, 0xFF) == 5;
    var s2 := Run(Boot(1), inputs[..2]);
    assert s2 == Apply(s1, Defer(100, 1, 0));
    assert s2.jobs == [Job(0, 5, 100, 1, 0)];
    assert Run(Boot(1), inputs[..3]) == s2.(current := 4);
  }
}
