/** What the ideal scheduler guarantees in every run: callbacks run on time, once per pass, and
    repeat without drift. The guarantees are stated on the notes, which the firmware's table shares. */
module DeferredGuarantees {
  import opened Keyboard
  import opened DeferredSpec
  import opened DeferredIdeal
  import opened DeferredRun

  // ---------------------------------------------------------------- the log tells each deadline

  /** The deadline that the registration with a token has according to the log: as set by the last
      defer or extend, plus every delay returned since; -1 if it was never set. */
  function DueIn(log: seq<Note>, token: uint8): int
  {
    if log == [] then -1
    else
      var rest, h := log[..|log| - 1], log[|log| - 1];
      if h.token != token then DueIn(rest, token)
      else if h.Deferred? || h.Extended? then h.due
      else if h.Repeated? then DueIn(rest, token) + h.delay
      else DueIn(rest, token)
  }

  lemma DueInAppend(log: seq<Note>, h: Note, token: uint8)
    ensures DueIn(log + [h], token) ==
      if h.token != token then DueIn(log, token)
      else if h.Deferred? || h.Extended? then h.due
      else if h.Repeated? then DueIn(log, token) + h.delay
      else DueIn(log, token)
  {
    assert (log + [h])[..|log|] == log;
  }

  /** Every callback was called at or after the true deadline of its registration. */
  predicate FiresOnTime(log: seq<Note>)
  {
    forall k :: 0 <= k < |log| && log[k].Fired? ==> 0 <= DueIn(log[..k], log[k].token) <= log[k].clock
  }

  /** Live jobs have tokens and serial numbers of their own, and the deadlines that the log tells. */
  predicate Recorded(s: Sched)
  {
    && Ok(s)
    && FiresOnTime(Notes(s.log))
    && (forall i, j :: 0 <= i < j < |s.jobs| && s.jobs[i].Job? && s.jobs[j].Job? ==> Apart(s.jobs[i], s.jobs[j]))
    && (forall i :: 0 <= i < |s.jobs| && s.jobs[i].Job? ==> DueIn(Notes(s.log), s.jobs[i].token) == s.jobs[i].due)
  }

  predicate Apart(j: Job, k: Job)
    requires j.Job? && k.Job?
  {
    j.serial != k.serial && j.token != k.token
  }

  lemma FiresOnTimeAppend(log: seq<Note>, h: Note)
    requires FiresOnTime(log)
    requires h.Fired? ==> 0 <= DueIn(log, h.token) <= h.clock
    ensures FiresOnTime(log + [h])
  {
    forall k | 0 <= k < |log + [h]| && (log + [h])[k].Fired?
      ensures 0 <= DueIn((log + [h])[..k], (log + [h])[k].token) <= (log + [h])[k].clock
    {
      assert (log + [h])[..k] == if k < |log| then log[..k] else log;
    }
  }

  /** Replacing one slot's job and logging it keeps the record, if the log entry says the new
      deadline and names a registration no other slot holds. */
  lemma PutRecorded(s: Sched, i: nat, j: Job, h: Happening, next: nat)
    requires Recorded(s) && i < |s.jobs| && !h.note.Fired? && next >= s.next
    requires forall m :: 0 <= m < |s.jobs| && m != i && s.jobs[m].Job? ==>
      s.jobs[m].serial != h.serial && s.jobs[m].token != h.note.token
    requires j.Job? ==>
      && j.serial == h.serial < next && j.token == h.note.token != INVALID_TOKEN
      && DueIn(Notes(s.log) + [h.note], j.token) == j.due
    ensures Recorded(Put(s, i, j, h).(next := next))
  {
    NotesAppend(s.log, h);
    hide Notes;
    FiresOnTimeAppend(Notes(s.log), h.note);
    forall m | 0 <= m < |s.jobs| && s.jobs[m].Job? && s.jobs[m].token != h.note.token
      ensures DueIn(Notes(s.log) + [h.note], s.jobs[m].token) == s.jobs[m].due
    {
      DueInAppend(Notes(s.log), h.note, s.jobs[m].token);
    }
  }

  lemma ApplyRecorded(s: Sched, op: Op)
    requires Recorded(s)
    ensures Recorded(Apply(s, op))
  {
    hide Recorded, Search, Entries, Slot, FiresOnTime, DueIn, Notes;
    EntriesAre(s.jobs);
    RecordedIsOk(s);
    match op {
      case Defer(delay, callback, arg) =>
        var i := Slot(Entries(s.jobs), INVALID_TOKEN);
        var (token, current) := Allocate(Entries(s.jobs), s.current);
        RecordedIgnoresRest(s, s.(current := current));
        if i < |s.jobs| && token != INVALID_TOKEN {
          var h := Happening(s.next, Deferred(token, s.clock + delay));
          DueInAppend(Notes(s.log), h.note, token);
          NewTokenIsNew(s.jobs, s.current);
          PutRecorded(s.(current := current), i, Job(s.next, token, s.clock + delay, callback, arg), h, s.next + 1);
        }
      case Extend(token, delay) =>
        var i := Slot(Entries(s.jobs), token);
        if i < |s.jobs| && s.jobs[i].Job? {
          RecordedApart(s, i);
          var h := Happening(s.jobs[i].serial, Extended(token, s.clock + delay));
          DueInAppend(Notes(s.log), h.note, token);
          PutRecorded(s, i, s.jobs[i].(due := s.clock + delay), h, s.next);
        }
      case Cancel(token) =>
        var i := Slot(Entries(s.jobs), token);
        if i < |s.jobs| && s.jobs[i].Job? {
          RecordedApart(s, i);
          PutRecorded(s, i, NoJob, Happening(s.jobs[i].serial, Cancelled(token)), s.next);
        }
      case Elsewhere(current) => RecordedIgnoresRest(s, s.(current := current));
    }
  }

  lemma RecordedIsOk(s: Sched)
    requires Recorded(s)
    ensures Ok(s)
  {
  }

  lemma RecordedApart(s: Sched, i: nat)
    requires Recorded(s) && i < |s.jobs| && s.jobs[i].Job?
    ensures forall m :: 0 <= m < |s.jobs| && m != i && s.jobs[m].Job? ==> Apart(s.jobs[m], s.jobs[i])
    ensures DueIn(Notes(s.log), s.jobs[i].token) == s.jobs[i].due
  {
    forall m | 0 <= m < |s.jobs| && m != i && s.jobs[m].Job? ensures Apart(s.jobs[m], s.jobs[i]) {
      assert if m < i then Apart(s.jobs[m], s.jobs[i]) else Apart(s.jobs[i], s.jobs[m]);
    }
  }

  lemma RecordedIgnoresRest(s: Sched, t: Sched)
    requires Recorded(s) && t.jobs == s.jobs && t.log == s.log && t.next == s.next
    ensures Recorded(t)
  {
  }

  lemma {:induction false} ApplyAllRecorded(s: Sched, calls: seq<Call>)
    requires Recorded(s)
    ensures Recorded(ApplyAll(s, calls))
    decreases |calls|
  {
    if calls != [] {
      hide Recorded, Apply;
      var t := s.(clock := s.clock + calls[0].wait);
      RecordedIgnoresRest(s, t);
      ApplyRecorded(t, calls[0].op);
      ApplyAllRecorded(After(s, calls[0]), calls[1..]);
    }
  }

  lemma FiringRecorded(s: Sched, i: nat)
    requires Recorded(s) && i < |s.jobs| && s.jobs[i].Job? && s.jobs[i].due <= s.clock
    ensures Recorded(Firing(s, i))
  {
    var h := FiringOf(s, i);
    NotesAppend(s.log, h);
    hide Notes;
    FiresOnTimeAppend(Notes(s.log), h.note);
    forall token: uint8 ensures DueIn(Notes(s.log) + [h.note], token) == DueIn(Notes(s.log), token) {
      DueInAppend(Notes(s.log), h.note, token);
    }
  }

  lemma InvokeRecorded(s: Sched, i: nat, behave: nat -> Script)
    requires Recorded(s) && i < |s.jobs| && s.jobs[i].Job? && s.jobs[i].due <= s.clock
    ensures Recorded(Invoke(s, i, behave))
  {
    hide ApplyAll, Recorded;
    FiringRecorded(s, i);
    ApplyAllRecorded(Firing(s, i), behave(s.invoked).calls);
  }

  lemma VisitRecorded(s: Sched, i: nat, now: nat, behave: nat -> Script)
    requires Recorded(s) && i < |s.jobs| && now <= s.clock
    ensures Recorded(Visit(s, i, now, behave))
  {
    hide Recorded, Invoke, DueIn, Notes;
    if s.jobs[i].Job? && s.jobs[i].due <= now {
      InvokeRecorded(s, i, behave);
      var u := Invoke(s, i, behave);
      var j, delay := s.jobs[i], behave(s.invoked).delay;
      if u.jobs[i].Job? && u.jobs[i].serial == j.serial {
        RecordedIsOk(s);
        InvokeRefines(s, i, behave);
        RecordedIsOk(u);
        RecordedApart(u, i);
        DueInAppend(Notes(u.log), Repeated(j.token, delay), j.token);
        PutRecorded(u, i, u.jobs[i].(due := u.jobs[i].due + delay), Happening(j.serial, Repeated(j.token, delay)),
          u.next);
        PutRecorded(u, i, NoJob, Happening(j.serial, Finished(j.token)), u.next);
      }
    }
  }

  lemma {:induction false} VisitFromRecorded(s: Sched, i: nat, now: nat, behave: nat -> Script)
    requires Recorded(s) && i <= |s.jobs| && now <= s.clock
    ensures Recorded(VisitFrom(s, i, now, behave))
    decreases |s.jobs| - i
  {
    if i < |s.jobs| {
      hide Recorded, Visit;
      RecordedIsOk(s);
      VisitIsTurn(s, i, now, behave);
      VisitRecorded(s, i, now, behave);
      VisitFromRecorded(Visit(s, i, now, behave), i + 1, now, behave);
    }
  }

  /** In every run, no callback ever ran before its true deadline, and every live job's deadline is
      the one the log tells. */
  lemma {:induction false} NeverEarly(size: nat, inputs: seq<Input>)
    ensures Recorded(Run(Boot(size), inputs))
  {
    if inputs != [] {
      hide Recorded, Apply, VisitFrom;
      var init, last := inputs[..|inputs| - 1], inputs[|inputs| - 1];
      NeverEarly(size, init);
      var s := Run(Boot(size), init);
      match last {
        case Wait(ms) => RecordedIgnoresRest(s, s.(clock := s.clock + ms));
        case Request(op) => ApplyRecorded(s, op);
        case Pass(behave) =>
          RecordedIgnoresRest(s, s.(last := s.clock));
          VisitFromRecorded(s.(last := s.clock), 0, s.clock, behave);
      }
    }
  }

  // ---------------------------------------------------------------- no drift

  /** The delays that the callback of a token's registration returned over a stretch of the log. */
  function Delays(log: seq<Note>, token: uint8): nat
  {
    if log == [] then 0
    else
      var h := log[|log| - 1];
      Delays(log[..|log| - 1], token) + if h.Repeated? && h.token == token then h.delay else 0
  }

  predicate Sets(h: Note, token: uint8)
  {
    (h.Deferred? || h.Extended?) && h.token == token
  }

  /** A deadline is the one last set plus the sum of the delays returned since. */
  lemma {:induction false} DueIsStartPlusDelays(log: seq<Note>, a: nat, b: nat, token: uint8)
    requires a < b <= |log| && LastSet(log, a, b, token)
    ensures DueIn(log[..b], token) == log[a].due + Delays(log[a + 1..b], token)
    decreases b
  {
    assert log[..b] == log[..b - 1] + [log[b - 1]];
    DueInAppend(log[..b - 1], log[b - 1], token);
    if b > a + 1 {
      DueIsStartPlusDelays(log, a, b - 1, token);
      assert log[a + 1..b][..b - a - 2] == log[a + 1..b - 1];
    }
  }

  /** Entry `a` is the last before `b` to set the deadline of a token's registration. */
  predicate LastSet(log: seq<Note>, a: nat, b: nat, token: uint8)
    requires a < b <= |log|
  {
    Sets(log[a], token) && forall k :: a < k < b ==> !Sets(log[k], token)
  }

  /** Repeats do not drift: each firing's nominal time is the deadline last set plus the sum of the
      delays returned since, however late the firings in between were. */
  predicate NoDrift(log: seq<Note>)
  {
    forall a, k :: 0 <= a < k < |log| && log[k].Fired? && LastSet(log, a, k, log[k].token) ==>
      log[a].due + Delays(log[a + 1..k], log[k].token) <= log[k].clock
  }

  lemma OnTimeMeansNoDrift(log: seq<Note>)
    requires FiresOnTime(log)
    ensures NoDrift(log)
  {
    hide DueIn, Delays;
    forall a, k | 0 <= a < k < |log| && log[k].Fired? && LastSet(log, a, k, log[k].token)
      ensures log[a].due + Delays(log[a + 1..k], log[k].token) <= log[k].clock
    {
      DueIsStartPlusDelays(log, a, k, log[k].token);
    }
  }

  // ---------------------------------------------------------------- one pass

  lemma InvokeEvolves(s: Sched, i: nat, behave: nat -> Script)
    requires Ok(s) && i < |s.jobs| && s.jobs[i].Job?
    ensures Evolves(Firing(s, i), Invoke(s, i, behave)) && Ok(Invoke(s, i, behave))
  {
    hide Evolves;
    ApplyAllEvolves(Firing(s, i), behave(s.invoked).calls);
    ApplyAllRefines(Firing(s, i), behave(s.invoked).calls);
  }

  /** What a turn of the loop does: it fires the visited job or nothing, and touches other slots
      only through calls that the log records. */
  ghost predicate Turn(s: Sched, i: nat, now: nat, r: Sched)
  {
    && i < |s.jobs| == |r.jobs| && Ok(r) && s.log <= r.log && r.next >= s.next && r.clock >= s.clock
    && r.last == s.last && (s.jobs[i].NoJob? || s.jobs[i].due > now ==> r == s)
    && (forall k :: |s.log| <= k < |r.log| && r.log[k].note.Fired? ==>
          k == |s.log| && s.jobs[i].Job? && s.jobs[i].due <= now && r.log[k] == FiringOf(s, i))
    && (s.jobs[i].Job? && s.jobs[i].due <= now ==> |s.log| < |r.log| && r.log[|s.log|] == FiringOf(s, i))
    && (forall m :: 0 <= m < |s.jobs| ==> SlotTurn(s, i, r, m))
  }

  predicate SlotTurn(s: Sched, i: nat, r: Sched, m: nat)
    requires m < |s.jobs| == |r.jobs|
  {
    var j, k := s.jobs[m], r.jobs[m];
    && (k.Job? && k.serial < s.next ==> j.Job? && k == j.(due := k.due) && NotDeferredSince(s.log, r.log, k.token))
    && (k.Job? && k.serial >= s.next ==> k.due > s.clock)
    && (k.Job? && m != i ==> k == j || k.due > s.clock)
    && (j.Job? && m != i ==> k == j || TouchedSince(s.log, r.log, j))
  }

  lemma VisitIsTurn(s: Sched, i: nat, now: nat, behave: nat -> Script)
    requires Ok(s) && i < |s.jobs|
    ensures Turn(s, i, now, Visit(s, i, now, behave))
  {
    var r := Visit(s, i, now, behave);
    if s.jobs[i].Job? && s.jobs[i].due <= now {
      hide Invoke, Ok;
      InvokeEvolves(s, i, behave);
      var fired := Firing(s, i);
      var u := Invoke(s, i, behave);
      assert u.log <= r.log && fired.log <= u.log;
      assert r.log[|s.log|] == fired.log[|s.log|];
      forall k | |s.log| < k < |r.log| ensures !r.log[k].note.Fired? {
        assert k < |u.log| ==> r.log[k] == u.log[k];
      }
      forall m | 0 <= m < |s.jobs| ensures SlotTurn(s, i, r, m) {
        assert SlotEvolves(fired, u, m);
        if m != i && s.jobs[m].Job? && u.jobs[m] != s.jobs[m] {
          var k :| |fired.log| <= k < |u.log| && Touches(u.log[k], s.jobs[m]);
          assert r.log[k] == u.log[k];
        }
        if r.jobs[m].Job? && r.jobs[m].serial < s.next {
          forall k | |s.log| <= k < |r.log|
            ensures !(r.log[k].note.Deferred? && r.log[k].note.token == r.jobs[m].token)
          {
            assert k < |u.log| ==> r.log[k] == u.log[k];
          }
        }
      }
    }
  }

  lemma TouchedEarlier(a: seq<Happening>, b: seq<Happening>, c: seq<Happening>, j: Job)
    requires j.Job? && a <= b <= c && (TouchedSince(a, b, j) || TouchedSince(b, c, j))
    ensures TouchedSince(a, c, j)
  {
    if TouchedSince(a, b, j) {
      var k :| |a| <= k < |b| && Touches(b[k], j);
      assert c[k] == b[k];
    }
  }

  lemma {:induction false} VisitFromExtends(s: Sched, i: nat, now: nat, behave: nat -> Script)
    requires Ok(s) && i <= |s.jobs|
    ensures s.log <= VisitFrom(s, i, now, behave).log && VisitFrom(s, i, now, behave).clock >= s.clock
    decreases |s.jobs| - i
  {
    if i < |s.jobs| {
      hide Visit, Ok, SlotTurn;
      VisitIsTurn(s, i, now, behave);
      VisitFromExtends(Visit(s, i, now, behave), i + 1, now, behave);
    }
  }

  /** A due job is not missed: in this very pass it fires, unless it is extended or cancelled. */
  lemma {:induction false} NoneMissed(s: Sched, i: nat, now: nat, behave: nat -> Script, m: nat)
    requires Ok(s) && i <= m < |s.jobs| && s.jobs[m].Job? && s.jobs[m].due <= now
    ensures TouchedSince(s.log, VisitFrom(s, i, now, behave).log, s.jobs[m])
    decreases |s.jobs| - i
  {
    hide Visit, Ok, TouchedSince;
    VisitIsTurn(s, i, now, behave);
    var r := Visit(s, i, now, behave);
    var z := VisitFrom(s, i, now, behave);
    VisitFromExtends(r, i + 1, now, behave);
    assert SlotTurn(s, i, r, m);
    if m == i {
      assert TouchedSince(s.log, r.log, s.jobs[m]) by { FiredTouches(s.log, r.log, s.jobs[m]); }
    } else if r.jobs[m] == s.jobs[m] {
      NoneMissed(r, i + 1, now, behave, m);
    }
    TouchedEarlier(s.log, r.log, z.log, s.jobs[m]);
  }

  lemma FiredTouches(log: seq<Happening>, log': seq<Happening>, j: Job)
    requires j.Job? && |log| < |log'| && log'[|log|].note.Fired?
    requires log'[|log|].serial == j.serial && log'[|log|].note.token == j.token
    ensures TouchedSince(log, log', j)
  {
    assert Touches(log'[|log|], j);
  }

  // ---------------------------------------------------------------- what fires in a pass

  /** In the middle of a pass that began in `s0`: what is registered since is not due, and what was
      registered before is still what it was, but for its deadline. */
  predicate MidPass(s0: Sched, s: Sched, now: nat)
  {
    && |s.jobs| == |s0.jobs| && s0.log <= s.log && s0.next <= s.next && now <= s0.clock <= s.clock
    && forall m :: 0 <= m < |s.jobs| && s.jobs[m].Job? ==> SlotMidPass(s0, s, now, m)
  }

  predicate SlotMidPass(s0: Sched, s: Sched, now: nat, m: nat)
    requires m < |s.jobs| == |s0.jobs| && s.jobs[m].Job?
  {
    var j, k := s0.jobs[m], s.jobs[m];
    if k.serial < s0.next then j.Job? && k == j.(due := k.due) && NotDeferredSince(s0.log, s.log, k.token)
    else k.due > now
  }

  /** A firing of the pass: of the entry that the slot held when the pass began, and that has not
      been registered during the pass. */
  predicate ProperFiring(entries: seq<Entry>, log: seq<Note>, from: nat, clock: nat, k: nat)
    requires from <= k < |log| && log[k].Fired?
  {
    var f := log[k];
    && f.slot < |entries| && f.clock >= clock
    && f.token == entries[f.slot].token != INVALID_TOKEN
    && f.callback == entries[f.slot].callback && f.arg == entries[f.slot].arg
    && forall l :: from <= l < k ==> !(log[l].Deferred? && log[l].token == f.token)
  }

  /** All firings of a pass are proper, and each slot fires at most once, in the order of the table. */
  predicate ProperPass(entries: seq<Entry>, log: seq<Note>, from: nat, clock: nat)
  {
    && (forall k :: from <= k < |log| && log[k].Fired? ==> ProperFiring(entries, log, from, clock, k))
    && (forall k, l :: from <= k < l < |log| && log[k].Fired? && log[l].Fired? ==> log[k].slot < log[l].slot)
  }

  lemma TurnMidPass(s0: Sched, s: Sched, i: nat, now: nat, r: Sched)
    requires MidPass(s0, s, now) && Turn(s, i, now, r)
    ensures MidPass(s0, r, now)
  {
    forall m | 0 <= m < |r.jobs| && r.jobs[m].Job? ensures SlotMidPass(s0, r, now, m) {
      assert SlotTurn(s, i, r, m);
      if r.jobs[m].serial < s.next {
        assert SlotMidPass(s0, s, now, m);
        if r.jobs[m].serial < s0.next {
          assert forall k :: |s0.log| <= k < |s.log| ==> r.log[k] == s.log[k];
        }
      }
    }
  }

  lemma {:induction false} PassIsProper(s0: Sched, s: Sched, i: nat, now: nat, behave: nat -> Script)
    requires Recorded(s) && Recorded(s0) && i <= |s.jobs| && MidPass(s0, s, now)
    requires forall k :: |s0.log| <= k < |s.log| && s.log[k].note.Fired? ==> s.log[k].note.slot < i
    requires ProperPass(Entries(s0.jobs), Notes(s.log), |s0.log|, s0.clock)
    ensures ProperPass(Entries(s0.jobs), Notes(VisitFrom(s, i, now, behave).log), |s0.log|, s0.clock)
    decreases |s.jobs| - i
  {
    if i < |s.jobs| {
      hide Visit, Recorded, ProperPass, SlotTurn, SlotMidPass, Entries, Notes, MidPass;
      RecordedIsOk(s);
      VisitIsTurn(s, i, now, behave);
      MidPassTimes(s0, s, now);
      VisitRecorded(s, i, now, behave);
      var r := Visit(s, i, now, behave);
      TurnMidPass(s0, s, i, now, r);
      TurnIsProper(s0, s, i, now, r);
      PassIsProper(s0, r, i + 1, now, behave);
    }
  }

  lemma MidPassTimes(s0: Sched, s: Sched, now: nat)
    requires MidPass(s0, s, now)
    ensures now <= s.clock && s0.log <= s.log && |s.jobs| == |s0.jobs|
  {
  }

  lemma TurnIsProper(s0: Sched, s: Sched, i: nat, now: nat, r: Sched)
    requires Recorded(s0) && Turn(s, i, now, r) && MidPass(s0, s, now)
    requires forall k :: |s0.log| <= k < |s.log| && s.log[k].note.Fired? ==> s.log[k].note.slot < i
    requires ProperPass(Entries(s0.jobs), Notes(s.log), |s0.log|, s0.clock)
    ensures ProperPass(Entries(s0.jobs), Notes(r.log), |s0.log|, s0.clock)
    ensures forall k :: |s0.log| <= k < |r.log| && r.log[k].note.Fired? ==> r.log[k].note.slot < i + 1
  {
    hide SlotTurn, Recorded;
    var entries, log, log', from := Entries(s0.jobs), Notes(s.log), Notes(r.log), |s0.log|;
    assert forall k :: 0 <= k < |s.log| ==> r.log[k] == s.log[k];
    forall k | from <= k < |log'| && log'[k].Fired? ensures ProperFiring(entries, log', from, s0.clock, k) {
      if k < |log| {
        assert ProperFiring(entries, log, from, s0.clock, k);
      } else {
        assert SlotMidPass(s0, s, now, i);
        RecordedIsOk(s0);
        EntriesAre(s0.jobs);
        assert r.log[k] == FiringOf(s, i);
      }
    }
  }

  /** Every pass of every run: a due job fires in the first pass at or after its deadline unless a
      callback of that pass extends or cancels it first; only what the table held when the pass began
      fires, each slot at most once. */
  lemma EveryPass(size: nat, inputs: seq<Input>, behave: nat -> Script)
    requires var s := Run(Boot(size), inputs); s.clock > s.last
    ensures var s := Run(Boot(size), inputs);
      var r := Step(s, Pass(behave));
      && s.log <= r.log
      && (forall m :: 0 <= m < |s.jobs| && s.jobs[m].Job? && s.jobs[m].due <= s.clock ==>
            TouchedSince(s.log, r.log, s.jobs[m]))
      && ProperPass(Entries(s.jobs), Notes(r.log), |s.log|, s.clock)
  {
    hide Run, VisitFrom, TouchedSince, Recorded, Entries, Notes, ProperFiring;
    var s := Run(Boot(size), inputs);
    NeverEarly(size, inputs);
    var t := s.(last := s.clock);
    RecordedIgnoresRest(s, t);
    RecordedIsOk(t);
    NothingYet(t);
    PassIsProper(t, t, 0, s.clock, behave);
    VisitFromExtends(t, 0, s.clock, behave);
    forall m | 0 <= m < |s.jobs| && s.jobs[m].Job? && s.jobs[m].due <= s.clock
      ensures TouchedSince(s.log, Step(s, Pass(behave)).log, s.jobs[m])
    {
      NoneMissed(t, 0, s.clock, behave, m);
    }
  }

  lemma NothingYet(s: Sched)
    requires Ok(s)
    ensures MidPass(s, s, s.clock) && ProperPass(Entries(s.jobs), Notes(s.log), |s.log|, s.clock)
  {
  }
}
