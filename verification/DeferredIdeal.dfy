/** The scheduler the deferred executor is meant to be: unbounded deadlines, a serial number for
    each registration, and a log of what happened to it. */
module DeferredIdeal {
  import opened Keyboard
  import opened DeferredSpec

  datatype Job = NoJob | Job(serial: nat, token: uint8, due: nat, callback: nat, arg: nat)

  /** A note about the registration with a serial number. */
  datatype Happening = Happening(serial: nat, note: Note)

  datatype Sched = Sched(jobs: seq<Job>, current: uint8, last: nat, clock: nat, invoked: nat,
                         next: nat, log: seq<Happening>)

  function Wrapped(j: Job): Entry
  {
    if j.NoJob? then FREE else Entry(j.token, j.due % WRAP, j.callback, j.arg)
  }

  /** The table as the firmware stores it. */
  function Entries(jobs: seq<Job>): seq<Entry>
  {
    seq(|jobs|, i requires 0 <= i < |jobs| => Wrapped(jobs[i]))
  }

  /** The log without the serial numbers, which the firmware does not have. */
  function Notes(log: seq<Happening>): (r: seq<Note>)
    ensures |r| == |log| && forall k :: 0 <= k < |log| ==> r[k] == log[k].note
  {
    seq(|log|, k requires 0 <= k < |log| => log[k].note)
  }

  lemma NotesAppend(log: seq<Happening>, h: Happening)
    ensures Notes(log + [h]) == Notes(log) + [h.note]
  {
  }

  function Stored(s: Sched): Table
  {
    Table(Entries(s.jobs), s.current, s.last % WRAP, s.clock, s.invoked, Notes(s.log))
  }

  function Put(s: Sched, i: nat, j: Job, h: Happening): Sched
    requires i < |s.jobs|
  {
    s.(jobs := s.jobs[i := j], log := s.log + [h])
  }

  // ---------------------------------------------------------------- operations

  function Apply(s: Sched, op: Op): (r: Sched)
    ensures |r.jobs| == |s.jobs|
  {
    match op
    case Defer(delay, callback, arg) =>
      var i := Slot(Entries(s.jobs), INVALID_TOKEN);
      if s.jobs == [] || delay == 0 || callback == 0 || i == |s.jobs| then s
      else
        var (token, current) := Allocate(Entries(s.jobs), s.current);
        var s1 := s.(current := current);
        if token == INVALID_TOKEN then s1
        else
          var due := s.clock + delay;
          Put(s1, i, Job(s.next, token, due, callback, arg),
            Happening(s.next, Deferred(token, due))).(next := s.next + 1)
    case Extend(token, delay) =>
      var i := Slot(Entries(s.jobs), token);
      if delay == 0 || token == INVALID_TOKEN || i == |s.jobs| || s.jobs[i].NoJob? then s
      else Put(s, i, s.jobs[i].(due := s.clock + delay), Happening(s.jobs[i].serial, Extended(token, s.clock + delay)))
    case Cancel(token) =>
      var i := Slot(Entries(s.jobs), token);
      if token == INVALID_TOKEN || i == |s.jobs| || s.jobs[i].NoJob? then s
      else Put(s, i, NoJob, Happening(s.jobs[i].serial, Cancelled(token)))
    case Elsewhere(current) => s.(current := current)
  }

  function After(s: Sched, call: Call): (r: Sched)
    ensures |r.jobs| == |s.jobs|
  {
    Apply(s.(clock := s.clock + call.wait), call.op)
  }

  function ApplyAll(s: Sched, calls: seq<Call>): (r: Sched)
    ensures |r.jobs| == |s.jobs|
    decreases |calls|
  {
    if calls == [] then s
    else ApplyAll(After(s, calls[0]), calls[1..])
  }

  function FiringOf(s: Sched, i: nat): Happening
    requires i < |s.jobs| && s.jobs[i].Job?
  {
    var j := s.jobs[i];
    Happening(j.serial, Fired(j.token, i, j.callback, j.arg, s.clock))
  }

  /** The state in which a due job's callback is called. */
  function Firing(s: Sched, i: nat): (r: Sched)
    requires i < |s.jobs| && s.jobs[i].Job?
    ensures |r.jobs| == |s.jobs|
  {
    s.(invoked := s.invoked + 1, log := s.log + [FiringOf(s, i)])
  }

  /** The state in which it has just returned. */
  function Invoke(s: Sched, i: nat, behave: nat -> Script): (r: Sched)
    requires i < |s.jobs| && s.jobs[i].Job?
    ensures |r.jobs| == |s.jobs|
  {
    ApplyAll(Firing(s, i), behave(s.invoked).calls)
  }

  /** A job runs if it is due; then it is repeated or finished, unless its callback replaced it. */
  function Visit(s: Sched, i: nat, now: nat, behave: nat -> Script): (r: Sched)
    requires i < |s.jobs|
    ensures |r.jobs| == |s.jobs|
  {
    var j := s.jobs[i];
    if j.NoJob? || j.due > now then s
    else
      var u := Invoke(s, i, behave);
      var delay := behave(s.invoked).delay;
      if u.jobs[i].NoJob? || u.jobs[i].serial != j.serial then u
      else if delay > 0 then
        Put(u, i, u.jobs[i].(due := u.jobs[i].due + delay), Happening(j.serial, Repeated(j.token, delay)))
      else Put(u, i, NoJob, Happening(j.serial, Finished(j.token)))
  }

  function VisitFrom(s: Sched, i: nat, now: nat, behave: nat -> Script): Sched
    requires i <= |s.jobs|
    decreases |s.jobs| - i
  {
    if i == |s.jobs| then s else VisitFrom(Visit(s, i, now, behave), i + 1, now, behave)
  }

  function Task(s: Sched, behave: nat -> Script): Sched
  {
    if s.clock <= s.last then s
    else VisitFrom(s.(last := s.clock), 0, s.clock, behave)
  }

  // ---------------------------------------------------------------- refinement

  /** Live jobs have real tokens and serial numbers already given out. */
  predicate Ok(s: Sched)
  {
    forall i :: 0 <= i < |s.jobs| && s.jobs[i].Job? ==> s.jobs[i].token != INVALID_TOKEN && s.jobs[i].serial < s.next
  }

  lemma EntriesUpdate(jobs: seq<Job>, i: nat, j: Job)
    requires i < |jobs|
    ensures Entries(jobs[i := j]) == Entries(jobs)[i := Wrapped(j)]
  {
  }

  /** Defer, extend and cancel on the stored table do exactly what they do to the ideal one. */
  lemma ApplyRefines(s: Sched, op: Op)
    requires Ok(s)
    ensures Ok(Apply(s, op)) && Stored(Apply(s, op)) == ApplyStored(Stored(s), op)
  {
    hide Search, Usable, Entries, Slot, Notes;
    forall h ensures Notes(s.log + [h]) == Notes(s.log) + [h.note] { NotesAppend(s.log, h); }
    EntriesAre(s.jobs);
    match op {
      case Defer(delay, callback, arg) =>
        var i := Slot(Entries(s.jobs), INVALID_TOKEN);
        if i < |s.jobs| {
          EntriesUpdate(s.jobs, i, Job(s.next, Allocate(Entries(s.jobs), s.current).0, s.clock + delay, callback, arg));
        }
      case Extend(token, delay) =>
        var i := Slot(Entries(s.jobs), token);
        if i < |s.jobs| && s.jobs[i].Job? {
          EntriesUpdate(s.jobs, i, s.jobs[i].(due := s.clock + delay));
        }
      case Cancel(token) =>
        var i := Slot(Entries(s.jobs), token);
        if i < |s.jobs| {
          EntriesUpdate(s.jobs, i, NoJob);
        }
      case Elsewhere(_) =>
    }
  }

  lemma EntriesAre(jobs: seq<Job>)
    ensures |Entries(jobs)| == |jobs|
    ensures forall i :: 0 <= i < |jobs| ==> Entries(jobs)[i] == Wrapped(jobs[i])
  {
  }

  lemma {:induction false} ApplyAllRefines(s: Sched, calls: seq<Call>)
    requires Ok(s)
    ensures Ok(ApplyAll(s, calls)) && Stored(ApplyAll(s, calls)) == ApplyAllStored(Stored(s), calls)
    decreases |calls|
  {
    if calls != [] {
      hide After, AfterStored, Ok, Stored;
      AfterRefines(s, calls[0]);
      ApplyAllRefines(After(s, calls[0]), calls[1..]);
    }
  }

  lemma AfterRefines(s: Sched, call: Call)
    requires Ok(s)
    ensures Ok(After(s, call)) && Stored(After(s, call)) == AfterStored(Stored(s), call)
  {
    hide Apply, ApplyStored, Entries;
    ApplyRefines(s.(clock := s.clock + call.wait), call.op);
  }

  lemma OkIgnoresTime(s: Sched, t: Sched)
    requires Ok(s) && s.jobs == t.jobs && s.next == t.next
    ensures Ok(t)
  {
  }

  // ---------------------------------------------------------------- what calls can do to a job

  /** Has something happened to this job since: fired, extended or cancelled? */
  predicate TouchedSince(log: seq<Happening>, log': seq<Happening>, j: Job)
    requires j.Job?
  {
    exists k :: |log| <= k < |log'| && Touches(log'[k], j)
  }

  predicate Touches(h: Happening, j: Job)
    requires j.Job?
  {
    && (h.note.Fired? || h.note.Extended? || h.note.Cancelled?)
    && h.serial == j.serial && h.note.token == j.token
  }

  predicate NoneFiredSince(log: seq<Happening>, log': seq<Happening>)
  {
    forall k :: |log| <= k < |log'| ==> !log'[k].note.Fired?
  }

  predicate NotDeferredSince(log: seq<Happening>, log': seq<Happening>, token: uint8)
  {
    forall k :: |log| <= k < |log'| ==> !(log'[k].note.Deferred? && log'[k].note.token == token)
  }

  /** A slot keeps its job, unless the log says what happened to it; whatever is new is due later, and
      has a token that no job kept since has. */
  predicate SlotEvolves(s: Sched, u: Sched, i: nat)
    requires i < |s.jobs| == |u.jobs|
  {
    var j, k := s.jobs[i], u.jobs[i];
    && (k.Job? ==> k == j || k.due > s.clock)
    && (k.Job? && k.serial < s.next ==> j.Job? && k == j.(due := k.due) && NotDeferredSince(s.log, u.log, k.token))
    && (j.Job? ==> k == j || TouchedSince(s.log, u.log, j))
  }

  predicate Evolves(s: Sched, u: Sched)
  {
    && |u.jobs| == |s.jobs| && u.next >= s.next && u.clock >= s.clock && u.last == s.last && s.log <= u.log
    && NoneFiredSince(s.log, u.log)
    && forall i :: 0 <= i < |s.jobs| ==> SlotEvolves(s, u, i)
  }

  lemma EvolvesTransitive(s: Sched, t: Sched, u: Sched)
    requires Evolves(s, t) && Evolves(t, u)
    ensures Evolves(s, u)
  {
    forall i | 0 <= i < |s.jobs| ensures SlotEvolves(s, u, i) {
      assert SlotEvolves(s, t, i) && SlotEvolves(t, u, i);
      if s.jobs[i].Job? && TouchedSince(s.log, t.log, s.jobs[i]) {
        var k :| |s.log| <= k < |t.log| && Touches(t.log[k], s.jobs[i]);
        assert u.log[k] == t.log[k];
      }
      if u.jobs[i].Job? && u.jobs[i].serial < s.next {
        assert forall k :: |s.log| <= k < |t.log| ==> u.log[k] == t.log[k];
      }
    }
    forall k | |s.log| <= k < |u.log| ensures !u.log[k].note.Fired? {
      assert k < |t.log| ==> u.log[k] == t.log[k];
    }
  }

  lemma NewTokenIsNew(jobs: seq<Job>, current: uint8)
    ensures var token := Allocate(Entries(jobs), current).0;
      token != INVALID_TOKEN ==> forall i :: 0 <= i < |jobs| && jobs[i].Job? ==> jobs[i].token != token
  {
    EntriesAre(jobs);
    hide Entries, Search;
    var token := Allocate(Entries(jobs), current).0;
    if token != INVALID_TOKEN {
      forall i | 0 <= i < |jobs| && jobs[i].Job? ensures jobs[i].token != token {
        assert Entries(jobs)[i].token != token;
      }
    }
  }

  lemma ApplyEvolves(s: Sched, op: Op)
    requires Ok(s)
    ensures Evolves(s, Apply(s, op))
  {
    hide Search, Usable, Entries, Slot;
    EntriesAre(s.jobs);
    var u := Apply(s, op);
    NewTokenIsNew(s.jobs, s.current);
    if |u.log| > |s.log| {
      assert u.log[|s.log|] == u.log[|u.log| - 1];
    }
  }

  lemma {:induction false} ApplyAllEvolves(s: Sched, calls: seq<Call>)
    requires Ok(s)
    ensures Evolves(s, ApplyAll(s, calls))
    decreases |calls|
  {
    if calls != [] {
      hide After, Ok, Evolves, Stored;
      AfterEvolves(s, calls[0]);
      AfterRefines(s, calls[0]);
      ApplyAllEvolves(After(s, calls[0]), calls[1..]);
      EvolvesTransitive(s, After(s, calls[0]), ApplyAll(s, calls));
    } else {
      TimeEvolves(s, s);
    }
  }

  lemma AfterEvolves(s: Sched, call: Call)
    requires Ok(s)
    ensures Evolves(s, After(s, call))
  {
    hide Apply, Evolves;
    var t := s.(clock := s.clock + call.wait);
    TimeEvolves(s, t);
    ApplyEvolves(t, call.op);
    EvolvesTransitive(s, t, Apply(t, call.op));
  }

  lemma TimeEvolves(s: Sched, t: Sched)
    requires t == s.(clock := t.clock) && t.clock >= s.clock
    ensures Evolves(s, t)
  {
  }
}
