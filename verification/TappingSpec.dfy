/** What one call of `process_tapping` and one call of `action_tapping_process` do
    (quantum/action_tapping.c), as functions over a plain queue of waiting records.
    Built without CHORDAL_HOLD, FLOW_TAP_TERM, RETRO_SHIFT and COMBO_ENABLE. */
module TappingSpec {
  import opened Keyboard

  const WAITING_BUFFER_SIZE := 8

  /** Which record a `process_record` call was given: the tapping slot, the record being
      processed, or a release made up on the spot. */
  datatype Origin = FromSlot | FromEvent | Synthetic

  /** What leaves the engine: records handed to `process_record`, and the `clear_keyboard`
      of an overflow. */
  datatype Output = Handed(rec: Record, origin: Origin) | Cleared

  type Trace = seq<Output>

  /** The user-overridable decisions. Each may depend on the record asked about and on
      everything handed on so far (hence on the layer state that resulted from it).
      `retain` is the modifier/layer test on an early release. */
  datatype Env = Env(
    isTap: (Record, Trace) -> bool,
    permissiveHold: (Record, Trace) -> bool,
    holdOnOtherKey: (Record, Trace) -> bool,
    retain: (Record, Trace) -> bool,
    term: (Record, Trace) -> uint16,
    quickTerm: (Record, Trace) -> uint16)

  datatype State = State(slot: Record, queue: seq<Record>, out: Trace)

  const INITIAL := State(NO_RECORD, [], [])

  /** The result of processing one record: `done` is the C return value and `rec` the record
      as it is left behind the pointer. */
  datatype Outcome = Outcome(state: State, done: bool, rec: Record)

  predicate Idle(slot: Record) { slot.event.IsTick() }

  /** A tapping key that is down and neither tap nor hold yet. */
  predicate Unsettled(slot: Record) { !Idle(slot) && slot.event.pressed && slot.tap.count == 0 }

  predicate WithinTerm(s: State, e: Event, env: Env)
  {
    TimerDiff16(e.time, s.slot.event.time) < env.term(s.slot, s.out)
  }

  predicate WithinQuickTerm(s: State, e: Event, env: Env)
  {
    TimerDiff16(e.time, s.slot.event.time) < env.quickTerm(s.slot, s.out)
  }

  function Hand(s: State, r: Record, origin: Origin): State
  {
    s.(out := s.out + [Handed(r, origin)])
  }

  /** `waiting_buffer_typed`: does the queue hold the opposite event of the same key? */
  predicate Typed(queue: seq<Record>, e: Event)
  {
    exists i :: 0 <= i < |queue| && queue[i].event.key == e.key && queue[i].event.pressed != e.pressed
  }

  predicate Candidate(s: State, r: Record, env: Env)
  {
    !r.event.IsTick() && r.event.key == s.slot.event.key && !r.event.pressed && WithinTerm(s, r.event, env)
  }

  /** The first queued release of the slot's key inside the term, or the queue's length. */
  function FirstCandidate(s: State, env: Env, from: nat): (i: nat)
    requires from <= |s.queue|
    ensures from <= i <= |s.queue|
    ensures i < |s.queue| ==> Candidate(s, s.queue[i], env)
    ensures forall j :: from <= j < i ==> !Candidate(s, s.queue[j], env)
    decreases |s.queue| - from
  {
    if from == |s.queue| || Candidate(s, s.queue[from], env) then from
    else FirstCandidate(s, env, from + 1)
  }

  /** `waiting_buffer_scan_tap`. */
  function ScanTap(s: State, env: Env): State
  {
    if s.slot.tap.count > 0 || !s.slot.event.pressed then s
    else
      var i := FirstCandidate(s, env, 0);
      if i == |s.queue| then s
      else
        var slot := s.slot.(tap := s.slot.tap.(count := 1));
        var hit := s.queue[i].(tap := s.queue[i].tap.(count := 1));
        Hand(State(slot, s.queue[i := hit], s.out), slot, FromSlot)
  }

  /** No tapping key. */
  function ProcessIdle(s: State, r: Record, env: Env): Outcome
  {
    if r.event.IsTick() then Outcome(s, true, r)
    else if r.event.pressed && env.isTap(r, s.out) then Outcome(ScanTap(s.(slot := r), env), true, r)
    else Outcome(Hand(s, r, FromEvent), true, r)
  }

  /** Tapping key down, undecided, and the event is inside its term. */
  function ProcessUnsettled(s: State, r: Record, env: Env): Outcome
  {
    var e := r.event;
    if s.slot.event.key == e.key && !e.pressed then
      var slot := s.slot.(tap := s.slot.tap.(count := 1));
      Outcome(Hand(s.(slot := slot), slot, FromSlot), false, r.(tap := slot.tap))
    else if !e.pressed && Typed(s.queue, e) && env.permissiveHold(s.slot, s.out) then
      Outcome(Hand(s, s.slot, FromSlot).(slot := NO_RECORD), false, r)
    else if !e.pressed && !Typed(s.queue, e) then
      if env.retain(r, s.out) then Outcome(s, false, r)
      else Outcome(Hand(s, r, FromEvent), true, r)
    else if e.pressed then
      var slot := s.slot.(tap := s.slot.tap.(interrupted := true));
      if env.holdOnOtherKey(slot, s.out) then
        Outcome(Hand(s, slot, FromSlot).(slot := NO_RECORD), false, r)
      else Outcome(s.(slot := slot), false, r)
    else Outcome(s, false, r)
  }

  /** Tapping key down and already settled as a tap. */
  function ProcessTapped(s: State, r: Record, within: bool, env: Env): Outcome
  {
    var e := r.event;
    if s.slot.event.key == e.key && !e.pressed then
      var release := r.(tap := s.slot.tap);
      Outcome(Hand(s, release, FromEvent).(slot := if within then release else NO_RECORD), true, release)
    else if env.isTap(r, s.out) && e.pressed then
      var s1 := if s.slot.tap.count > 1
                then Hand(s, Record(Event(s.slot.event.key, e.time, s.slot.event.kind, false), s.slot.tap), Synthetic)
                else s;
      Outcome(ScanTap(s1.(slot := r), env), true, r)
    else Outcome(Hand(s, r, FromEvent), true, r)
  }

  /** Tapping key up again, and the event is inside its term. */
  function ProcessReleased(s: State, r: Record, env: Env): Outcome
  {
    var e := r.event;
    if e.pressed then
      if s.slot.event.key == e.key then
        if WithinQuickTerm(s, e, env) && !s.slot.tap.interrupted && s.slot.tap.count > 0 then
          var count := if s.slot.tap.count < 15 then s.slot.tap.count + 1 else s.slot.tap.count;
          var press := r.(tap := s.slot.tap.(count := count));
          Outcome(Hand(s, press, FromEvent).(slot := press), true, press)
        else Outcome(s.(slot := r), true, r)
      else if env.isTap(r, s.out) then Outcome(ScanTap(s.(slot := r), env), true, r)
      else
        var slot := s.slot.(tap := s.slot.tap.(interrupted := true));
        Outcome(Hand(s.(slot := slot), r, FromEvent), true, r)
    else Outcome(Hand(s, r, FromEvent), true, r)
  }

  /** `process_tapping`. */
  function Process(s: State, r: Record, env: Env): Outcome
  {
    if Idle(s.slot) then ProcessIdle(s, r, env)
    else if s.slot.event.pressed then
      if WithinTerm(s, r.event, env) then
        if r.event.IsTick() then Outcome(s, true, r)
        else if s.slot.tap.count == 0 then ProcessUnsettled(s, r, env)
        else ProcessTapped(s, r, true, env)
      else if s.slot.tap.count == 0 then
        Outcome(Hand(s, s.slot, FromSlot).(slot := NO_RECORD), false, r)
      else if r.event.IsTick() then Outcome(s, true, r)
      else ProcessTapped(s, r, false, env)
    else if WithinTerm(s, r.event, env) then
      if r.event.IsTick() then Outcome(s, true, r)
      else ProcessReleased(s, r, env)
    else Outcome(s.(slot := NO_RECORD), false, r)
  }

  lemma ProcessKeepsQueueLength(s: State, r: Record, env: Env)
    ensures |Process(s, r, env).state.queue| == |s.queue|
  {
  }

  lemma ProcessKeepsEvent(s: State, r: Record, env: Env)
    ensures Process(s, r, env).rec.event == r.event
  {
  }

  /** The drain loop: process queued records until one is retained. */
  function Drain(s: State, env: Env): State
    decreases |s.queue|
  {
    if s.queue == [] then s
    else
      var o := Process(s, s.queue[0], env);
      ProcessKeepsQueueLength(s, s.queue[0], env);
      var queue := o.state.queue[0 := o.rec];
      if o.done then Drain(o.state.(queue := queue[1..]), env)
      else o.state.(queue := queue)
  }

  /** Does a retained record find the waiting buffer full? */
  predicate Full(o: Outcome)
  {
    !o.done && !o.rec.event.IsTick() && |o.state.queue| == WAITING_BUFFER_SIZE - 1
  }

  /** What `action_tapping_process` does with a processed record before it drains the queue:
      a retained key event is enqueued, or everything is cleared if there is no room. */
  function Admit(o: Outcome): State
  {
    if o.done || o.rec.event.IsTick() then o.state
    else if Full(o) then State(NO_RECORD, [], o.state.out + [Cleared])
    else o.state.(queue := o.state.queue + [o.rec])
  }

  predicate Overflows(s: State, e: Event, env: Env) { Full(Process(s, NewRecord(e), env)) }

  /** `action_tapping_process`. */
  function Step(s: State, e: Event, env: Env): State
  {
    Drain(Admit(Process(s, NewRecord(e), env)), env)
  }
}
