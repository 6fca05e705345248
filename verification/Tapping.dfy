/** The tap/hold engine as the firmware runs it (quantum/action_tapping.c): a tapping slot and a
    ring of waiting records, both edited in place, some of it through a record pointer that may
    point into the ring itself. Every call is proved to do what TappingSpec says. */
module Tapping {
  import opened Keyboard
  import opened TappingSpec

  /** The records between two ring positions, oldest first. */
  function Ring(cells: seq<Record>, tail: nat, head: nat): seq<Record>
    requires |cells| == WAITING_BUFFER_SIZE && tail < WAITING_BUFFER_SIZE && head < WAITING_BUFFER_SIZE
  {
    seq((head - tail) % WAITING_BUFFER_SIZE,
        i requires 0 <= i < WAITING_BUFFER_SIZE => cells[(tail + i) % WAITING_BUFFER_SIZE])
  }

  lemma RingUpdate(cells: seq<Record>, tail: nat, head: nat, i: nat, r: Record)
    requires |cells| == WAITING_BUFFER_SIZE && tail < WAITING_BUFFER_SIZE && head < WAITING_BUFFER_SIZE
    requires i < |Ring(cells, tail, head)|
    ensures Ring(cells[(tail + i) % WAITING_BUFFER_SIZE := r], tail, head) == Ring(cells, tail, head)[i := r]
  {
  }

  /** The position `n` steps past the tail: at the head exactly when the ring is exhausted. */
  lemma RingAt(cells: seq<Record>, tail: nat, head: nat, n: nat, i: nat)
    requires |cells| == WAITING_BUFFER_SIZE && tail < WAITING_BUFFER_SIZE && head < WAITING_BUFFER_SIZE
    requires n <= |Ring(cells, tail, head)| && i == (tail + n) % WAITING_BUFFER_SIZE
    ensures i == head <==> n == |Ring(cells, tail, head)|
    ensures n < |Ring(cells, tail, head)| ==> Ring(cells, tail, head)[n] == cells[i]
    ensures (i + 1) % WAITING_BUFFER_SIZE == (tail + (n + 1)) % WAITING_BUFFER_SIZE
  {
  }

  lemma RingPush(cells: seq<Record>, tail: nat, head: nat, r: Record)
    requires |cells| == WAITING_BUFFER_SIZE && tail < WAITING_BUFFER_SIZE && head < WAITING_BUFFER_SIZE
    ensures (head + 1) % WAITING_BUFFER_SIZE == tail <==> |Ring(cells, tail, head)| == WAITING_BUFFER_SIZE - 1
    ensures (head + 1) % WAITING_BUFFER_SIZE != tail ==>
      Ring(cells[head := r], tail, (head + 1) % WAITING_BUFFER_SIZE) == Ring(cells, tail, head) + [r]
  {
    var n, next := (head - tail) % WAITING_BUFFER_SIZE, (head + 1) % WAITING_BUFFER_SIZE;
    assert n == if tail <= head then head - tail else head + WAITING_BUFFER_SIZE - tail;
    assert next == if head == WAITING_BUFFER_SIZE - 1 then 0 else head + 1;
    if next != tail {
      assert (next - tail) % WAITING_BUFFER_SIZE == n + 1;
      var old', new' := Ring(cells, tail, head), Ring(cells[head := r], tail, next);
      forall i | 0 <= i < n + 1 ensures new'[i] == (old' + [r])[i] {
        assert (tail + i) % WAITING_BUFFER_SIZE
            == if tail + i < WAITING_BUFFER_SIZE then tail + i else tail + i - WAITING_BUFFER_SIZE;
      }
    }
  }

  lemma RingSize(cells: seq<Record>, tail: nat, head: nat)
    requires |cells| == WAITING_BUFFER_SIZE && tail < WAITING_BUFFER_SIZE && head < WAITING_BUFFER_SIZE
    ensures |Ring(cells, tail, head)| < WAITING_BUFFER_SIZE
  {
  }

  lemma RingPop(cells: seq<Record>, tail: nat, head: nat)
    requires |cells| == WAITING_BUFFER_SIZE && tail < WAITING_BUFFER_SIZE && head < WAITING_BUFFER_SIZE
    requires head != tail
    ensures Ring(cells, tail, head) != []
    ensures Ring(cells, (tail + 1) % WAITING_BUFFER_SIZE, head) == Ring(cells, tail, head)[1..]
  {
  }

  class Engine {
    var tappingKey: Record
    const waitingBuffer: array<Record>
    var head: nat
    var tail: nat
    var out: Trace

    ghost predicate Valid()
      reads this
    {
      waitingBuffer.Length == WAITING_BUFFER_SIZE && head < WAITING_BUFFER_SIZE && tail < WAITING_BUFFER_SIZE
    }

    ghost function Queue(): seq<Record>
      requires Valid()
      reads this, waitingBuffer
    {
      Ring(waitingBuffer[..], tail, head)
    }

    ghost function Value(): State
      requires Valid()
      reads this, waitingBuffer
    {
      State(tappingKey, Queue(), out)
    }

    /** A record pointer: into a local copy, or at the oldest waiting record. */
    ghost predicate Points(p: array<Record>, i: nat)
      requires Valid()
      reads this
    {
      if p == waitingBuffer then i == tail && head != tail else i < p.Length == 1
    }

    /** The engine is in the outcome's state, with the outcome's record behind the pointer. */
    ghost predicate Yields(o: Outcome, p: array<Record>, i: nat, done: bool)
      reads this, waitingBuffer, p
    {
      && Valid() && Points(p, i)
      && done == o.done && p[i] == o.rec && tappingKey == o.state.slot && out == o.state.out
      && (p == waitingBuffer ==> o.state.queue != [])
      && Queue() == if p == waitingBuffer then o.state.queue[0 := o.rec] else o.state.queue
    }

    constructor ()
      ensures Valid() && Value() == INITIAL
    {
      tappingKey, head, tail, out := NO_RECORD, 0, 0, [];
      waitingBuffer := new Record[WAITING_BUFFER_SIZE](_ => NO_RECORD);
    }

    method ProcessRecord(r: Record, origin: Origin)
      modifies this`out
      ensures out == old(out) + [Handed(r, origin)]
    {
      out := out + [Handed(r, origin)];
    }

    method WaitingBufferTyped(e: Event) returns (typed: bool)
      requires Valid()
      ensures typed <==> Typed(Queue(), e)
    {
      hide Ring;
      var i := tail;
      ghost var n := 0;
      while i != head
        invariant i < WAITING_BUFFER_SIZE && n <= |Queue()| && i == (tail + n) % WAITING_BUFFER_SIZE
        invariant forall j :: 0 <= j < n ==> !(Queue()[j].event.key == e.key && Queue()[j].event.pressed != e.pressed)
        decreases |Queue()| - n
      {
        RingAt(waitingBuffer[..], tail, head, n, i);
        if waitingBuffer[i].event.key == e.key && waitingBuffer[i].event.pressed != e.pressed {
          return true;
        }
        i, n := (i + 1) % WAITING_BUFFER_SIZE, n + 1;
      }
      RingAt(waitingBuffer[..], tail, head, n, i);
      return false;
    }

    method WaitingBufferScanTap(env: Env)
      requires Valid()
      modifies this`tappingKey, this`out, waitingBuffer
      ensures Valid() && Value() == ScanTap(old(Value()), env)
    {
      if tappingKey.tap.count > 0 || !tappingKey.event.pressed {
        return;
      }
      hide Ring;
      ghost var s := Value();
      var i := tail;
      ghost var n := 0;
      while i != head
        invariant i < WAITING_BUFFER_SIZE && n <= |s.queue| && i == (tail + n) % WAITING_BUFFER_SIZE
        invariant Value() == s && waitingBuffer[..] == old(waitingBuffer[..])
        invariant FirstCandidate(s, env, 0) == FirstCandidate(s, env, n)
        decreases |s.queue| - n
      {
        RingAt(waitingBuffer[..], tail, head, n, i);
        var r := waitingBuffer[i];
        if !r.event.IsTick() && r.event.key == tappingKey.event.key && !r.event.pressed
           && TimerDiff16(r.event.time, tappingKey.event.time) < env.term(tappingKey, out) {
          RingUpdate(waitingBuffer[..], tail, head, n, r.(tap := r.tap.(count := 1)));
          tappingKey := tappingKey.(tap := tappingKey.tap.(count := 1));
          waitingBuffer[i] := r.(tap := r.tap.(count := 1));
          assert waitingBuffer[..] == old(waitingBuffer[..])[i := waitingBuffer[i]];
          ProcessRecord(tappingKey, FromSlot);
          return;
        }
        i, n := (i + 1) % WAITING_BUFFER_SIZE, n + 1;
      }
      RingAt(waitingBuffer[..], tail, head, n, i);
    }

    method StartTapping(p: array<Record>, i: nat, env: Env) returns (done: bool)
      requires Valid() && Points(p, i) && p[i].event.pressed
      modifies this`tappingKey, this`out, waitingBuffer
      ensures done && Yields(Outcome(ScanTap(old(Value()).(slot := old(p[i])), env), true, old(p[i])), p, i, done)
    {
      ghost var s := Value();
      ghost var q := p[i];
      tappingKey := p[i];
      WaitingBufferScanTap(env);
      done := true;
      if p == waitingBuffer {
        assert Queue()[0] == p[i] && s.queue[0] == q;
        assert Queue()[0 := p[i]] == Queue();
      }
    }

    /** `keyp->tap = tap`, wherever the pointer points. */
    method SetTap(p: array<Record>, i: nat, tap: Tap)
      requires Valid() && Points(p, i)
      modifies p
      ensures Points(p, i) && p[i] == old(p[i]).(tap := tap)
      ensures p != waitingBuffer ==> Queue() == old(Queue())
      ensures p == waitingBuffer ==> old(Queue()) != [] && Queue() == old(Queue())[0 := p[i]]
    {
      hide Ring;
      if p == waitingBuffer {
        RingAt(waitingBuffer[..], tail, head, 0, i);
        RingUpdate(waitingBuffer[..], tail, head, 0, p[i].(tap := tap));
      }
      p[i] := p[i].(tap := tap);
      assert p == waitingBuffer ==> waitingBuffer[..] == old(waitingBuffer[..])[i := p[i]];
    }

    lemma PointsAtHead(p: array<Record>, i: nat)
      requires Valid() && Points(p, i)
      ensures p == waitingBuffer ==> Queue() != [] && Queue()[0] == p[i] && Queue()[0 := p[i]] == Queue()
    {
      if p == waitingBuffer {
        RingAt(waitingBuffer[..], tail, head, 0, i);
      }
    }

    /** The branch for an undecided tapping key inside its term. */
    method ProcessUnsettledKey(p: array<Record>, i: nat, env: Env) returns (done: bool)
      requires Valid() && Points(p, i)
      modifies this`tappingKey, this`out, p
      ensures Yields(ProcessUnsettled(old(Value()), old(p[i]), env), p, i, done)
    {
      hide Ring;
      PointsAtHead(p, i);
      var e := p[i].event;
      if tappingKey.event.key == e.key && !e.pressed {
        tappingKey := tappingKey.(tap := tappingKey.tap.(count := 1));
        ProcessRecord(tappingKey, FromSlot);
        SetTap(p, i, tappingKey.tap);
        return false;
      }
      var typed := WaitingBufferTyped(e);
      if !e.pressed && typed && env.permissiveHold(tappingKey, out) {
        ProcessRecord(tappingKey, FromSlot);
        tappingKey := NO_RECORD;
        return false;
      } else if !e.pressed && !typed {
        if env.retain(p[i], out) {
          return false;
        }
        ProcessRecord(p[i], FromEvent);
        return true;
      } else {
        if e.pressed {
          tappingKey := tappingKey.(tap := tappingKey.tap.(interrupted := true));
          if env.holdOnOtherKey(tappingKey, out) {
            ProcessRecord(tappingKey, FromSlot);
            tappingKey := NO_RECORD;
          }
        }
        return false;
      }
    }

    /** The branch for a tapping key that is down and settled as a tap. */
    method ProcessTappedKey(p: array<Record>, i: nat, within: bool, env: Env) returns (done: bool)
      requires Valid() && Points(p, i)
      modifies this`tappingKey, this`out, waitingBuffer, p
      ensures Yields(ProcessTapped(old(Value()), old(p[i]), within, env), p, i, done)
    {
      hide Ring;
      PointsAtHead(p, i);
      var e := p[i].event;
      if tappingKey.event.key == e.key && !e.pressed {
        SetTap(p, i, tappingKey.tap);
        ProcessRecord(p[i], FromEvent);
        tappingKey := if within then p[i] else NO_RECORD;
        return true;
      } else if env.isTap(p[i], out) && e.pressed {
        if tappingKey.tap.count > 1 {
          ProcessRecord(Record(Event(tappingKey.event.key, e.time, tappingKey.event.kind, false), tappingKey.tap),
            Synthetic);
        }
        done := StartTapping(p, i, env);
      } else {
        ProcessRecord(p[i], FromEvent);
        return true;
      }
    }

    /** The branch for a tapping key that is up again, inside its term. */
    method ProcessReleasedKey(p: array<Record>, i: nat, env: Env) returns (done: bool)
      requires Valid() && Points(p, i)
      modifies this`tappingKey, this`out, waitingBuffer, p
      ensures Yields(ProcessReleased(old(Value()), old(p[i]), env), p, i, done)
    {
      hide Ring;
      PointsAtHead(p, i);
      var e := p[i].event;
      if e.pressed {
        if tappingKey.event.key == e.key {
          if TimerDiff16(e.time, tappingKey.event.time) < env.quickTerm(tappingKey, out)
             && !tappingKey.tap.interrupted && tappingKey.tap.count > 0 {
            var tap := tappingKey.tap;
            if tap.count < 15 {
              tap := tap.(count := tap.count + 1);
            }
            SetTap(p, i, tap);
            ProcessRecord(p[i], FromEvent);
          }
          tappingKey := p[i];
          return true;
        } else if env.isTap(p[i], out) {
          done := StartTapping(p, i, env);
        } else {
          tappingKey := tappingKey.(tap := tappingKey.tap.(interrupted := true));
          ProcessRecord(p[i], FromEvent);
          return true;
        }
      } else {
        ProcessRecord(p[i], FromEvent);
        return true;
      }
    }

    method ProcessTapping(p: array<Record>, i: nat, env: Env) returns (done: bool)
      requires Valid() && Points(p, i)
      modifies this`tappingKey, this`out, waitingBuffer, p
      ensures Yields(Process(old(Value()), old(p[i]), env), p, i, done)
    {
      hide Ring, ScanTap, ProcessUnsettled, ProcessTapped, ProcessReleased;
      PointsAtHead(p, i);
      var e := p[i].event;
      if tappingKey.event.IsTick() {
        if e.IsTick() {
        } else if e.pressed && env.isTap(p[i], out) {
          done := StartTapping(p, i, env);
          return;
        } else {
          ProcessRecord(p[i], FromEvent);
        }
        return true;
      }
      var within := TimerDiff16(e.time, tappingKey.event.time) < env.term(tappingKey, out);
      if tappingKey.event.pressed {
        if within && e.IsTick() {
          return true;
        } else if within && tappingKey.tap.count == 0 {
          done := ProcessUnsettledKey(p, i, env);
        } else if within {
          done := ProcessTappedKey(p, i, true, env);
        } else if tappingKey.tap.count == 0 {
          ProcessRecord(tappingKey, FromSlot);
          tappingKey := NO_RECORD;
          return false;
        } else if e.IsTick() {
          return true;
        } else {
          done := ProcessTappedKey(p, i, false, env);
        }
      } else if within {
        if e.IsTick() {
          return true;
        }
        done := ProcessReleasedKey(p, i, env);
      } else {
        tappingKey := NO_RECORD;
        return false;
      }
    }

    method WaitingBufferEnq(r: Record) returns (ok: bool)
      requires Valid()
      modifies this`head, waitingBuffer
      ensures Valid()
      ensures ok <==> r.event.IsTick() || |old(Queue())| < WAITING_BUFFER_SIZE - 1
      ensures Queue() == if ok && !r.event.IsTick() then old(Queue()) + [r] else old(Queue())
    {
      hide Ring;
      if r.event.IsTick() {
        return true;
      }
      RingPush(waitingBuffer[..], tail, head, r);
      RingSize(waitingBuffer[..], tail, head);
      if (head + 1) % WAITING_BUFFER_SIZE == tail {
        return false;
      }
      waitingBuffer[head] := r;
      assert waitingBuffer[..] == old(waitingBuffer[..])[head := r];
      head := (head + 1) % WAITING_BUFFER_SIZE;
      return true;
    }

    method WaitingBufferClear()
      requires Valid()
      modifies this`head, this`tail
      ensures Valid() && Queue() == []
    {
      head, tail := 0, 0;
    }

    method ActionTappingProcess(e: Event, env: Env)
      requires Valid()
      modifies this, waitingBuffer
      ensures Valid() && Value() == Step(old(Value()), e, env)
    {
      hide Ring, Process, Drain;
      var record := new Record[1](_ => NewRecord(e));
      ghost var o := Process(Value(), record[0], env);
      ProcessKeepsQueueLength(Value(), record[0], env);
      ProcessKeepsEvent(Value(), record[0], env);
      RingSize(waitingBuffer[..], tail, head);
      var done := ProcessTapping(record, 0, env);
      if !done {
        var ok := WaitingBufferEnq(record[0]);
        if !ok {
          out := out + [Cleared];
          WaitingBufferClear();
          tappingKey := NO_RECORD;
        }
      }
      assert Value() == Admit(o);
      DrainBuffer(env);
    }

    /** The loop that works through the waiting records until one is retained. */
    method DrainBuffer(env: Env)
      requires Valid()
      modifies this, waitingBuffer
      ensures Valid() && Value() == Drain(old(Value()), env)
    {
      hide Ring, Process;
      while tail != head
        invariant Valid()
        invariant Drain(Value(), env) == Drain(old(Value()), env)
        decreases |Queue()|
      {
        ghost var s := Value();
        RingPop(waitingBuffer[..], tail, head);
        PointsAtHead(waitingBuffer, tail);
        ghost var o := Process(s, s.queue[0], env);
        var done := ProcessTapping(waitingBuffer, tail, env);
        ProcessKeepsQueueLength(s, s.queue[0], env);
        if !done {
          return;
        }
        RingPop(waitingBuffer[..], tail, head);
        tail := (tail + 1) % WAITING_BUFFER_SIZE;
      }
      RingAt(waitingBuffer[..], tail, head, 0, tail);
    }
  }
}
