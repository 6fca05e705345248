/** The deferred executor as the firmware runs it (quantum/deferred_exec.c): entries overwritten in
    place while callbacks call back into the same table. Every call does what DeferredSpec says. */
module DeferredExec {
  import opened Keyboard
  import opened DeferredSpec

  class Executor {
    const table: array<Entry>
    var currentToken: uint8
    var lastExecution: uint32
    var clock: nat
    var invoked: nat
    var log: seq<Note>

    ghost function Value(): Table
      reads this, table
    {
      Table(table[..], currentToken, lastExecution, clock, invoked, log)
    }

    constructor (size: nat)
      ensures Value() == Table(seq(size, _ => FREE), 0, 0, 0, 0, [])
    {
      table := new Entry[size](_ => FREE);
      currentToken, lastExecution, clock, invoked, log := 0, 0, 0, 0, [];
    }

    /** `timer_read32`. */
    function TimerRead(): uint32
      reads this
    {
      clock % WRAP
    }

    method TokenCanBeUsed(token: uint8) returns (ok: bool)
      ensures ok <==> Usable(table[..], token)
      ensures ok ==> token != INVALID_TOKEN
    {
      if token == INVALID_TOKEN {
        return false;
      }
      for i := 0 to table.Length
        invariant forall j :: 0 <= j < i ==> table[j].token != token
      {
        if table[i].token == token {
          return false;
        }
      }
      return true;
    }

    method AllocateToken() returns (token: uint8)
      modifies this`currentToken
      ensures (token, currentToken) == Allocate(table[..], old(currentToken))
    {
      hide Usable, Search;
      currentToken := Next(currentToken);
      var first: int := currentToken;
      ghost var left := 0xFF;
      var ok := TokenCanBeUsed(currentToken);
      while !ok
        invariant ok <==> Usable(table[..], currentToken)
        invariant ok ==> currentToken != INVALID_TOKEN
        invariant 0 <= left <= 0xFF && currentToken == Ahead(first, 0xFF - left)
        invariant Search(table[..], first, 0xFF) == Search(table[..], currentToken, left)
        decreases left
      {
        SearchNext(table[..], currentToken, left);
        AheadNext(first, 0xFF - left);
        currentToken := Next(currentToken);
        if currentToken == first {
          return INVALID_TOKEN;
        }
        left := left - 1;
        ok := TokenCanBeUsed(currentToken);
      }
      SearchNext(table[..], currentToken, left);
      return currentToken;
    }

    /** The slot searches of defer, extend and cancel: the first entry with this token. */
    method FindSlot(token: uint8) returns (i: nat)
      ensures i == Slot(table[..], token)
    {
      i := 0;
      while i < table.Length && table[i].token != token
        invariant i <= table.Length
        invariant forall j :: 0 <= j < i ==> table[j].token != token
      {
        i := i + 1;
      }
      SlotIsFirst(table[..], token, i);
    }

    method DeferExecAdvanced(delay: uint32, callback: nat, arg: nat) returns (token: uint8)
      modifies this`currentToken, this`log, table
      ensures (Value(), token) == DeferExec(old(Value()), delay, callback, arg)
    {
      hide Search, Usable;
      if table.Length == 0 || delay == 0 || callback == 0 {
        return INVALID_TOKEN;
      }
      var i := FindSlot(INVALID_TOKEN);
      if i == table.Length {
        return INVALID_TOKEN;
      }
      token := AllocateToken();
      if token == INVALID_TOKEN {
        return;
      }
      table[i] := Entry(currentToken, (TimerRead() + delay) % WRAP, callback, arg);
      log := log + [Deferred(currentToken, clock + delay)];
      ModSum(clock, delay);
      return currentToken;
    }

    method ExtendDeferredExecAdvanced(token: uint8, delay: uint32) returns (ok: bool)
      modifies this`log, table
      ensures (Value(), ok) == ExtendExec(old(Value()), token, delay)
    {
      if table.Length == 0 || delay == 0 || token == INVALID_TOKEN {
        return false;
      }
      var i := FindSlot(token);
      if i == table.Length {
        return false;
      }
      table[i] := table[i].(trigger := (TimerRead() + delay) % WRAP);
      log := log + [Extended(token, clock + delay)];
      ModSum(clock, delay);
      return true;
    }

    method CancelDeferredExecAdvanced(token: uint8) returns (ok: bool)
      modifies this`log, table
      ensures (Value(), ok) == CancelExec(old(Value()), token)
    {
      if table.Length == 0 || token == INVALID_TOKEN {
        return false;
      }
      var i := FindSlot(token);
      if i == table.Length {
        return false;
      }
      table[i] := FREE;
      log := log + [Cancelled(token)];
      return true;
    }

    /** A callback: calls into this very table, then a return value. */
    method RunCallback(i: nat, script: Script) returns (delay: uint32)
      requires i < table.Length
      modifies this`currentToken, this`clock, this`invoked, this`log, table
      ensures delay == script.delay
      ensures Value() == ApplyAllStored(Called(old(Value()), i), script.calls)
    {
      hide ApplyStored;
      invoked, log := invoked + 1, log + [Fired(table[i].token, i, table[i].callback, table[i].arg, clock)];
      ghost var start := Value();
      var k := 0;
      while k < |script.calls|
        invariant 0 <= k <= |script.calls| && lastExecution == old(lastExecution)
        invariant ApplyAllStored(start, script.calls) == ApplyAllStored(Value(), script.calls[k..])
      {
        assert script.calls[k..][1..] == script.calls[k + 1..];
        CallBack(script.calls[k]);
        k := k + 1;
      }
      return script.delay;
    }

    method CallBack(call: Call)
      modifies this`currentToken, this`clock, this`log, table
      ensures Value() == AfterStored(old(Value()), call)
    {
      clock := clock + call.wait;
      match call.op {
        case Defer(delay, callback, arg) => var _ := DeferExecAdvanced(delay, callback, arg);
        case Extend(token, delay) => var _ := ExtendDeferredExecAdvanced(token, delay);
        case Cancel(token) => var _ := CancelDeferredExecAdvanced(token);
        case Elsewhere(current) => currentToken := current;
      }
    }

    method DeferredExecAdvancedTask(behave: nat -> Script)
      modifies this, table
      ensures Value() == TaskStored(old(Value()), behave)
    {
      hide VisitStored;
      var now := TimerRead();
      if !NotAfter(now, lastExecution) {
        lastExecution := now;
        ghost var start := Value();
        for i := 0 to table.Length
          invariant VisitFromStored(start, 0, now, behave) == VisitFromStored(Value(), i, now, behave)
        {
          TaskTurn(i, now, behave);
        }
      }
    }

    /** One turn of the pass loop. */
    method TaskTurn(i: nat, now: uint32, behave: nat -> Script)
      requires i < table.Length
      modifies this`currentToken, this`clock, this`invoked, this`log, table
      ensures Value() == VisitStored(old(Value()), i, now, behave)
    {
      hide ApplyAllStored;
      var token := table[i].token;
      if token != INVALID_TOKEN && NotAfter(table[i].trigger, now) {
        var delay := RunCallback(i, behave(invoked));
        if table[i].token == token {
          if delay > 0 {
            table[i] := table[i].(trigger := (table[i].trigger + delay) % WRAP);
            log := log + [Repeated(token, delay)];
          } else {
            table[i] := FREE;
            log := log + [Finished(token)];
          }
        }
      }
    }
  }

  lemma {:induction false} SlotIsFirst(entries: seq<Entry>, token: uint8, i: nat)
    requires i <= |entries| && forall j :: 0 <= j < i ==> entries[j].token != token
    requires i < |entries| ==> entries[i].token == token
    ensures Slot(entries, token) == i
  {
  }
}
