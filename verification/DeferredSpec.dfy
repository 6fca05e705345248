/** The deferred executor (quantum/deferred_exec.c) as functions on its table: 8-bit tokens,
    32-bit wrapping trigger times, callbacks that may call back into the table. */
module DeferredSpec {
  import opened Keyboard

  const INVALID_TOKEN: uint8 := 0
  const WRAP := 0x1_0000_0000
  const HALF := 0x8000_0000

  /** A callback is named by a number; 0 is NULL. */
  datatype Entry = Entry(token: uint8, trigger: uint32, callback: nat, arg: nat)

  const FREE := Entry(INVALID_TOKEN, 0, 0, 0)

  /** A call into the executor. `Elsewhere` is another table's allocation, which shares the
      token counter. */
  datatype Op =
    | Defer(delay: uint32, callback: nat, arg: nat)
    | Extend(token: uint8, delay: uint32)
    | Cancel(token: uint8)
    | Elsewhere(current: uint8)

  /** What one invocation of a callback does: calls, each some milliseconds after the previous
      one, and the delay it returns. */
  datatype Script = Script(calls: seq<Call>, delay: uint32)

  datatype Call = Call(wait: nat, op: Op)

  /** What happened to the registration with a token. Times are true ones: a deadline is the time of
      the request plus its delay, and a firing notes when the callback was called. */
  datatype Note =
    | Deferred(token: uint8, due: nat)
    | Extended(token: uint8, due: nat)
    | Cancelled(token: uint8)
    | Fired(token: uint8, slot: nat, callback: nat, arg: nat, clock: nat)
    | Repeated(token: uint8, delay: nat)
    | Finished(token: uint8)

  /** The table, the token counter and the time of the last pass, as stored; beside them the true time,
      the number of callbacks invoked, and a log. */
  datatype Table = Table(entries: seq<Entry>, current: uint8, last: uint32, clock: nat, invoked: nat, log: seq<Note>)

  lemma ModSum(a: nat, b: nat)
    ensures (a % WRAP + b) % WRAP == (a + b) % WRAP
  {
    assert a == WRAP * (a / WRAP) + a % WRAP;
  }

  // ---------------------------------------------------------------- tokens

  predicate Usable(entries: seq<Entry>, token: uint8)
  {
    token != INVALID_TOKEN && forall i :: 0 <= i < |entries| ==> entries[i].token != token
  }

  function Next(token: uint8): uint8 { (token + 1) % 0x100 }

  /** The first usable token at or after `token` within `left` further steps, else INVALID_TOKEN. */
  function Search(entries: seq<Entry>, token: uint8, left: nat): (r: uint8)
    ensures r == INVALID_TOKEN || Usable(entries, r)
    decreases left, entries
  {
    if Usable(entries, token) then token
    else if left == 0 then INVALID_TOKEN
    else Search(entries, Next(token), left - 1)
  }

  /** The token `n` steps on, around the end of the 8-bit range. */
  function Ahead(first: uint8, n: nat): uint8
    requires n <= 0xFF
  {
    if first + n < 0x100 then first + n else first + n - 0x100
  }

  /** How many steps it is from one token on to another. */
  function StepsTo(first: uint8, token: uint8): (n: nat)
    ensures n <= 0xFF && Ahead(first, n) == token
  {
    if first <= token then token - first else token + 0x100 - first
  }

  lemma AheadNext(first: uint8, n: nat)
    requires n <= 0xFF
    ensures Next(Ahead(first, n)) == first <==> n == 0xFF
    ensures n < 0xFF ==> Next(Ahead(first, n)) == Ahead(first, n + 1)
  {
  }

  lemma SearchNext(entries: seq<Entry>, token: uint8, left: nat)
    ensures Usable(entries, token) ==> Search(entries, token, left) == token
    ensures !Usable(entries, token) ==>
      Search(entries, token, left) == if left == 0 then INVALID_TOKEN else Search(entries, Next(token), left - 1)
  {
    hide Usable;
  }

  /** Every token passed on the way from one to another is in use (or invalid). */
  predicate AllTakenTo(entries: seq<Entry>, first: uint8, token: uint8)
  {
    forall n :: 0 <= n < StepsTo(first, token) ==> !Usable(entries, Ahead(first, n))
  }

  /** The search gives a usable token exactly when every token before it is taken. */
  lemma {:induction false} SearchGives(entries: seq<Entry>, first: uint8, n: nat, token: uint8)
    requires Usable(entries, token) && n <= StepsTo(first, token)
    requires forall k :: 0 <= k < n ==> !Usable(entries, Ahead(first, k))
    ensures Search(entries, Ahead(first, n), 0xFF - n) == token <==> AllTakenTo(entries, first, token)
    decreases 0xFF - n
  {
    hide Usable, Search;
    SearchNext(entries, Ahead(first, n), 0xFF - n);
    if Usable(entries, Ahead(first, n)) {
      if n < StepsTo(first, token) {
        AheadApart(first, n, StepsTo(first, token));
      }
    } else {
      AheadNext(first, n);
      SearchGives(entries, first, n + 1, token);
    }
  }

  lemma AheadApart(first: uint8, m: nat, n: nat)
    requires m < n <= 0xFF
    ensures Ahead(first, m) != Ahead(first, n)
  {
  }

  /** `allocate_token`: the token found, and the counter afterwards. */
  function Allocate(entries: seq<Entry>, current: uint8): (uint8, uint8)
  {
    var token := Search(entries, Next(current), 0xFF);
    (token, if token == INVALID_TOKEN then Next(current) else token)
  }

  // ---------------------------------------------------------------- operations

  /** The first slot holding `token`, or the table's size. */
  function Slot(entries: seq<Entry>, token: uint8): (i: nat)
    ensures i <= |entries|
    ensures i < |entries| ==> entries[i].token == token
    ensures forall j :: 0 <= j < i ==> entries[j].token != token
  {
    if entries == [] || entries[0].token == token then 0 else 1 + Slot(entries[1..], token)
  }

  /** Is the request worth looking at: a table, a delay, a callback? */
  predicate DeferAccepted(t: Table, delay: uint32, callback: nat)
  {
    t.entries != [] && delay != 0 && callback != 0
  }

  /** `defer_exec_advanced`. */
  function DeferExec(t: Table, delay: uint32, callback: nat, arg: nat): (Table, uint8)
  {
    var i := Slot(t.entries, INVALID_TOKEN);
    if !DeferAccepted(t, delay, callback) || i == |t.entries| then (t, INVALID_TOKEN)
    else
      var (token, current) := Allocate(t.entries, t.current);
      if token == INVALID_TOKEN then (t.(current := current), INVALID_TOKEN)
      else
        var entry := Entry(token, (t.clock + delay) % WRAP, callback, arg);
        var note := Deferred(token, t.clock + delay);
        (t.(entries := t.entries[i := entry], current := current, log := t.log + [note]), token)
  }

  /** `extend_deferred_exec_advanced`. */
  function ExtendExec(t: Table, token: uint8, delay: uint32): (Table, bool)
  {
    var i := Slot(t.entries, token);
    if delay == 0 || token == INVALID_TOKEN || i == |t.entries| then (t, false)
    else
      var entry := t.entries[i].(trigger := (t.clock + delay) % WRAP);
      (t.(entries := t.entries[i := entry], log := t.log + [Extended(token, t.clock + delay)]), true)
  }

  /** `cancel_deferred_exec_advanced`. */
  function CancelExec(t: Table, token: uint8): (Table, bool)
  {
    var i := Slot(t.entries, token);
    if token == INVALID_TOKEN || i == |t.entries| then (t, false)
    else (t.(entries := t.entries[i := FREE], log := t.log + [Cancelled(token)]), true)
  }

  function ApplyStored(t: Table, op: Op): (r: Table)
    ensures |r.entries| == |t.entries|
  {
    match op
    case Defer(delay, callback, arg) => DeferExec(t, delay, callback, arg).0
    case Extend(token, delay) => ExtendExec(t, token, delay).0
    case Cancel(token) => CancelExec(t, token).0
    case Elsewhere(current) => t.(current := current)
  }

  /** One call of a callback: some time passes, then the operation. */
  function AfterStored(t: Table, call: Call): (r: Table)
    ensures |r.entries| == |t.entries|
  {
    ApplyStored(t.(clock := t.clock + call.wait), call.op)
  }

  function ApplyAllStored(t: Table, calls: seq<Call>): (r: Table)
    ensures |r.entries| == |t.entries|
    decreases |calls|
  {
    if calls == [] then t
    else ApplyAllStored(AfterStored(t, calls[0]), calls[1..])
  }

  // ---------------------------------------------------------------- passes

  /** The C test `(int32_t)TIMER_DIFF_32(a, b) <= 0`. */
  predicate NotAfter(a: uint32, b: uint32)
  {
    var d := (a - b) % WRAP;
    d == 0 || d >= HALF
  }

  /** The table when a callback is called. */
  function Called(t: Table, i: nat): (r: Table)
    requires i < |t.entries|
  {
    var entry := t.entries[i];
    t.(invoked := t.invoked + 1, log := t.log + [Fired(entry.token, i, entry.callback, entry.arg, t.clock)])
  }

  /** One turn of the pass loop, with the pass's snapshot of the time. */
  function VisitStored(t: Table, i: nat, now: uint32, behave: nat -> Script): (r: Table)
    requires i < |t.entries|
    ensures |r.entries| == |t.entries|
  {
    var entry := t.entries[i];
    if entry.token == INVALID_TOKEN || !NotAfter(entry.trigger, now) then t
    else
      var script := behave(t.invoked);
      var u := ApplyAllStored(Called(t, i), script.calls);
      if u.entries[i].token != entry.token then u
      else if script.delay > 0 then
        var again := u.entries[i].(trigger := (u.entries[i].trigger + script.delay) % WRAP);
        u.(entries := u.entries[i := again], log := u.log + [Repeated(entry.token, script.delay)])
      else u.(entries := u.entries[i := FREE], log := u.log + [Finished(entry.token)])
  }

  function VisitFromStored(t: Table, i: nat, now: uint32, behave: nat -> Script): Table
    requires i <= |t.entries|
    decreases |t.entries| - i
  {
    if i == |t.entries| then t else VisitFromStored(VisitStored(t, i, now, behave), i + 1, now, behave)
  }

  /** `deferred_exec_advanced_task`. */
  function TaskStored(t: Table, behave: nat -> Script): Table
  {
    var now := t.clock % WRAP;
    if NotAfter(now, t.last) then t
    else VisitFromStored(t.(last := now), 0, now, behave)
  }

  // ---------------------------------------------------------------- tokens stay distinct

  predicate Distinct(entries: seq<Entry>)
  {
    forall i, j :: 0 <= i < j < |entries| && entries[i].token == entries[j].token ==> entries[i].token == INVALID_TOKEN
  }

  lemma UpdateKeepsDistinct(entries: seq<Entry>, i: nat, entry: Entry)
    requires i < |entries| && Distinct(entries)
    requires entry.token == entries[i].token || entry == FREE || Usable(entries, entry.token)
    ensures Distinct(entries[i := entry])
  {
  }

  lemma ApplyKeepsDistinct(t: Table, op: Op)
    requires Distinct(t.entries)
    ensures Distinct(ApplyStored(t, op).entries)
  {
    hide Distinct, Usable, Search;
    match op {
      case Defer(delay, callback, arg) =>
        var i := Slot(t.entries, INVALID_TOKEN);
        var token := Allocate(t.entries, t.current).0;
        if i < |t.entries| && token != INVALID_TOKEN {
          UpdateKeepsDistinct(t.entries, i, Entry(token, (t.clock + delay) % WRAP, callback, arg));
        }
      case Extend(token, delay) =>
        var i := Slot(t.entries, token);
        if i < |t.entries| {
          UpdateKeepsDistinct(t.entries, i, t.entries[i].(trigger := (t.clock + delay) % WRAP));
        }
      case Cancel(token) =>
        var i := Slot(t.entries, token);
        if i < |t.entries| {
          UpdateKeepsDistinct(t.entries, i, FREE);
        }
      case Elsewhere(_) =>
    }
  }

  lemma {:induction false} ApplyAllKeepsDistinct(t: Table, calls: seq<Call>)
    requires Distinct(t.entries)
    ensures Distinct(ApplyAllStored(t, calls).entries)
    decreases |calls|
  {
    if calls != [] {
      hide ApplyStored, Distinct;
      ApplyKeepsDistinct(t.(clock := t.clock + calls[0].wait), calls[0].op);
      ApplyAllKeepsDistinct(AfterStored(t, calls[0]), calls[1..]);
    }
  }

  lemma VisitKeepsDistinct(t: Table, i: nat, now: uint32, behave: nat -> Script)
    requires i < |t.entries| && Distinct(t.entries)
    ensures Distinct(VisitStored(t, i, now, behave).entries)
  {
    hide ApplyAllStored, Distinct;
    var script := behave(t.invoked);
    var u := ApplyAllStored(Called(t, i), script.calls);
    ApplyAllKeepsDistinct(Called(t, i), script.calls);
    UpdateKeepsDistinct(u.entries, i, u.entries[i].(trigger := (u.entries[i].trigger + script.delay) % WRAP));
    UpdateKeepsDistinct(u.entries, i, FREE);
  }

  /** Whatever the callbacks do, a pass leaves all live tokens pairwise distinct. */
  lemma {:induction false} VisitFromKeepsDistinct(t: Table, i: nat, now: uint32, behave: nat -> Script)
    requires i <= |t.entries| && Distinct(t.entries)
    ensures Distinct(VisitFromStored(t, i, now, behave).entries)
    decreases |t.entries| - i
  {
    if i < |t.entries| {
      hide VisitStored;
      VisitKeepsDistinct(t, i, now, behave);
      VisitFromKeepsDistinct(VisitStored(t, i, now, behave), i + 1, now, behave);
    }
  }

  lemma {:induction false} SearchFinds(entries: seq<Entry>, token: uint8, left: nat, usable: uint8)
    requires Usable(entries, usable) && (usable - token) % 0x100 <= left
    ensures Search(entries, token, left) != INVALID_TOKEN
    decreases left
  {
    if !Usable(entries, token) {
      assert usable != token;
      hide Usable;
      assert (usable - Next(token)) % 0x100 == (usable - token) % 0x100 - 1;
      SearchFinds(entries, Next(token), left - 1, usable);
    }
  }

  function Tokens(entries: seq<Entry>): set<int>
  {
    set i | 0 <= i < |entries| :: entries[i].token
  }

  lemma {:induction false} TokensBounded(entries: seq<Entry>)
    ensures |Tokens(entries)| <= |entries|
  {
    if entries != [] {
      var init, last := entries[..|entries| - 1], entries[|entries| - 1];
      TokensBounded(init);
      assert Tokens(entries) == Tokens(init) + {last.token} by {
        forall x | x in Tokens(entries) ensures x in Tokens(init) + {last.token} {
          var i :| 0 <= i < |entries| && entries[i].token == x;
          assert i < |init| ==> init[i].token == x;
        }
        forall x | x in Tokens(init) ensures x in Tokens(entries) {
          var i :| 0 <= i < |init| && init[i].token == x;
          assert entries[i].token == x;
        }
        assert entries[|entries| - 1].token in Tokens(entries);
      }
    }
  }

  function Below(n: nat): (s: set<int>)
    ensures forall x :: x in s <==> 0 <= x < n
    ensures |s| == n
  {
    if n == 0 then {} else Below(n - 1) + {n - 1}
  }

  /** `allocate_token` finds a token exactly when one is usable, and one is whenever a slot is
      free in a table of at most 255 entries. */
  lemma AllocateSucceeds(entries: seq<Entry>, current: uint8)
    ensures Allocate(entries, current).0 != INVALID_TOKEN <==> exists token :: Usable(entries, token)
    ensures |entries| <= 0xFF && Slot(entries, INVALID_TOKEN) < |entries| ==>
      Allocate(entries, current).0 != INVALID_TOKEN
  {
    if token :| Usable(entries, token) {
      SearchFinds(entries, Next(current), 0xFF, token);
    } else {
      if |entries| <= 0xFF && Slot(entries, INVALID_TOKEN) < |entries| {
        forall x | x in Below(0x100) ensures x in Tokens(entries) {
          assert !Usable(entries, x);
        }
        assert |Tokens(entries)| == |Below(0x100)| + |Tokens(entries) - Below(0x100)|;
        TokensBounded(entries);
        assert false;
      }
    }
  }
}
