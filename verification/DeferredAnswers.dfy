/** What the requests of the deferred executor answer, and what the answer means for the caller. */
module DeferredAnswers {
  import opened Keyboard
  import opened DeferredSpec
  import opened DeferredIdeal
  import opened DeferredRun

  predicate HasToken(entries: seq<Entry>, token: uint8)
  {
    exists i :: 0 <= i < |entries| && entries[i].token == token
  }

  /** Entries that are free are all zero. */
  predicate Clean(entries: seq<Entry>)
  {
    forall i :: 0 <= i < |entries| && entries[i].token == INVALID_TOKEN ==> entries[i] == FREE
  }

  lemma SlotOf(entries: seq<Entry>, token: uint8)
    ensures Slot(entries, token) < |entries| <==> HasToken(entries, token)
  {
  }

  /** A slot, free before, now holds the token's entry, and no other slot has the token. */
  predicate Registered(before: seq<Entry>, after: seq<Entry>, k: nat, entry: Entry)
  {
    && k < |before| && before[k].token == INVALID_TOKEN && after == before[k := entry]
    && Usable(before, entry.token)
    && forall m :: 0 <= m < |after| && after[m].token == entry.token ==> m == k
  }

  /** A defer is refused exactly if it asks for no delay or no callback, or there is no free slot or no
      token left; then nothing is registered, and only a search for a token that found none moves the
      counter, by one. Otherwise the answer is the token of the new entry, which
      no entry had before and one has now, and cancelling that token takes the entry out again. */
  lemma DeferAnswers(t: Table, delay: uint32, callback: nat, arg: nat)
    ensures var (u, token) := DeferExec(t, delay, callback, arg);
      && (token != INVALID_TOKEN <==>
            && delay != 0 && callback != 0
            && HasToken(t.entries, INVALID_TOKEN) && exists x :: Usable(t.entries, x))
      && (token == INVALID_TOKEN <==> u.entries == t.entries)
      && (token == INVALID_TOKEN ==>
            u == if delay != 0 && callback != 0 && HasToken(t.entries, INVALID_TOKEN)
                 then t.(current := (t.current + 1) % 0x100) else t)
      && (token != INVALID_TOKEN ==>
            && Registered(t.entries, u.entries, Slot(t.entries, INVALID_TOKEN),
                          Entry(token, (t.clock + delay) % WRAP, callback, arg))
            && u.current == token
            && CancelExec(u, token).1 && (Clean(t.entries) ==> CancelExec(u, token).0.entries == t.entries))
  {
    hide Search, Usable, Slot, Clean;
    SlotOf(t.entries, INVALID_TOKEN);
    AllocateSucceeds(t.entries, t.current);
    var (u, token) := DeferExec(t, delay, callback, arg);
    if token != INVALID_TOKEN {
      var k := Slot(t.entries, INVALID_TOKEN);
      var entry := Entry(token, (t.clock + delay) % WRAP, callback, arg);
      assert u.entries[k] == entry;
      OnlyNewEntry(t.entries, u.entries, k, entry);
    }
  }

  lemma OnlyNewEntry(before: seq<Entry>, after: seq<Entry>, k: nat, entry: Entry)
    requires k < |before| && before[k].token == INVALID_TOKEN && after == before[k := entry]
    requires Usable(before, entry.token)
    ensures Registered(before, after, k, entry) && Slot(after, entry.token) == k
    ensures Clean(before) ==> after[k := FREE] == before
  {
    var m := Slot(after, entry.token);
    assert after[k].token == entry.token;
  }

  /** Extending succeeds exactly if some entry has the token and the delay is not 0; then that entry is
      due the delay from now, and nothing else changes. */
  lemma ExtendAnswers(t: Table, token: uint8, delay: uint32)
    requires Distinct(t.entries)
    ensures var (u, ok) := ExtendExec(t, token, delay);
      && (ok <==> delay != 0 && token != INVALID_TOKEN && HasToken(t.entries, token))
      && |u.entries| == |t.entries| && u.current == t.current && (!ok ==> u == t)
      && forall m :: 0 <= m < |t.entries| ==>
           u.entries[m] == if ok && t.entries[m].token == token
                           then t.entries[m].(trigger := (t.clock + delay) % WRAP) else t.entries[m]
  {
    SlotOf(t.entries, token);
  }

  /** Cancelling succeeds exactly if some entry has the token; then it is free, and nothing else changes. */
  lemma CancelAnswers(t: Table, token: uint8)
    requires Distinct(t.entries)
    ensures var (u, ok) := CancelExec(t, token);
      && (ok <==> token != INVALID_TOKEN && HasToken(t.entries, token))
      && |u.entries| == |t.entries| && u.current == t.current && (!ok ==> u == t)
      && forall m :: 0 <= m < |t.entries| ==>
           u.entries[m] == if ok && t.entries[m].token == token then FREE else t.entries[m]
  {
    SlotOf(t.entries, token);
  }

  // ---------------------------------------------------------------- free entries stay clean

  lemma ApplyKeepsClean(t: Table, op: Op)
    requires Clean(t.entries)
    ensures Clean(ApplyStored(t, op).entries)
  {
    hide Search, Usable, Slot;
  }

  lemma {:induction false} ApplyAllKeepsClean(t: Table, calls: seq<Call>)
    requires Clean(t.entries)
    ensures Clean(ApplyAllStored(t, calls).entries)
    decreases |calls|
  {
    if calls != [] {
      hide ApplyStored, Clean;
      ApplyKeepsClean(t.(clock := t.clock + calls[0].wait), calls[0].op);
      ApplyAllKeepsClean(AfterStored(t, calls[0]), calls[1..]);
    }
  }

  lemma {:induction false} PassKeepsClean(t: Table, i: nat, now: uint32, behave: nat -> Script)
    requires i <= |t.entries| && Clean(t.entries)
    ensures Clean(VisitFromStored(t, i, now, behave).entries)
    decreases |t.entries| - i
  {
    if i < |t.entries| {
      hide ApplyAllStored, NotAfter;
      ApplyAllKeepsClean(Called(t, i), behave(t.invoked).calls);
      PassKeepsClean(VisitStored(t, i, now, behave), i + 1, now, behave);
    }
  }

  /** In every run, so that cancelling what was deferred always restores the table. */
  lemma {:induction false} FreeStaysClean(t: Table, inputs: seq<Input>)
    requires Clean(t.entries)
    ensures Clean(RunStored(t, inputs).entries)
  {
    hide Clean, VisitFromStored, ApplyStored, NotAfter;
    if inputs != [] {
      var init, last := inputs[..|inputs| - 1], inputs[|inputs| - 1];
      FreeStaysClean(t, init);
      var u := RunStored(t, init);
      match last {
        case Wait(_) =>
        case Request(op) => ApplyKeepsClean(u, op);
        case Pass(behave) => PassKeepsClean(u.(last := u.clock % WRAP), 0, u.clock % WRAP, behave);
      }
    }
  }
}
