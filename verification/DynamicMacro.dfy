/** The dynamic macro recorder (quantum/dynamic_macro.h): two macros that grow towards each other in
    one buffer. */
module DynamicMacro {
  import opened Keyboard

  // ---------------------------------------------------------------- what recording should do

  /** The keycodes the recorder looks at. */
  datatype Code = Start1 | Start2 | Play1 | Play2 | Stop | Other

  datatype Which = First | Second

  datatype Session = Idle | Recording(which: Which, heard: seq<Record>)

  /** What the recorder amounts to: two macros, and the events heard since recording started. The
      macro being recorded anew is gone until recording stops. */
  datatype Recorder = Recorder(first: seq<Record>, second: seq<Record>, session: Session)

  const EMPTY := Recorder([], [], Idle)

  function DropReleases(es: seq<Record>): seq<Record>
  {
    if es == [] || es[0].event.pressed then es else DropReleases(es[1..])
  }

  function Take(es: seq<Record>, n: nat): seq<Record> { if n <= |es| then es[..n] else es }

  function TrimPresses(es: seq<Record>): (r: seq<Record>)
    ensures |r| <= |es|
  {
    if es == [] || !es[|es| - 1].event.pressed then es else TrimPresses(es[..|es| - 1])
  }

  /** What is stored of the events heard, given the room the other macro leaves. */
  function Kept(heard: seq<Record>, room: nat): (r: seq<Record>)
    ensures |r| <= room
  {
    Take(DropReleases(heard), room)
  }

  /** What a finished recording plays. */
  function Playable(heard: seq<Record>, room: nat): (r: seq<Record>)
    ensures |r| <= room
  {
    TrimPresses(Kept(heard, room))
  }

  /** A step: the new recorder, what it plays, and whether the event is processed further. */
  datatype Effect = Effect(after: Recorder, played: seq<Record>, passOn: bool)

  function Step(m: Recorder, code: Code, r: Record, size: nat): Effect
    requires |m.first| + |m.second| <= size
    ensures |Step(m, code, r, size).after.first| + |Step(m, code, r, size).after.second| <= size
  {
    match m.session
    case Idle =>
      if r.event.pressed then Effect(m, [], true)
      else (match code
            case Start1 => Effect(m.(first := [], session := Recording(First, [])), [], false)
            case Start2 => Effect(m.(second := [], session := Recording(Second, [])), [], false)
            case Play1 => Effect(m, m.first, false)
            case Play2 => Effect(m, m.second, false)
            case _ => Effect(m, [], true))
    case Recording(which, heard) =>
      match code
      case Stop =>
        if !r.event.pressed then Effect(m, [], false)
        else if which == First then Effect(m.(first := Playable(heard, size - |m.second|), session := Idle), [], false)
        else Effect(m.(second := Playable(heard, size - |m.first|), session := Idle), [], false)
      case Play1 => Effect(m, [], false)
      case Play2 => Effect(m, [], false)
      case _ => Effect(m.(session := Recording(which, heard + [r])), [], true)
  }

  lemma {:induction false} DropReleasesAppend(heard: seq<Record>, r: Record)
    ensures DropReleases(heard + [r]) ==
      if DropReleases(heard) == [] && !r.event.pressed then [] else DropReleases(heard) + [r]
  {
    if heard == [] {
      assert heard + [r] == [r];
    } else if !heard[0].event.pressed {
      assert (heard + [r])[1..] == heard[1..] + [r];
      DropReleasesAppend(heard[1..], r);
    }
  }

  /** One more event: ignored if it would be a leading release, dropped if there is no room. */
  lemma KeptAppend(heard: seq<Record>, r: Record, room: nat)
    ensures Kept(heard + [r], room) ==
      if (Kept(heard, room) == [] && !r.event.pressed) || |Kept(heard, room)| == room then Kept(heard, room)
      else Kept(heard, room) + [r]
  {
    DropReleasesAppend(heard, r);
  }

  // ---------------------------------------------------------------- whole runs

  datatype Input = Input(code: Code, rec: Record)

  function Run(m: Recorder, inputs: seq<Input>, size: nat): (r: Recorder)
    requires |m.first| + |m.second| <= size
    ensures |r.first| + |r.second| <= size
    decreases |inputs|
  {
    if inputs == [] then m else Run(Step(m, inputs[0].code, inputs[0].rec, size).after, inputs[1..], size)
  }

  /** Nothing here stops a recording: the Stop key is not pressed. */
  predicate KeepsRecording(inputs: seq<Input>)
  {
    forall i :: 0 <= i < |inputs| ==> !(inputs[i].code.Stop? && inputs[i].rec.event.pressed)
  }

  /** Play keys, and the release of the Stop key, are ignored while recording. */
  predicate Ignored(code: Code) { code.Stop? || code.Play1? || code.Play2? }

  /** What a recording hears of its inputs. */
  function Records(inputs: seq<Input>): seq<Record>
  {
    if inputs == [] then []
    else (if Ignored(inputs[0].code) then [] else [inputs[0].rec]) + Records(inputs[1..])
  }

  lemma {:induction false} RunHears(m: Recorder, inputs: seq<Input>, size: nat)
    requires |m.first| + |m.second| <= size && m.session.Recording? && KeepsRecording(inputs)
    ensures Run(m, inputs, size) == m.(session := Recording(m.session.which, m.session.heard + Records(inputs)))
    decreases |inputs|
  {
    hide Playable;
    if inputs == [] {
      assert m.session.heard + Records(inputs) == m.session.heard;
    } else {
      var n := Step(m, inputs[0].code, inputs[0].rec, size).after;
      var now := if Ignored(inputs[0].code) then [] else [inputs[0].rec];
      assert n == m.(session := Recording(m.session.which, m.session.heard + now)) by {
        assert m.session.heard + [] == m.session.heard;
      }
      RunHears(n, inputs[1..], size);
      assert m.session.heard + now + Records(inputs[1..]) == m.session.heard + (now + Records(inputs[1..]));
    }
  }

  function MacroOf(m: Recorder, which: Which): seq<Record> { if which == First then m.first else m.second }

  function StartOf(which: Which): Code { if which == First then Start1 else Start2 }

  function PlayOf(which: Which): Code { if which == First then Play1 else Play2 }

  function Opposite(which: Which): Which { if which == First then Second else First }

  /** No input starts recording the macro anew; only a release of its start key does, and only while
      nothing is being recorded. */
  predicate NeverRestarts(m: Recorder, inputs: seq<Input>, size: nat, which: Which)
    requires |m.first| + |m.second| <= size
    decreases |inputs|
  {
    inputs != [] ==>
      && !(m.session.Idle? && inputs[0].code == StartOf(which) && !inputs[0].rec.event.pressed)
      && NeverRestarts(Step(m, inputs[0].code, inputs[0].rec, size).after, inputs[1..], size, which)
  }

  /** Traffic that never starts recording a macro anew does not change it. */
  lemma {:induction false} RunKeeps(m: Recorder, inputs: seq<Input>, size: nat, which: Which)
    requires |m.first| + |m.second| <= size && (m.session.Recording? ==> m.session.which != which)
    requires NeverRestarts(m, inputs, size, which)
    ensures MacroOf(Run(m, inputs, size), which) == MacroOf(m, which)
    decreases |inputs|
  {
    if inputs != [] {
      RunKeeps(Step(m, inputs[0].code, inputs[0].rec, size).after, inputs[1..], size, which);
    }
  }

  /** The recorder after a start, some events, and a stop. */
  function Recorded(m: Recorder, which: Which, start: Record, body: seq<Input>, stop: Record, size: nat): (r: Recorder)
    requires |m.first| + |m.second| <= size
    ensures |r.first| + |r.second| <= size
  {
    Step(Run(Step(m, StartOf(which), start, size).after, body, size), Stop, stop, size).after
  }

  lemma RecordedIs(m: Recorder, which: Which, start: Record, body: seq<Input>, stop: Record, size: nat)
    requires |m.first| + |m.second| <= size && m.session.Idle?
    requires !start.event.pressed && stop.event.pressed && KeepsRecording(body)
    ensures Recorded(m, which, start, body, stop, size) ==
      if which == First then Recorder(Playable(Records(body), size - |m.second|), m.second, Idle)
      else Recorder(m.first, Playable(Records(body), size - |m.first|), Idle)
  {
    hide Playable, Kept;
    var empty: seq<Record> := [];
    assert empty + Records(body) == Records(body);
    if which == First {
      var m1 := Recorder([], m.second, Recording(First, []));
      assert Step(m, Start1, start, size).after == m1;
      RunHears(m1, body, size);
      assert Run(m1, body, size) == Recorder([], m.second, Recording(First, Records(body)));
    } else {
      var m1 := Recorder(m.first, [], Recording(Second, []));
      assert Step(m, Start2, start, size).after == m1;
      RunHears(m1, body, size);
      assert Run(m1, body, size) == Recorder(m.first, [], Recording(Second, Records(body)));
    }
  }

  /** Start, record, stop: whenever its play key is released from then on, the macro plays its events
      without leading releases, as many as the other macro left room for, without trailing presses,
      whatever is recorded into or played from the other one. */
  lemma RecordThenPlay(m: Recorder, which: Which, start: Record, body: seq<Input>, stop: Record,
                       later: seq<Input>, size: nat)
    requires |m.first| + |m.second| <= size && m.session.Idle?
    requires !start.event.pressed && stop.event.pressed && KeepsRecording(body)
    requires NeverRestarts(Recorded(m, which, start, body, stop, size), later, size, which)
    ensures MacroOf(Run(Recorded(m, which, start, body, stop, size), later, size), which)
         == Playable(Records(body), size - |MacroOf(m, Opposite(which))|)
    ensures var after := Run(Recorded(m, which, start, body, stop, size), later, size);
      after.session.Idle? ==> forall r: Record :: !r.event.pressed ==>
        Step(after, PlayOf(which), r, size).played == Playable(Records(body), size - |MacroOf(m, Opposite(which))|)
    ensures MacroOf(Recorded(m, which, start, body, stop, size), Opposite(which)) == MacroOf(m, Opposite(which))
  {
    hide Run, Playable, Recorded, NeverRestarts;
    RecordedIs(m, which, start, body, stop, size);
    RunKeeps(Recorded(m, which, start, body, stop, size), later, size, which);
  }

  // ---------------------------------------------------------------- what goes through

  predicate IsStart(code: Code) { code.Start1? || code.Start2? }

  predicate IsPlay(code: Code) { code.Play1? || code.Play2? }

  /** Whether something is being recorded after an input: a start key's release begins it, a stop key's
      press ends it. */
  predicate RecordingAfter(recording: bool, input: Input)
  {
    if recording then !(input.code.Stop? && input.rec.event.pressed)
    else IsStart(input.code) && !input.rec.event.pressed
  }

  /** Kept from the rest of the firmware: stop and play keys while recording, and releases of start and
      play keys otherwise. */
  predicate Swallowed(recording: bool, input: Input)
  {
    if recording then input.code.Stop? || IsPlay(input.code)
    else (IsStart(input.code) || IsPlay(input.code)) && !input.rec.event.pressed
  }

  /** The inputs that are not swallowed, in order. */
  function Through(recording: bool, inputs: seq<Input>): seq<Record>
    decreases |inputs|
  {
    if inputs == [] then []
    else
      (if Swallowed(recording, inputs[0]) then [] else [inputs[0].rec])
        + Through(RecordingAfter(recording, inputs[0]), inputs[1..])
  }

  /** What the recorder passes on over a run. */
  function Passed(m: Recorder, inputs: seq<Input>, size: nat): seq<Record>
    requires |m.first| + |m.second| <= size
    decreases |inputs|
  {
    if inputs == [] then []
    else
      var effect := Step(m, inputs[0].code, inputs[0].rec, size);
      (if effect.passOn then [inputs[0].rec] else []) + Passed(effect.after, inputs[1..], size)
  }

  /** Over every run the recorder passes on exactly what is not meant for it; a key that is none of its
      own is always passed on. */
  lemma {:induction false} PassesOnExactly(m: Recorder, inputs: seq<Input>, size: nat)
    requires |m.first| + |m.second| <= size
    ensures Passed(m, inputs, size) == Through(m.session.Recording?, inputs)
    decreases |inputs|
  {
    if inputs != [] {
      hide Playable;
      PassesOnExactly(Step(m, inputs[0].code, inputs[0].rec, size).after, inputs[1..], size);
    }
  }

  lemma OrdinaryKeysPass(recording: bool, input: Input)
    requires input.code.Other?
    ensures !Swallowed(recording, input) && RecordingAfter(recording, input) == recording
  {
  }

  /** Something is played exactly when a play key is released while nothing is being recorded, and then
      it is that macro; and a step changes no macro but the one it stops recording or starts anew. */
  lemma PlaysExactly(m: Recorder, input: Input, size: nat)
    requires |m.first| + |m.second| <= size
    ensures var effect := Step(m, input.code, input.rec, size);
      && effect.played == (if m.session.Idle? && IsPlay(input.code) && !input.rec.event.pressed
                           then MacroOf(m, if input.code.Play1? then First else Second) else [])
      && (effect.after.session.Recording? <==> RecordingAfter(m.session.Recording?, input))
      && (effect.after.session.Recording? == m.session.Recording? ==>
            effect.after.first == m.first && effect.after.second == m.second)
  {
    hide Playable;
  }

  // ---------------------------------------------------------------- the buffer

  /** The buffer position `i` steps along a macro: macro 1 from the left, macro 2 from the right. */
  function Cell(which: Which, size: nat, i: nat): int
  {
    if which == First then i else size - 1 - i
  }

  function Direction(which: Which): int { if which == First then 1 else -1 }

  /** The first `n` records of a macro. */
  function Content(cells: seq<Record>, which: Which, n: nat): seq<Record>
    requires n <= |cells|
  {
    seq(n, i requires 0 <= i < n => cells[Cell(which, |cells|, i)])
  }

  class MacroBuffer {
    const buffer: array<Record>
    var macroEnd: int
    var rMacroEnd: int
    var macroPointer: int
    var macroId: int
    ghost var heard: seq<Record>

    ghost function Which(): Which
      reads this
    {
      if macroId == 1 then First else Second
    }

    /** The room for the macro being recorded: up to the end of the other one. */
    ghost function Room(): int
      reads this
    {
      if macroId == 1 then rMacroEnd + 1 else buffer.Length - macroEnd
    }

    /** The two macros do not overlap; a recording stays clear of the other macro and holds what is
        kept of the events heard. */
    ghost predicate Valid()
      reads this, buffer
    {
      && 0 < buffer.Length && 0 <= macroEnd <= rMacroEnd + 1 <= buffer.Length && 0 <= macroId <= 2
      && (macroId != 0 ==>
            && macroPointer == Cell(Which(), buffer.Length, |Kept(heard, Room())|)
            && Content(buffer[..], Which(), |Kept(heard, Room())|) == Kept(heard, Room()))
    }

    ghost function Value(): Recorder
      requires Valid()
      reads this, buffer
    {
      Recorder(if macroId == 1 then [] else Content(buffer[..], First, macroEnd),
               if macroId == 2 then [] else Content(buffer[..], Second, buffer.Length - 1 - rMacroEnd),
               if macroId == 0 then Idle else Recording(Which(), heard))
    }

    constructor (size: nat)
      requires size > 0
      ensures Valid() && buffer.Length == size && Value() == EMPTY
    {
      buffer := new Record[size](_ => NO_RECORD);
      macroEnd, rMacroEnd, macroPointer, macroId, heard := 0, size - 1, 0, 0, [];
    }

    /** `dynamic_macro_play`, into a list. */
    method Play(start: int, end: int, direction: int, ghost which: Which, ghost n: nat) returns (played: seq<Record>)
      requires direction == Direction(which) && n <= buffer.Length
      requires start == Cell(which, buffer.Length, 0) && end == Cell(which, buffer.Length, n)
      ensures played == Content(buffer[..], which, n)
    {
      played := [];
      var p := start;
      while p != end
        invariant |played| <= n && p == Cell(which, buffer.Length, |played|)
        invariant played == Content(buffer[..], which, |played|)
        decreases n - |played|
      {
        played := played + [buffer[p]];
        p := p + direction;
      }
    }

    /** `dynamic_macro_record_key`. */
    method RecordKey(start: int, macro2End: int, direction: int, r: Record)
      requires Valid() && macroId != 0
      requires start == Cell(Which(), buffer.Length, 0) && direction == Direction(Which())
      requires macro2End == if macroId == 1 then rMacroEnd else macroEnd
      modifies this`macroPointer, this`heard, buffer
      ensures Valid() && Value() == old(Value()).(session := Recording(Which(), old(heard) + [r]))
    {
      hide Kept, Content;
      ghost var n, room, which := |Kept(heard, Room())|, Room(), Which();
      KeptAppend(heard, r, Room());
      heard := heard + [r];
      if !r.event.pressed && macroPointer == start {
        return;
      }
      if macroPointer - direction != macro2End {
        assert n < room;
        buffer[macroPointer] := r;
        macroPointer := macroPointer + direction;
        ContentGrows(old(buffer[..]), buffer[..], which, n, r);
        ContentApart(old(buffer[..]), buffer[..], which, n, room, r);
      }
    }

    /** `dynamic_macro_record_end`: step back over trailing presses. */
    method RecordEnd(start: int, direction: int) returns (end: int)
      requires Valid() && macroId != 0
      requires start == Cell(Which(), buffer.Length, 0) && direction == Direction(Which())
      ensures end == Cell(Which(), buffer.Length, |Playable(heard, Room())|)
      ensures Content(buffer[..], Which(), |Playable(heard, Room())|) == Playable(heard, Room())
    {
      ghost var kept := Kept(heard, Room());
      ghost var n := |kept|;
      end := macroPointer;
      while end != start && buffer[end - direction].event.pressed
        invariant 0 <= n <= |kept| && end == Cell(Which(), buffer.Length, n)
        invariant Content(buffer[..], Which(), n) == kept[..n]
        invariant TrimPresses(kept) == TrimPresses(kept[..n])
        decreases n
      {
        assert buffer[end - direction] == Content(buffer[..], Which(), n)[n - 1];
        assert kept[..n][..n - 1] == kept[..n - 1];
        ContentShrinks(buffer[..], Which(), n);
        end, n := end - direction, n - 1;
      }
      assert n > 0 ==> buffer[end - direction] == Content(buffer[..], Which(), n)[n - 1];
    }

    method StartRecording(id: int, start: int)
      requires Valid() && macroId == 0 && (id == 1 || id == 2)
      requires start == if id == 1 then 0 else buffer.Length - 1
      modifies this`macroPointer, this`macroId, this`heard
      ensures Valid() && |old(Value()).first| + |old(Value()).second| <= buffer.Length
      ensures Value() == if id == 1 then old(Value()).(first := [], session := Recording(First, []))
                         else old(Value()).(second := [], session := Recording(Second, []))
    {
      macroPointer, macroId, heard := start, id, [];
    }

    method StopRecording()
      requires Valid() && macroId != 0
      modifies this`macroEnd, this`rMacroEnd, this`macroId
      ensures Valid() && |old(Value()).first| + |old(Value()).second| <= buffer.Length
      ensures Value() == if old(macroId) == 1
        then old(Value()).(first := Playable(heard, buffer.Length - |old(Value()).second|), session := Idle)
        else old(Value()).(second := Playable(heard, buffer.Length - |old(Value()).first|), session := Idle)
    {
      hide Playable, Kept;
      var end := RecordEnd(if macroId == 1 then 0 else buffer.Length - 1, if macroId == 1 then 1 else -1);
      if macroId == 1 {
        macroEnd := end;
      } else {
        rMacroEnd := end;
      }
      macroId := 0;
    }

    /** `process_record_dynamic_macro`. */
    method ProcessRecord(code: Code, r: Record) returns (passOn: bool, played: seq<Record>)
      requires Valid()
      modifies this, buffer
      ensures Valid() && |old(Value()).first| + |old(Value()).second| <= buffer.Length
      ensures Effect(Value(), played, passOn) == Step(old(Value()), code, r, buffer.Length)
    {
      hide Playable, Kept, Content;
      assert |Value().first| + |Value().second| <= buffer.Length by { MacrosFit(); }
      if macroId == 0 {
        if !r.event.pressed {
          match code {
            case Start1 =>
              StartRecording(1, 0);
              return false, [];
            case Start2 =>
              StartRecording(2, buffer.Length - 1);
              return false, [];
            case Play1 =>
              played := Play(0, macroEnd, 1, First, macroEnd);
              return false, played;
            case Play2 =>
              played := Play(buffer.Length - 1, rMacroEnd, -1, Second, buffer.Length - 1 - rMacroEnd);
              return false, played;
            case _ =>
          }
        }
        return true, [];
      }
      match code {
        case Stop =>
          if r.event.pressed {
            StopRecording();
          }
          return false, [];
        case Play1 => return false, [];
        case Play2 => return false, [];
        case _ =>
          if macroId == 1 {
            RecordKey(0, rMacroEnd, 1, r);
          } else {
            RecordKey(buffer.Length - 1, macroEnd, -1, r);
          }
          return true, [];
      }
    }

    lemma MacrosFit()
      requires Valid()
      ensures |Value().first| + |Value().second| <= buffer.Length
    {
    }
  }

  lemma ContentGrows(cells: seq<Record>, cells': seq<Record>, which: Which, n: nat, r: Record)
    requires n < |cells| == |cells'| && cells' == cells[Cell(which, |cells|, n) := r]
    ensures Content(cells', which, n + 1) == Content(cells, which, n) + [r]
  {
  }

  /** A record stored in the room of one macro leaves the other macro alone. */
  lemma ContentApart(cells: seq<Record>, cells': seq<Record>, which: Which, n: nat, room: nat, r: Record)
    requires n < room <= |cells| == |cells'| && cells' == cells[Cell(which, |cells|, n) := r]
    ensures Content(cells', Opposite(which), |cells| - room) == Content(cells, Opposite(which), |cells| - room)
  {
  }

  lemma ContentShrinks(cells: seq<Record>, which: Which, n: nat)
    requires 0 < n <= |cells|
    ensures Content(cells, which, n - 1) == Content(cells, which, n)[..n - 1]
  {
  }
}
