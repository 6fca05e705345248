/** Sending one of the macros stored after the key maps (quantum/dynamic_keymap.c). */
module MacroSend {
  import opened Keyboard
  import opened Bytes

  const SS_QMK_PREFIX := 1
  const SS_TAP_CODE := 1
  const SS_DOWN_CODE := 2
  const SS_UP_CODE := 3
  const SS_DELAY_CODE := 4
  const BAR := 124

  // ---------------------------------------------------------------- macros in the region

  function Nuls(r: seq<byte>): nat
  {
    if r == [] then 0 else (if r[0] == 0 then 1 else 0) + Nuls(r[1..])
  }

  /** Where the scan for the `id`-th string from `p` on ends: after `id` NULs, or at the end. */
  function Skip(r: seq<byte>, p: nat, id: nat): (q: nat)
    requires p <= |r|
    ensures p <= q <= |r|
    decreases |r| - p
  {
    if id == 0 || p == |r| then p else Skip(r, p + 1, if r[p] == 0 then id - 1 else id)
  }

  /** The first NUL from `p` on, or the end of the region. */
  function Terminator(r: seq<byte>, p: nat): (t: nat)
    requires p <= |r|
    ensures p <= t <= |r| && (t < |r| ==> r[t] == 0)
    ensures forall i :: p <= i < t ==> r[i] != 0
    decreases |r| - p
  {
    if p == |r| || r[p] == 0 then p else Terminator(r, p + 1)
  }

  /** The bytes of the `id`-th string. */
  function MacroOf(r: seq<byte>, id: nat): seq<byte>
  {
    var p := Skip(r, 0, id);
    r[p..Terminator(r, p)]
  }

  lemma {:induction false} SkipCounts(r: seq<byte>, p: nat, id: nat)
    requires p <= |r|
    ensures Nuls(r[p..]) > id ==> Terminator(r, Skip(r, p, id)) < |r|
    ensures Nuls(r[p..]) <= id ==> Nuls(r[Skip(r, p, id)..]) == 0
    decreases |r| - p
  {
    if p < |r| {
      assert r[p..][1..] == r[p + 1..];
      if id == 0 {
        TerminatorExists(r, p);
      } else {
        SkipCounts(r, p + 1, if r[p] == 0 then id - 1 else id);
      }
    }
  }

  lemma {:induction false} TerminatorExists(r: seq<byte>, p: nat)
    requires p <= |r|
    ensures Nuls(r[p..]) > 0 <==> Terminator(r, p) < |r|
    decreases |r| - p
  {
    if p < |r| {
      assert r[p..][1..] == r[p + 1..];
      TerminatorExists(r, p + 1);
    }
  }

  // ---------------------------------------------------------------- what one macro sends

  /** One step of the parse: how many bytes it takes, the string sent, and what is left behind it
      in the temporary buffer from index 2 on; or a stop at malformed input. */
  datatype Piece = Piece(len: nat, sent: seq<byte>, tail: seq<byte>) | Malformed

  /** The index of the bar that ends a delay, looking no further than index 6; 0 if there is none. */
  function Bar(m: seq<byte>, i: nat): (k: nat)
    ensures k == 0 || (i <= k <= 6 && k < |m|)
    decreases 7 - i
  {
    if i > 6 || i >= |m| then 0 else if m[i] == BAR then i else Bar(m, i + 1)
  }

  /** A plain character, a tap/down/up code, a delay, or a code that send_string does not know; for
      the last the buffer is sent as it is, with whatever an earlier piece left in it. */
  function NextPiece(m: seq<byte>, tail: seq<byte>): (piece: Piece)
    requires m != []
    ensures piece.Piece? ==> 0 < piece.len <= |m|
  {
    if m[0] != SS_QMK_PREFIX then Piece(1, m[..1], tail)
    else if |m| < 2 then Malformed
    else if m[1] == SS_TAP_CODE || m[1] == SS_DOWN_CODE || m[1] == SS_UP_CODE then
      if |m| < 3 then Malformed else Piece(3, m[..3], m[2..3])
    else if m[1] == SS_DELAY_CODE then
      var k := Bar(m, 2);
      if k == 0 then Malformed else Piece(k + 1, m[..k + 1], m[2..k + 1])
    else Piece(2, m[..2] + tail, tail)
  }

  datatype Result = Result(sent: seq<seq<byte>>, finished: bool)

  function Parse(m: seq<byte>, tail: seq<byte>): Result
    decreases |m|
  {
    if m == [] then Result([], true)
    else match NextPiece(m, tail)
      case Malformed => Result([], false)
      case Piece(len, sent, tail') =>
        var rest := Parse(m[len..], tail');
        Result([sent] + rest.sent, rest.finished)
  }

  function Concat(ss: seq<seq<byte>>): seq<byte>
  {
    if ss == [] then [] else ss[0] + Concat(ss[1..])
  }

  /** No code that send_string does not know comes after a tap, down, up or delay code. `dirty` tells
      whether one of those four has gone before. */
  predicate KnownAfterKnown(m: seq<byte>, dirty: bool)
    decreases |m|
  {
    if m == [] then true
    else if m[0] != SS_QMK_PREFIX then KnownAfterKnown(m[1..], dirty)
    else if |m| < 2 then true
    else if SS_TAP_CODE <= m[1] <= SS_UP_CODE then |m| < 3 || KnownAfterKnown(m[3..], true)
    else if m[1] == SS_DELAY_CODE then Bar(m, 2) == 0 || KnownAfterKnown(m[Bar(m, 2) + 1..], true)
    else !dirty && KnownAfterKnown(m[2..], dirty)
  }

  lemma {:induction false} ParseGrows(m: seq<byte>, tail: seq<byte>)
    requires Parse(m, tail).finished
    ensures |Concat(Parse(m, tail).sent)| >= |m|
    decreases |m|
  {
    if m != [] {
      var piece := NextPiece(m, tail);
      var rest := Parse(m[piece.len..], piece.tail);
      assert ([piece.sent] + rest.sent)[1..] == rest.sent;
      ParseGrows(m[piece.len..], piece.tail);
    }
  }

  /** A macro that is sent to its end is sent byte for byte exactly when no unknown code in it comes
      after a known one. */
  lemma {:induction false} SentExactlyIff(m: seq<byte>, tail: seq<byte>)
    requires Parse(m, tail).finished
    ensures Concat(Parse(m, tail).sent) == m <==> KnownAfterKnown(m, tail != [])
    decreases |m|
  {
    if m != [] {
      var piece := NextPiece(m, tail);
      var rest := Parse(m[piece.len..], piece.tail);
      assert ([piece.sent] + rest.sent)[1..] == rest.sent;
      SentExactlyIff(m[piece.len..], piece.tail);
      ParseGrows(m[piece.len..], piece.tail);
      assert m == m[..piece.len] + m[piece.len..];
      PieceKnown(m, tail);
      if piece.sent != m[..piece.len] {
        assert |piece.sent| > piece.len;
      } else if Concat(rest.sent) != m[piece.len..] {
        assert (piece.sent + Concat(rest.sent))[piece.len..] == Concat(rest.sent);
      }
    }
  }

  /** One piece of the scan, beside one piece of the parse. */
  lemma PieceKnown(m: seq<byte>, tail: seq<byte>)
    requires m != [] && NextPiece(m, tail).Piece?
    ensures var piece := NextPiece(m, tail);
      KnownAfterKnown(m, tail != []) <==>
        piece.sent == m[..piece.len] && KnownAfterKnown(m[piece.len..], piece.tail != [])
  {
    if |m| >= 2 {
      assert tail != [] ==> |m[..2] + tail| > 2;
      assert tail == [] ==> m[..2] + tail == m[..2];
    }
  }

  /** An unknown code after a tap is sent with the tapped key still behind it. */
  lemma UnknownCodePicksUpLeftovers()
    ensures Parse([1, 1, 4, 1, 9], []) == Result([[1, 1, 4], [1, 9, 4]], true)
  {
    var m: seq<byte> := [1, 1, 4, 1, 9];
    assert m[..3] == [1, 1, 4] && m[2..3] == [4] && m[3..] == [1, 9];
    var rest: seq<byte> := [1, 9];
    assert NextPiece(rest, [4]) == Piece(2, [1, 9, 4], [4]) by { assert rest[..2] + [4] == [1, 9, 4]; }
    assert rest[2..] == [];
    assert Parse(rest, [4]) == Result([[1, 9, 4]], true);
  }

  // ---------------------------------------------------------------- the firmware's loop

  /** How a call ends: nothing to send, the macro's end, malformed input, or a read past the region. */
  datatype End = Refused | Finished | Aborted | Overrun

  /** The C string at the start of a buffer. */
  function CString(data: seq<byte>): seq<byte>
  {
    if data == [] || data[0] == 0 then [] else [data[0]] + CString(data[1..])
  }

  lemma {:induction false} CStringIs(data: seq<byte>, n: nat)
    requires n < |data| && data[n] == 0 && forall i :: 0 <= i < n ==> data[i] != 0
    ensures CString(data) == data[..n]
  {
    if n > 0 {
      CStringIs(data[1..], n - 1);
    }
  }

  /** The buffer holds this string from index 2 on. */
  predicate Holds(data: seq<byte>, tail: seq<byte>)
  {
    && |data| == 8 && |tail| <= 5
    && data[2..2 + |tail|] == tail && data[2 + |tail|] == 0
    && forall i :: 0 <= i < |tail| ==> tail[i] != 0
  }

  /** The delay loop: bytes up to and including the bar, at most at index 6. Returns the index of the
      bar, or 0 when the input is malformed. */
  method ReadDelay(r: seq<byte>, from: nat, data: array<byte>, ghost q: nat, ghost t: nat) returns (k: nat, p: nat)
    requires from == q + 2 && data.Length == 8 && q + 2 <= t < |r| && r[t] == 0 && forall i :: q <= i < t ==> r[i] != 0
    modifies data
    ensures k == Bar(r[q..t], 2) && p <= t + 1
    ensures k > 0 ==> p == q + k + 1 && Holds(data[..], r[q + 2..q + k + 1])
    ensures data[0] == old(data[0]) && data[1] == old(data[1])
  {
    var i := 2;
    p := from;
    while true
      invariant 2 <= i <= 6 && p == q + i && p <= t
      invariant Bar(r[q..t], 2) == Bar(r[q..t], i)
      invariant data[0] == old(data[0]) && data[1] == old(data[1])
      invariant forall j :: 2 <= j < i ==> data[j] == r[q + j]
      decreases 7 - i
    {
      data[i] := r[p];
      p := p + 1;
      if data[i] == 0 {
        return 0, p;
      }
      assert r[q..t][i] == data[i];
      if data[i] == BAR {
        data[i + 1] := 0;
        assert data[..][2..i + 1] == r[q + 2..q + i + 1];
        return i, p;
      }
      if i == 6 {
        assert Bar(r[q..t], 7) == 0;
        return 0, p;
      }
      i := i + 1;
    }
  }

  /** `dynamic_keymap_macro_send` over the macro region. */
  method Send(r: seq<byte>, id: uint8, count: uint8) returns (sent: seq<seq<byte>>, end: End)
    requires r != []
    ensures id >= count || r[|r| - 1] != 0 ==> end == Refused && sent == []
    ensures id < count && r[|r| - 1] == 0 ==>
      && (Nuls(r) < id ==> end == Refused && sent == [])
      && (Nuls(r) == id ==> end == Overrun && sent == [])
      && (Nuls(r) > id ==>
            Result(sent, end == Finished) == Parse(MacroOf(r, id), []) && (end == Finished || end == Aborted))
  {
    sent := [];
    if id >= count || r[|r| - 1] != 0 {
      return [], Refused;
    }
    assert r[0..] == r;
    SkipCounts(r, 0, id);
    var p, left := 0, id;
    while left > 0
      invariant 0 <= p <= |r| && left >= 0
      invariant Skip(r, 0, id) == Skip(r, p, left) && Nuls(r[p..]) - left == Nuls(r) - id
      decreases |r| - p
    {
      if p == |r| {
        return [], Refused;
      }
      assert r[p..][1..] == r[p + 1..];
      if r[p] == 0 {
        left := left - 1;
      }
      p := p + 1;
    }
    if p == |r| {
      return [], Overrun;
    }
    LastIsNul(r, p);
    sent, end := SendFrom(r, p);
  }

  /** A region with one macro, "A", asked for its second: the skip loop leaves by its count, with the
      pointer at the end, and the first read is past the region. */
  lemma SecondOfOneOverruns()
    ensures var r: seq<byte> := [65, 0]; r[|r| - 1] == 0 && Nuls(r) == 1 && Skip(r, 0, 1) == |r|
  {
    var r: seq<byte> := [65, 0];
    assert r[1..] == [0] && r[1..][1..] == [];
    assert Skip(r, 2, 0) == 2 && Skip(r, 1, 1) == 2;
  }

  /** The last byte of the region is a NUL, so any position before the end has one ahead. */
  lemma {:induction false} LastIsNul(r: seq<byte>, p: nat)
    requires p < |r| && r[|r| - 1] == 0
    ensures Nuls(r[p..]) > 0 && Terminator(r, p) < |r|
    decreases |r| - p
  {
    if p < |r| - 1 {
      LastIsNul(r, p + 1);
    }
    assert r[p..][1..] == r[p + 1..];
  }

  /** The rest of a piece after its first byte; `p` is left behind the piece if it is complete. */
  method ReadPiece(r: seq<byte>, from: nat, data: array<byte>, ghost q: nat, ghost t: nat, ghost tail: seq<byte>)
    returns (ok: bool, p: nat)
    requires from == q + 1 <= t < |r| && r[t] == 0 && forall i :: q <= i < t ==> r[i] != 0
    requires Holds(data[..], tail) && data[0] == r[q] && data[1] == 0
    modifies data
    ensures var piece := NextPiece(r[q..t], tail);
      && ok == piece.Piece?
      && (ok ==>
            && p == q + piece.len && data.Length == 8
            && CString(data[..]) == piece.sent && Holds(data[..], piece.tail))
  {
    ghost var m := r[q..t];
    ghost var piece := NextPiece(m, tail);
    p := from;
    if data[0] != SS_QMK_PREFIX {
      CStringOfPiece(data[..], m, tail, piece);
      return true, p;
    }
    data[1] := r[p];
    p := p + 1;
    assert Holds(data[..], tail) by { assert data[2..2 + |tail|] == old(data[2..2 + |tail|]); }
    if data[1] == 0 {
      return false, p;
    }
    assert m[1] == data[1];
    if data[1] == SS_TAP_CODE || data[1] == SS_DOWN_CODE || data[1] == SS_UP_CODE {
      data[2] := r[p];
      p := p + 1;
      if data[2] == 0 {
        return false, p;
      }
      data[3] := 0;
      assert data[2..3] == m[2..3];
    } else if data[1] == SS_DELAY_CODE {
      var k;
      k, p := ReadDelay(r, p, data, q, t);
      if k == 0 {
        return false, p;
      }
      assert r[q + 2..q + k + 1] == m[2..k + 1];
    }
    CStringOfPiece(data[..], m, tail, piece);
    return true, p;
  }

  /** The parse loop, from the first byte of a terminated string. It reads no further than the
      terminator: every index it uses is proved to be inside the region. */
  method SendFrom(r: seq<byte>, start: nat) returns (sent: seq<seq<byte>>, end: End)
    requires start < |r| && Terminator(r, start) < |r|
    ensures end == Finished || end == Aborted
    ensures Result(sent, end == Finished) == Parse(r[start..Terminator(r, start)], [])
  {
    hide CString, NextPiece;
    var data := new byte[8](_ => 0);
    ghost var t := Terminator(r, start);
    ghost var tail: seq<byte> := [];
    ghost var whole := Parse(r[start..t], []);
    sent := [];
    var p := start;
    while true
      invariant start <= p <= t && Holds(data[..], tail)
      invariant whole.sent == sent + Parse(r[p..t], tail).sent && whole.finished == Parse(r[p..t], tail).finished
      decreases t - p
    {
      ghost var q, m, before := p, r[p..t], data[..];
      data[0], data[1] := r[p], 0;
      assert Holds(data[..], tail) by {
        assert data[..][2..] == before[2..] && before[2..][..|tail|] == before[2..2 + |tail|];
      }
      p := p + 1;
      if data[0] == 0 {
        assert m == [];
        return sent, Finished;
      }
      var ok;
      ok, p := ReadPiece(r, p, data, q, t, tail);
      if !ok {
        return sent, Aborted;
      }
      sent := sent + [CString(data[..])];
      assert m[NextPiece(m, tail).len..] == r[p..t];
      tail := NextPiece(m, tail).tail;
    }
  }

  /** What the buffer holds as a C string is what the piece sends. */
  lemma CStringOfPiece(data: seq<byte>, m: seq<byte>, tail: seq<byte>, piece: Piece)
    requires m != [] && piece == NextPiece(m, tail) && piece.Piece? && Holds(data, piece.tail)
    requires data[0] == m[0] != 0
    requires if m[0] == SS_QMK_PREFIX then |m| > 1 && data[1] == m[1] != 0 else data[1] == 0
    ensures CString(data) == piece.sent
  {
    if m[0] != SS_QMK_PREFIX {
      CStringIs(data, 1);
    } else {
      var n := 2 + |piece.tail|;
      forall i | 0 <= i < n ensures data[i] != 0 {
        assert i >= 2 ==> data[i] == data[2..n][i - 2];
      }
      CStringIs(data, n);
      assert data[..n] == data[..2] + data[2..n];
    }
  }
}
