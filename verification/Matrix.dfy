/** The matrix pass of quantum/keyboard.c as it runs: bit tricks, ghost search and the pass loop. */
module Matrix {
  import opened Arithmetic
  import opened MatrixSpec

  // ---------------------------------------------------------------- bits

  /** The number a row of bits stands for. */
  function Value(bits: Row): nat
  {
    if bits == [] then 0 else (if bits[0] then 1 else 0) + 2 * Value(bits[1..])
  }

  /** One less, on bits: borrows pass through zeros. */
  function Decrement(bits: Row): (r: Row)
    ensures |r| == |bits|
  {
    if bits == [] then [] else if bits[0] then [false] + bits[1..] else [true] + Decrement(bits[1..])
  }

  /** Subtraction of one wraps at zero. */
  lemma {:induction false} DecrementSubtracts(bits: Row)
    ensures Value(Decrement(bits)) == if Value(bits) == 0 then Pow2(|bits|) - 1 else Value(bits) - 1
  {
    if bits != [] {
      DecrementSubtracts(bits[1..]);
      assert Decrement(bits)[1..] == if bits[0] then bits[1..] else Decrement(bits[1..]);
    }
  }

  function And(a: Row, b: Row): (r: Row)
    requires |a| == |b|
    ensures |r| == |a| && forall i :: 0 <= i < |r| ==> r[i] == (a[i] && b[i])
  {
    seq<bool>(|a|, (i: nat) requires i < |a| => a[i] && b[i])
  }

  predicate Nonzero(bits: Row) { exists i :: 0 <= i < |bits| && bits[i] }

  predicate TwoSet(bits: Row) { exists c, d :: 0 <= c < d < |bits| && bits[c] && bits[d] }

  lemma {:induction false} ClearsLowest(bits: Row)
    ensures Nonzero(And(bits, Decrement(bits))) <==> TwoSet(bits)
  {
    if bits != [] {
      var rest := bits[1..];
      var masked := And(bits, Decrement(bits));
      if bits[0] {
        assert Decrement(bits) == [false] + rest;
        assert Nonzero(masked) <==> Nonzero(rest) by {
          if i :| 0 <= i < |rest| && rest[i] { assert masked[i + 1]; }
          if i :| 0 <= i < |masked| && masked[i] { assert rest[i - 1]; }
        }
        assert TwoSet(bits) <==> Nonzero(rest) by {
          if i :| 0 <= i < |rest| && rest[i] { assert bits[0] && bits[i + 1]; }
          if c, d :| 0 <= c < d < |bits| && bits[c] && bits[d] { assert rest[d - 1]; }
        }
      } else {
        ClearsLowest(rest);
        assert masked == [false] + And(rest, Decrement(rest));
        assert TwoSet(bits) <==> TwoSet(rest) by {
          if c, d :| 0 <= c < d < |bits| && bits[c] && bits[d] { assert rest[c - 1] && rest[d - 1]; }
          if c, d :| 0 <= c < d < |rest| && rest[c] && rest[d] { assert bits[c + 1] && bits[d + 1]; }
        }
        assert Nonzero(masked) <==> Nonzero(And(rest, Decrement(rest))) by {
          if i :| 0 <= i < |masked| && masked[i] { assert And(rest, Decrement(rest))[i - 1]; }
          if i :| 0 <= i < |rest| && And(rest, Decrement(rest))[i] { assert masked[i + 1]; }
        }
      }
    }
  }

  /** `rowdata & (rowdata - 1)` is nonzero exactly if two bits are set. */
  method PopcountMoreThanOne(bits: Row) returns (r: bool)
    ensures r <==> TwoSet(bits)
  {
    ClearsLowest(bits);
    r := Nonzero(And(bits, Decrement(bits)));
  }

  // ---------------------------------------------------------------- ghosts

  /** The bits of a row that are real keys. */
  method GetRealKeys(b: Board, row: nat, bits: Row) returns (out: Row)
    requires b.Valid() && |bits| == b.width
    ensures |out| == b.width && forall c :: 0 <= c < b.width ==>
      (out[c] <==> c < b.cols && (row, c) in b.mapped && bits[c])
  {
    out := seq(b.width, _ => false);
    for col := 0 to b.cols
      invariant |out| == b.width
      invariant forall c :: 0 <= c < b.width ==> (out[c] <==> c < col && (row, c) in b.mapped && bits[c])
    {
      if (row, col) in b.mapped && bits[col] {
        out := out[col := true];
      }
    }
  }

  /** The first test only saves work: a row with fewer than two real keys shares fewer than two. */
  method HasGhostInRow(b: Board, m: seq<Row>, row: nat) returns (r: bool)
    requires b.Valid() && b.Fits(m) && row < b.rows
    ensures r <==> Ghosted(b, m, row)
  {
    if !b.ghosting {
      return false;
    }
    var mine := GetRealKeys(b, row, m[row]);
    var several := PopcountMoreThanOne(mine);
    if !several {
      assert forall c, other | 0 <= c && 0 <= other < b.rows && Shared(b, m, row, other, c) :: mine[c];
      return false;
    }
    for i := 0 to b.rows
      invariant forall other, c, d :: 0 <= other < i && other != row && 0 <= c < d && Shared(b, m, row, other, c) ==>
        !Shared(b, m, row, other, d)
    {
      var theirs := GetRealKeys(b, i, m[i]);
      var both := And(theirs, mine);
      assert forall c :: 0 <= c < b.width ==> (both[c] <==> Shared(b, m, row, i, c));
      var crossing := PopcountMoreThanOne(both);
      if i != row && crossing {
        var c, d :| 0 <= c < d < |both| && both[c] && both[d];
        assert Shared(b, m, row, i, c) && Shared(b, m, row, i, d);
        return true;
      }
      assert i != row ==> forall c, d :: 0 <= c < d && Shared(b, m, row, i, c) ==> !Shared(b, m, row, i, d) by {
        if i != row {
          assert !TwoSet(both);
        }
      }
    }
    return false;
  }

  // ---------------------------------------------------------------- passes

  /** What a pass handed on: every edge to `switch_events`, and to `action_exec` if the half of the
      keyboard processes key presses. */
  class Scanner {
    const board: Board
    const previous: array<Row>
    var switched: seq<Edge>
    var executed: seq<Edge>

    ghost predicate Valid()
      reads this, previous
    {
      board.Valid() && board.Fits(previous[..])
    }

    constructor (board: Board)
      requires board.Valid()
      ensures Valid() && fresh(previous) && this.board == board
      ensures previous[..] == PreviousAfter(board, []) && switched == EdgesOf(board, []) && executed == []
    {
      this.board := board;
      previous := new Row[board.rows](_ => seq<bool>(board.width, _ => false));
      switched, executed := [], [];
    }

    /** The comparison that skips a pass when nothing changed. */
    method Changed(now: seq<Row>) returns (r: bool)
      requires Valid() && board.Fits(now)
      ensures r <==> previous[..] != now
    {
      for row := 0 to board.rows
        invariant forall i :: 0 <= i < row ==> previous[i] == now[i]
      {
        if previous[row] != now[row] {
          return true;
        }
      }
      return false;
    }

    method EmitRow(row: nat, was: Row, now: Row, process: bool)
      requires board.Valid() && |was| == |now| == board.width
      modifies this`switched, this`executed
      ensures switched == old(switched) + RowEdges(was, now, row, board.cols)
      ensures executed == old(executed) + Sent(process, RowEdges(was, now, row, board.cols))
    {
      for col := 0 to board.cols
        invariant switched == old(switched) + RowEdges(was, now, row, col)
        invariant executed == old(executed) + Sent(process, RowEdges(was, now, row, col))
      {
        if was[col] != now[col] {
          if process {
            executed := executed + [Edge(row, col, now[col])];
          }
          switched := switched + [Edge(row, col, now[col])];
        }
      }
    }

    /** The body of the row loop. */
    method TakeRow(row: nat, now: seq<Row>, process: bool, ghost was: seq<Row>)
      requires Valid() && board.Fits(was) && board.Fits(now) && row < board.rows && previous[row] == was[row]
      modifies this`switched, this`executed, previous
      ensures previous[..] == old(previous[..])[row := if Taken(board, was, now, row) then now[row] else was[row]]
      ensures switched == old(switched) + TakenEdges(board, was, now, row)
      ensures executed == old(executed) + Sent(process, TakenEdges(board, was, now, row))
    {
      hide Ghosted, RowEdges;
      if previous[row] != now[row] {
        var ghosted := HasGhostInRow(board, now, row);
        if !ghosted {
          EmitRow(row, previous[row], now[row], process);
          previous[row] := now[row];
        }
      }
    }

    /** The row loop. */
    method TakeRows(now: seq<Row>, process: bool)
      requires Valid() && board.Fits(now)
      modifies this`switched, this`executed, previous
      ensures previous[..] == Remembered(board, old(previous[..]), now)
      ensures switched == old(switched) + PassEdges(board, old(previous[..]), now, board.rows)
      ensures executed == old(executed) + Sent(process, PassEdges(board, old(previous[..]), now, board.rows))
    {
      hide Ghosted, Taken, TakenEdges, Sent;
      ghost var was := previous[..];
      SentParts(process, [], []);
      for row := 0 to board.rows
        invariant Valid()
        invariant forall i :: 0 <= i < board.rows ==>
          previous[i] == if i < row && Taken(board, was, now, i) then now[i] else was[i]
        invariant switched == old(switched) + PassEdges(board, was, now, row)
        invariant executed == old(executed) + Sent(process, PassEdges(board, was, now, row))
      {
        ghost var before := previous[..];
        TakeRow(row, now, process, was);
        SentParts(process, PassEdges(board, was, now, row), TakenEdges(board, was, now, row));
        assert forall i :: 0 <= i < board.rows && i != row ==> previous[..][i] == before[i];
      }
    }

    /** One pass: rows that changed and are not ghosted are emitted and remembered. */
    method MatrixTask(canRead: bool, now: seq<Row>, process: bool) returns (changed: bool)
      requires Valid() && board.Fits(now)
      modifies this`switched, this`executed, previous
      ensures Valid()
      ensures changed <==> canRead && old(previous[..]) != now
      ensures previous[..] == if canRead then Remembered(board, old(previous[..]), now) else old(previous[..])
      ensures canRead ==> switched == old(switched) + PassEdges(board, old(previous[..]), now, board.rows)
      ensures executed == old(executed) + Sent(canRead && process, PassEdges(board, old(previous[..]), now, board.rows))
      ensures !canRead ==> switched == old(switched)
    {
      ghost var was := previous[..];
      if !canRead {
        return false;
      }
      changed := Changed(now);
      if !changed {
        NothingTaken(board, was, board.rows);
        return;
      }
      TakeRows(now, process);
    }
  }

  function Sent(process: bool, edges: seq<Edge>): seq<Edge> { if process then edges else [] }

  lemma SentParts(process: bool, a: seq<Edge>, b: seq<Edge>)
    ensures Sent(process, a + b) == Sent(process, a) + Sent(process, b) && Sent(process, []) == []
  {
  }

  lemma {:induction false} NothingTaken(b: Board, m: seq<Row>, n: nat)
    requires b.Valid() && b.Fits(m) && n <= b.rows
    ensures PassEdges(b, m, m, n) == [] && Remembered(b, m, m) == m
  {
    if n > 0 {
      NothingTaken(b, m, n - 1);
    }
  }
}
