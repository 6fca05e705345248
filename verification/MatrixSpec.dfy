/** Matrix edge detection with ghost blocking (quantum/keyboard.c): what a pass over a snapshot emits,
    and what every run of passes amounts to. */
module MatrixSpec {

  /** A row of the matrix: its bits, lowest column first. */
  type Row = seq<bool>

  /** The board: its size, the bits of `matrix_row_t`, and the positions that layer 0 gives a keycode. */
  datatype Board = Board(rows: nat, cols: nat, width: nat, mapped: set<(nat, nat)>, ghosting: bool)
  {
    ghost predicate Valid() { 0 < cols <= width }

    predicate Fits(m: seq<Row>)
    {
      |m| == rows && forall r :: 0 <= r < rows ==> |m[r]| == width
    }
  }

  datatype Edge = Edge(row: nat, col: nat, pressed: bool)

  // ---------------------------------------------------------------- ghosts

  predicate Shared(b: Board, m: seq<Row>, row: nat, other: nat, col: nat)
    requires b.Valid() && b.Fits(m) && row < b.rows && other < b.rows
  {
    col < b.cols && (row, col) in b.mapped && (other, col) in b.mapped && m[row][col] && m[other][col]
  }

  /** A row is ghosted when some other row has two real keys down in the same columns. */
  ghost predicate Ghosted(b: Board, m: seq<Row>, row: nat)
    requires b.Valid() && b.Fits(m) && row < b.rows
  {
    b.ghosting && exists other, c, d ::
      0 <= other < b.rows && other != row && 0 <= c < d && Shared(b, m, row, other, c) && Shared(b, m, row, other, d)
  }

  // ---------------------------------------------------------------- one pass

  /** The edges of one row up to a column. */
  function RowEdges(was: Row, now: Row, row: nat, n: nat): seq<Edge>
    requires n <= |was| && n <= |now|
  {
    if n == 0 then []
    else RowEdges(was, now, row, n - 1) + BitEdge(was[n - 1], now[n - 1], row, n - 1)
  }

  function BitEdge(was: bool, now: bool, row: nat, col: nat): seq<Edge>
  {
    if was != now then [Edge(row, col, now)] else []
  }

  /** Whether a pass takes a row over. */
  ghost predicate Taken(b: Board, was: seq<Row>, now: seq<Row>, row: nat)
    requires b.Valid() && b.Fits(was) && b.Fits(now) && row < b.rows
  {
    was[row] != now[row] && !Ghosted(b, now, row)
  }

  ghost function PassEdges(b: Board, was: seq<Row>, now: seq<Row>, n: nat): seq<Edge>
    requires b.Valid() && b.Fits(was) && b.Fits(now) && n <= b.rows
  {
    if n == 0 then []
    else PassEdges(b, was, now, n - 1) + TakenEdges(b, was, now, n - 1)
  }

  /** What a pass emits for a row. */
  ghost function TakenEdges(b: Board, was: seq<Row>, now: seq<Row>, row: nat): seq<Edge>
    requires b.Valid() && b.Fits(was) && b.Fits(now) && row < b.rows
  {
    if Taken(b, was, now, row) then RowEdges(was[row], now[row], row, b.cols) else []
  }

  /** The remembered matrix after a pass: rows taken over are as read, ghosted ones as they were. */
  ghost function Remembered(b: Board, was: seq<Row>, now: seq<Row>): (r: seq<Row>)
    requires b.Valid() && b.Fits(was) && b.Fits(now)
    ensures b.Fits(r)
  {
    seq<Row>(b.rows, (row: nat) requires row < b.rows => if Taken(b, was, now, row) then now[row] else was[row])
  }

  /** By row, and by column in a row. */
  predicate Before(a: Edge, b: Edge) { a.row < b.row || (a.row == b.row && a.col < b.col) }

  predicate InOrder(edges: seq<Edge>) { forall i, j :: 0 <= i < j < |edges| ==> Before(edges[i], edges[j]) }

  predicate RowsBelow(edges: seq<Edge>, n: nat) { forall i :: 0 <= i < |edges| ==> edges[i].row < n }

  lemma {:induction false} RowInOrder(was: Row, now: Row, row: nat, n: nat)
    requires n <= |was| && n <= |now|
    ensures InOrder(RowEdges(was, now, row, n))
    ensures forall i :: 0 <= i < |RowEdges(was, now, row, n)| ==>
      RowEdges(was, now, row, n)[i].row == row && RowEdges(was, now, row, n)[i].col < n
  {
    if n > 0 {
      RowInOrder(was, now, row, n - 1);
    }
  }

  /** A pass reports each key at most once, row by row and in each row from column 0 up. */
  lemma {:induction false} PassInOrder(b: Board, was: seq<Row>, now: seq<Row>, n: nat)
    requires b.Valid() && b.Fits(was) && b.Fits(now) && n <= b.rows
    ensures InOrder(PassEdges(b, was, now, n)) && RowsBelow(PassEdges(b, was, now, n), n)
  {
    if n > 0 {
      hide Taken, RowEdges;
      PassInOrder(b, was, now, n - 1);
      RowInOrder(was[n - 1], now[n - 1], n - 1, b.cols);
    }
  }

  // ---------------------------------------------------------------- runs of passes

  function AllUp(b: Board): (r: seq<Row>)
    ensures b.Fits(r)
  {
    seq<Row>(b.rows, _ => seq<bool>(b.width, _ => false))
  }

  ghost function PreviousAfter(b: Board, snaps: seq<seq<Row>>): (r: seq<Row>)
    requires b.Valid() && forall i :: 0 <= i < |snaps| ==> b.Fits(snaps[i])
    ensures b.Fits(r)
  {
    if snaps == [] then AllUp(b)
    else Remembered(b, PreviousAfter(b, snaps[..|snaps| - 1]), snaps[|snaps| - 1])
  }

  ghost function EdgesOf(b: Board, snaps: seq<seq<Row>>): seq<Edge>
    requires b.Valid() && forall i :: 0 <= i < |snaps| ==> b.Fits(snaps[i])
  {
    if snaps == [] then []
    else
      var init := snaps[..|snaps| - 1];
      EdgesOf(b, init) + PassEdges(b, PreviousAfter(b, init), snaps[|snaps| - 1], b.rows)
  }

  /** The presses and releases of one key. */
  function History(edges: seq<Edge>, row: nat, col: nat): seq<bool>
  {
    if edges == [] then []
    else
      var e := edges[|edges| - 1];
      History(edges[..|edges| - 1], row, col) + if e.row == row && e.col == col then [e.pressed] else []
  }

  /** Press first, then in turns. */
  predicate Alternates(h: seq<bool>)
  {
    forall i :: 0 <= i < |h| ==> (h[i] <==> i % 2 == 0)
  }

  lemma {:induction false} HistoryJoins(a: seq<Edge>, b: seq<Edge>, row: nat, col: nat)
    ensures History(a + b, row, col) == History(a, row, col) + History(b, row, col)
  {
    if b == [] {
      assert a + b == a;
    } else {
      HistoryJoins(a, b[..|b| - 1], row, col);
      assert (a + b)[..|a + b| - 1] == a + b[..|b| - 1];
    }
  }

  lemma {:induction false} RowHistory(was: Row, now: Row, r: nat, n: nat, row: nat, col: nat)
    requires n <= |was| && n <= |now|
    ensures History(RowEdges(was, now, r, n), row, col) ==
      if r == row && col < n && was[col] != now[col] then [now[col]] else []
  {
    if n > 0 {
      hide BitEdge, History;
      RowHistory(was, now, r, n - 1, row, col);
      BitHistory(was[n - 1], now[n - 1], r, n - 1, row, col);
      HistoryJoins(RowEdges(was, now, r, n - 1), BitEdge(was[n - 1], now[n - 1], r, n - 1), row, col);
    }
  }

  lemma BitHistory(was: bool, now: bool, r: nat, c: nat, row: nat, col: nat)
    ensures History(BitEdge(was, now, r, c), row, col) == if r == row && c == col && was != now then [now] else []
  {
    var e := Edge(r, c, now);
    assert History([], row, col) == [] && [e][..0] == [];
  }

  /** What a pass emits for a key: the new level, if its row is taken over and its bit changed. */
  ghost function Change(b: Board, was: seq<Row>, now: seq<Row>, row: nat, col: nat): seq<bool>
    requires b.Valid() && b.Fits(was) && b.Fits(now) && row < b.rows && col < b.cols
  {
    if Taken(b, was, now, row) && was[row][col] != now[row][col] then [now[row][col]] else []
  }

  lemma TakenHistory(b: Board, was: seq<Row>, now: seq<Row>, r: nat, row: nat, col: nat)
    requires b.Valid() && b.Fits(was) && b.Fits(now) && r < b.rows && row < b.rows && col < b.cols
    ensures History(TakenEdges(b, was, now, r), row, col) ==
      if row == r then Change(b, was, now, row, col) else []
  {
    hide Taken, RowEdges;
    RowHistory(was[r], now[r], r, b.cols, row, col);
  }

  lemma NextRow(b: Board, was: seq<Row>, now: seq<Row>, n: nat)
    requires b.Valid() && b.Fits(was) && b.Fits(now) && 0 < n <= b.rows
    ensures PassEdges(b, was, now, n) == PassEdges(b, was, now, n - 1) + TakenEdges(b, was, now, n - 1)
  {
    hide TakenEdges;
  }

  lemma NoRows(b: Board, was: seq<Row>, now: seq<Row>, row: nat, col: nat)
    requires b.Valid() && b.Fits(was) && b.Fits(now)
    ensures History(PassEdges(b, was, now, 0), row, col) == []
  {
  }

  /** A pass emits an edge of a key exactly if its row is taken over and its bit changed. */
  lemma {:induction false} PassHistory(b: Board, was: seq<Row>, now: seq<Row>, n: nat, row: nat, col: nat)
    requires b.Valid() && b.Fits(was) && b.Fits(now) && n <= b.rows && row < b.rows && col < b.cols
    ensures History(PassEdges(b, was, now, n), row, col) ==
      if row < n then Change(b, was, now, row, col) else []
  {
    hide History, TakenEdges, Taken, PassEdges, Change, Board.Fits;
    if n == 0 {
      NoRows(b, was, now, row, col);
    } else {
      var h := Change(b, was, now, row, col);
      var p, t := PassEdges(b, was, now, n - 1), TakenEdges(b, was, now, n - 1);
      PassHistory(b, was, now, n - 1, row, col);
      TakenHistory(b, was, now, n - 1, row, col);
      NextRow(b, was, now, n);
      JoinedHistory(p, t, row, col, n - 1, h);
    }
  }

  lemma JoinedHistory(p: seq<Edge>, t: seq<Edge>, row: nat, col: nat, n: nat, h: seq<bool>)
    requires History(p, row, col) == if row < n then h else []
    requires History(t, row, col) == if row == n then h else []
    ensures History(p + t, row, col) == if row < n + 1 then h else []
  {
    hide History;
    HistoryJoins(p, t, row, col);
  }

  /** Over every run, whatever was read and ghosted: each key's edges alternate from a press, and the
      remembered matrix is the state that the edges describe. */
  lemma {:induction false} EdgesAlternate(b: Board, snaps: seq<seq<Row>>, row: nat, col: nat)
    requires b.Valid() && (forall i :: 0 <= i < |snaps| ==> b.Fits(snaps[i])) && row < b.rows && col < b.cols
    ensures Alternates(History(EdgesOf(b, snaps), row, col))
    ensures PreviousAfter(b, snaps)[row][col] <==> |History(EdgesOf(b, snaps), row, col)| % 2 == 1
  {
    if snaps != [] {
      hide Taken, PassEdges, History, Alternates, AllUp;
      var init, now := snaps[..|snaps| - 1], snaps[|snaps| - 1];
      EdgesAlternate(b, init, row, col);
      var was := PreviousAfter(b, init);
      PassHistory(b, was, now, b.rows, row, col);
      HistoryJoins(EdgesOf(b, init), PassEdges(b, was, now, b.rows), row, col);
      var took := Taken(b, was, now, row);
      assert PreviousAfter(b, snaps)[row] == if took then now[row] else was[row];
      Alternation(History(EdgesOf(b, init), row, col), was[row][col], now[row][col], took);
    }
  }

  lemma Alternation(h: seq<bool>, was: bool, now: bool, took: bool)
    requires Alternates(h) && (was <==> |h| % 2 == 1)
    ensures Alternates(h + Grown(was, now, took))
    ensures (if took then now else was) <==> |h + Grown(was, now, took)| % 2 == 1
  {
  }

  function Grown(was: bool, now: bool, took: bool): seq<bool>
  {
    if took && was != now then [now] else []
  }

  /** After a pass every row that is not ghosted is up to date. */
  lemma RowsUpToDate(b: Board, snaps: seq<seq<Row>>, row: nat)
    requires b.Valid() && (forall i :: 0 <= i < |snaps| ==> b.Fits(snaps[i])) && snaps != [] && row < b.rows
    ensures PreviousAfter(b, snaps)[row] ==
      if Ghosted(b, snaps[|snaps| - 1], row) then PreviousAfter(b, snaps[..|snaps| - 1])[row]
      else snaps[|snaps| - 1][row]
  {
    hide Ghosted, AllUp;
  }

  /** A key seen down is pressed, or waits behind a ghost: once its row reads without ghosts, the edges
      so far end in what is read. */
  lemma CleanReadSettles(b: Board, snaps: seq<seq<Row>>, row: nat, col: nat)
    requires b.Valid() && (forall i :: 0 <= i < |snaps| ==> b.Fits(snaps[i])) && snaps != [] && row < b.rows &&
      col < b.cols
    requires !Ghosted(b, snaps[|snaps| - 1], row)
    ensures var h := History(EdgesOf(b, snaps), row, col);
      snaps[|snaps| - 1][row][col] == (h != [] && h[|h| - 1])
  {
    hide Ghosted, EdgesOf, History, PreviousAfter;
    EdgesAlternate(b, snaps, row, col);
    RowsUpToDate(b, snaps, row);
  }
}
