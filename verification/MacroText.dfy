/** The macros of the dynamic keymap as a user writes them: what their bytes are, where they lie in the
    region, and that sending one sends just what was written. */
module MacroText {
  import opened Keyboard
  import opened Bytes
  import opened MacroSend

  // ---------------------------------------------------------------- what a macro is made of

  /** A plain character; a tap, down or up of a key code; a delay of one to four characters. */
  datatype Item = Plain(c: byte) | Stroke(code: byte, key: byte) | Delay(digits: seq<byte>)

  predicate ItemOk(item: Item)
  {
    match item
    case Plain(c) => c != 0 && c != SS_QMK_PREFIX
    case Stroke(code, key) => (code == SS_TAP_CODE || code == SS_DOWN_CODE || code == SS_UP_CODE) && key != 0
    case Delay(digits) => 1 <= |digits| <= 4 && forall i :: 0 <= i < |digits| ==> digits[i] != 0 && digits[i] != BAR
  }

  function Spelt(item: Item): (r: seq<byte>)
    ensures r != []
  {
    match item
    case Plain(c) => [c]
    case Stroke(code, key) => [SS_QMK_PREFIX, code, key]
    case Delay(digits) => [SS_QMK_PREFIX, SS_DELAY_CODE] + digits + [BAR]
  }

  function Pieces(items: seq<Item>): (r: seq<seq<byte>>)
  {
    if items == [] then [] else [Spelt(items[0])] + Pieces(items[1..])
  }

  function Text(items: seq<Item>): seq<byte>
  {
    if items == [] then [] else Spelt(items[0]) + Text(items[1..])
  }

  predicate AllOk(items: seq<Item>) { forall i :: 0 <= i < |items| ==> ItemOk(items[i]) }

  // ---------------------------------------------------------------- sending it

  /** What the parser makes of one item, with anything behind it. */
  lemma ItemIsPiece(item: Item, rest: seq<byte>, tail: seq<byte>)
    requires ItemOk(item)
    ensures var piece := NextPiece(Spelt(item) + rest, tail);
      piece.Piece? && piece.len == |Spelt(item)| && piece.sent == Spelt(item)
  {
    var b := Spelt(item);
    var m := b + rest;
    assert m[..|b|] == b && m[0] == b[0];
    match item {
      case Plain(_) =>
      case Stroke(_, _) => assert m[1] == b[1];
      case Delay(digits) =>
        assert m[1] == b[1];
        forall i | 2 <= i < |b| ensures m[i] == b[i] { }
        BarIs(m, 2, |b| - 1);
    }
  }

  lemma {:induction false} BarIs(m: seq<byte>, i: nat, k: nat)
    requires i <= k <= 6 && k < |m| && m[k] == BAR && forall j :: i <= j < k ==> m[j] != BAR
    ensures Bar(m, i) == k
    decreases k - i
  {
    if i < k {
      BarIs(m, i + 1, k);
    }
  }

  /** Each item of a macro is sent as one string, in order, whatever was sent before. */
  lemma {:induction false} ItemsSent(items: seq<Item>, tail: seq<byte>)
    requires AllOk(items)
    ensures Parse(Text(items), tail) == Result(Pieces(items), true)
    decreases |items|
  {
    if items != [] {
      hide NextPiece, Spelt, ItemOk;
      var m, b := Text(items), Spelt(items[0]);
      ItemIsPiece(items[0], Text(items[1..]), tail);
      assert m[|b|..] == Text(items[1..]);
      ItemsSent(items[1..], NextPiece(m, tail).tail);
    }
  }

  lemma {:induction false} PiecesJoin(items: seq<Item>)
    ensures Concat(Pieces(items)) == Text(items)
  {
    if items != [] {
      PiecesJoin(items[1..]);
      assert Pieces(items)[1..] == Pieces(items[1..]);
    }
  }

  ghost predicate WellFormed(m: seq<byte>)
  {
    exists items :: AllOk(items) && m == Text(items)
  }

  /** A well-formed macro is sent to its end, byte for byte. */
  lemma WellFormedSentExactly(m: seq<byte>, tail: seq<byte>)
    requires WellFormed(m)
    ensures Parse(m, tail).finished && Concat(Parse(m, tail).sent) == m
  {
    var items :| AllOk(items) && m == Text(items);
    ItemsSent(items, tail);
    PiecesJoin(items);
  }

  // ---------------------------------------------------------------- where it lies

  predicate NulFree(m: seq<byte>) { forall i :: 0 <= i < |m| ==> m[i] != 0 }

  /** Macros one behind the other, each ended by a NUL. */
  function Laid(ms: seq<seq<byte>>): (r: seq<byte>)
  {
    if ms == [] then [] else ms[0] + [0] + Laid(ms[1..])
  }

  /** The region holds these bytes from here on. */
  predicate At(r: seq<byte>, p: nat, m: seq<byte>)
  {
    p + |m| <= |r| && forall i :: 0 <= i < |m| ==> r[p + i] == m[i]
  }

  lemma {:induction false} SkipsString(r: seq<byte>, p: nat, m: seq<byte>, id: nat)
    requires NulFree(m) && At(r, p, m + [0]) && id > 0
    ensures Skip(r, p, id) == Skip(r, p + |m| + 1, id - 1)
    decreases |m|
  {
    assert r[p] == (m + [0])[0];
    if m != [] {
      forall i | 0 <= i < |m[1..] + [0]| ensures r[p + 1 + i] == (m[1..] + [0])[i] {
        assert r[p + (i + 1)] == (m + [0])[i + 1];
      }
      SkipsString(r, p + 1, m[1..], id);
    }
  }

  lemma StringEnds(r: seq<byte>, p: nat, m: seq<byte>)
    requires NulFree(m) && At(r, p, m + [0])
    ensures Terminator(r, p) == p + |m| && r[p..p + |m|] == m
  {
    assert r[p + |m|] == (m + [0])[|m|];
    forall i | 0 <= i < |m| ensures r[p + i] == m[i] {
      assert r[p + i] == (m + [0])[i];
    }
    forall j | p <= j < p + |m| ensures r[j] != 0 {
      assert r[p + (j - p)] == m[j - p];
    }
  }

  lemma {:induction false} FindsMacro(r: seq<byte>, p: nat, ms: seq<seq<byte>>, i: nat)
    requires i < |ms| && At(r, p, Laid(ms)) && forall j :: 0 <= j < |ms| ==> NulFree(ms[j])
    ensures var q := Skip(r, p, i); Terminator(r, q) < |r| && r[q..Terminator(r, q)] == ms[i]
    decreases i
  {
    var m, rest := ms[0], Laid(ms[1..]);
    assert Laid(ms) == m + [0] + rest;
    forall k | 0 <= k < |m + [0]| ensures r[p + k] == (m + [0])[k] {
      assert r[p + k] == Laid(ms)[k];
    }
    if i == 0 {
      StringEnds(r, p, m);
    } else {
      forall k | 0 <= k < |rest| ensures r[p + |m| + 1 + k] == rest[k] {
        assert r[p + (|m| + 1 + k)] == Laid(ms)[|m| + 1 + k];
      }
      SkipsString(r, p, m, i);
      FindsMacro(r, p + |m| + 1, ms[1..], i - 1);
    }
  }

  /** Of macros laid out one behind the other, with anything after them, number `i` is the `i`-th. */
  lemma MacrosLieInOrder(ms: seq<seq<byte>>, rest: seq<byte>, i: nat)
    requires i < |ms| && forall j :: 0 <= j < |ms| ==> NulFree(ms[j])
    ensures MacroOf(Laid(ms) + rest, i) == ms[i] && Nuls(Laid(ms) + rest) > i
  {
    var r := Laid(ms) + rest;
    FindsMacro(r, 0, ms, i);
    NulsBelow(r, i);
  }

  /** If a terminator is found behind `i` strings, there are more than `i` NULs. */
  lemma NulsBelow(r: seq<byte>, i: nat)
    requires Terminator(r, Skip(r, 0, i)) < |r|
    ensures Nuls(r) > i
  {
    assert r[0..] == r;
    SkipCounts(r, 0, i);
    if Nuls(r) <= i {
      TerminatorExists(r, Skip(r, 0, i));
    }
  }

  lemma {:induction false} TextIsNulFree(items: seq<Item>)
    requires AllOk(items)
    ensures NulFree(Text(items))
  {
    if items != [] {
      assert ItemOk(items[0]);
      TextIsNulFree(items[1..]);
    }
  }

  function Texts(macros: seq<seq<Item>>): (r: seq<seq<byte>>)
    ensures |r| == |macros| && forall j :: 0 <= j < |macros| ==> r[j] == Text(macros[j])
  {
    seq(|macros|, j requires 0 <= j < |macros| => Text(macros[j]))
  }

  /** From the written macros to the strings sent: number `i` of the region sends the items of macro `i`. */
  lemma WrittenIsSent(macros: seq<seq<Item>>, rest: seq<byte>, i: nat)
    requires i < |macros| && forall j :: 0 <= j < |macros| ==> AllOk(macros[j])
    ensures var r := Laid(Texts(macros)) + rest;
      Nuls(r) > i && Parse(MacroOf(r, i), []) == Result(Pieces(macros[i]), true)
  {
    forall j | 0 <= j < |macros| ensures NulFree(Text(macros[j])) {
      TextIsNulFree(macros[j]);
    }
    MacrosLieInOrder(Texts(macros), rest, i);
    ItemsSent(macros[i], []);
  }
}
