/** UF2 images (util/uf2conv.py): both producers, from a flat binary and from Intel HEX records, and
    the decoder that undoes them. */
module Uf2 {
  import opened Keyboard
  import opened Arithmetic
  import opened Bytes

  const MAGIC_START0 := 0x0A324655
  const MAGIC_START1 := 0x9E5D5157
  const MAGIC_END := 0x0AB16F30
  const FAMILY_FLAG := 0x2000
  const DEVICE_FLAG := 0x8000
  const MAX_PADDING := 10 * 1024 * 1024

  /** None where the program raises. */
  datatype Option<T> = None | Some(value: T)

  function Zeros(n: nat): (r: seq<byte>)
    ensures |r| == n
  {
    seq(n, _ => 0)
  }

  predicate Flag(flags: nat, flag: nat)
    requires flag > 0
  {
    (flags / flag) % 2 == 1
  }

  // ---------------------------------------------------------------- one block

  /** 256 bytes for an address. */
  datatype Page = Page(addr: nat, bytes: seq<byte>)

  /** What the blocks of one file share; zero for no family and no device type. */
  datatype Kind = Kind(family: uint32, device: uint32)

  function FlagsOf(kind: Kind): nat
  {
    (if kind.family != 0 then FAMILY_FLAG else 0) + (if kind.device != 0 then DEVICE_FLAG else 0)
  }

  function Word(v: nat): (r: seq<byte>)
    ensures |r| == 4
  {
    LittleEndian(v, 4)
  }

  function Header(page: Page, no: nat, total: nat, kind: Kind): (r: seq<byte>)
    ensures |r| == 32
  {
    Word(MAGIC_START0) + Word(MAGIC_START1) + Word(FlagsOf(kind)) + Word(page.addr) +
    Word(256) + Word(no) + Word(total) + Word(kind.family)
  }

  function Trailer(kind: Kind): (r: seq<byte>)
    ensures |r| == 220
  {
    if kind.device == 0 then Zeros(220)
    else [0x08, 0x29, 0xA7, 0xC8] + Word(kind.device) + Zeros(212)
  }

  /** A 512-byte block; `Block.encode`, and the loop body of `convert_to_uf2`. */
  function Encode(page: Page, no: nat, total: nat, kind: Kind): (r: seq<byte>)
    requires |page.bytes| == 256
    ensures |r| == 512
  {
    Header(page, no, total, kind) + page.bytes + Trailer(kind) + Word(MAGIC_END)
  }

  function EncodeAll(pages: seq<Page>, n: nat, total: nat, kind: Kind): (r: seq<byte>)
    requires n <= |pages| && forall i :: 0 <= i < |pages| ==> |pages[i].bytes| == 256
    ensures |r| == 512 * n
  {
    if n == 0 then [] else EncodeAll(pages, n - 1, total, kind) + Encode(pages[n - 1], n - 1, total, kind)
  }

  /** Header word `i` of a block. */
  function Field(block: seq<byte>, i: nat): nat
    requires |block| == 512 && i < 8
  {
    LittleValue(block[4 * i..4 * i + 4])
  }

  lemma {:induction false} LittleReadsBack(v: nat, size: nat)
    requires v < Pow256(size)
    ensures LittleValue(LittleEndian(v, size)) == v
  {
    if size > 0 {
      LittleReadsBack(v / 256, size - 1);
      assert LittleEndian(v, size)[1..] == LittleEndian(v / 256, size - 1);
    }
  }

  lemma WordReadsBack(v: nat)
    requires v < 0x1_0000_0000
    ensures LittleValue(Word(v)) == v
  {
    assert Pow256(1) == 0x100 && Pow256(2) == 0x1_0000 && Pow256(3) == 0x100_0000 && Pow256(4) == 0x1_0000_0000;
    LittleReadsBack(v, 4);
  }

  predicate PageFits(page: Page) { |page.bytes| == 256 && page.addr < 0x1_0000_0000 }

  /** Every field of an encoded block reads back. */
  lemma EncodedFields(page: Page, no: nat, total: nat, kind: Kind)
    requires PageFits(page) && no < 0x1_0000_0000 && total < 0x1_0000_0000
    ensures var b := Encode(page, no, total, kind);
      && Field(b, 0) == MAGIC_START0 && Field(b, 1) == MAGIC_START1 && Field(b, 2) == FlagsOf(kind)
      && Field(b, 3) == page.addr && Field(b, 4) == 256 && Field(b, 5) == no && Field(b, 6) == total
      && Field(b, 7) == kind.family && b[32..288] == page.bytes
  {
    hide Word, LittleValue;
    var b, h := Encode(page, no, total, kind), Header(page, no, total, kind);
    assert b[..32] == h && b[32..288] == page.bytes;
    var words := [MAGIC_START0, MAGIC_START1, FlagsOf(kind), page.addr, 256, no, total, kind.family];
    HeaderWords(h, words);
    forall i | 0 <= i < 8 ensures Field(b, i) == words[i] {
      assert b[4 * i..4 * i + 4] == h[4 * i..4 * i + 4];
      WordReadsBack(words[i]);
    }
  }

  /** Behind the data come the device type, if there is one, and the final magic. */
  lemma EncodedTrailer(page: Page, no: nat, total: nat, kind: Kind)
    requires |page.bytes| == 256
    ensures var b := Encode(page, no, total, kind);
      && LittleValue(b[508..512]) == MAGIC_END
      && (kind.device == 0 ==> b[288..508] == Zeros(220))
      && (kind.device != 0 ==> b[288..292] == [0x08, 0x29, 0xA7, 0xC8] && LittleValue(b[292..296]) == kind.device)
  {
    hide Word, LittleValue, Header;
    var b, t := Encode(page, no, total, kind), Trailer(kind);
    assert b[288..508] == t && b[508..512] == Word(MAGIC_END);
    WordReadsBack(MAGIC_END);
    if kind.device != 0 {
      assert t[4..8] == Word(kind.device) && b[288..508][4..8] == b[292..296];
      assert t[..4] == [0x08, 0x29, 0xA7, 0xC8] && b[288..508][..4] == b[288..292];
      WordReadsBack(kind.device);
    }
  }

  lemma HeaderWords(h: seq<byte>, words: seq<nat>)
    requires |words| == 8
    requires h == Word(words[0]) + Word(words[1]) + Word(words[2]) + Word(words[3]) + Word(words[4]) + Word(words[5]) +
      Word(words[6]) + Word(words[7])
    ensures forall i :: 0 <= i < 8 ==> h[4 * i..4 * i + 4] == Word(words[i])
  {
    hide Word;
    assert h[0..4] == Word(words[0]) && h[4..8] == Word(words[1]) && h[8..12] == Word(words[2]) &&
      h[12..16] == Word(words[3]);
    assert h[16..20] == Word(words[4]) && h[20..24] == Word(words[5]) && h[24..28] == Word(words[6]) &&
      h[28..32] == Word(words[7]);
  }

  // ---------------------------------------------------------------- the decoder

  /** The decoder's variables: the next address and the current family (-1 for None), the start
      address, the families met, and the output. */
  datatype State = State(next: int, family: int, start: nat, found: set<nat>, out: seq<byte>)

  predicate BadMagic(block: seq<byte>)
    requires |block| == 512
  {
    Field(block, 0) != MAGIC_START0 || Field(block, 1) != MAGIC_START1
  }

  /** One block. A bad magic raises as well: the message concatenates a string and a number. */
  function DecodeBlock(s: State, block: seq<byte>, last: bool, familyId: nat): Option<State>
    requires |block| == 512
  {
    var flags, addr, len, family := Field(block, 2), Field(block, 3), Field(block, 4), Field(block, 7);
    var tagged := Flag(flags, FAMILY_FLAG);
    if BadMagic(block) then None
    else if flags % 2 == 1 then Some(s)
    else if len > 476 then None
    else
      var current := if tagged && s.family == -1 then family else s.family;
      var fresh' := s.next == -1 || (tagged && family != current);
      var next := if fresh' then addr else s.next;
      var start := if fresh' && (familyId == 0 || familyId == family) then addr else s.start;
      var padding := addr - next;
      if padding < 0 || padding > MAX_PADDING || padding % 4 != 0 then None
      else
        var out := s.out + Zeros(padding) +
          (if familyId == 0 || (tagged && familyId == family) then block[32..32 + len] else []);
        var found := if tagged then s.found + {family} else s.found;
        var t := State(addr + len, if fresh' then family else current, start, found, out);
        Some(if last && |found| > 1 && familyId == 0 then t.(out := [], start := 0) else t)
  }

  function DecodeUpTo(buf: seq<byte>, n: nat, s: State, familyId: nat): Option<State>
    requires 512 * n <= |buf|
  {
    if n == 0 then Some(s)
    else
      match DecodeUpTo(buf, n - 1, s, familyId)
      case None => None
      case Some(t) => DecodeBlock(t, buf[512 * (n - 1)..512 * n], n == |buf| / 512, familyId)
  }

  /** `convert_from_uf2`: the output and the new start address. */
  function FromUf2(buf: seq<byte>, start: nat, familyId: nat): Option<(seq<byte>, nat)>
  {
    match DecodeUpTo(buf, |buf| / 512, State(-1, -1, start, {}, []), familyId)
    case None => None
    case Some(s) => Some((s.out, s.start))
  }

  // ---------------------------------------------------------------- blocks with a bad magic

  function BlockOf(buf: seq<byte>, n: nat): (r: seq<byte>)
    requires 512 * n + 512 <= |buf|
    ensures |r| == 512
  {
    buf[512 * n..512 * (n + 1)]
  }

  /** The decoder that passes over blocks with a bad magic, as the program's message says it does. */
  function SkipUpTo(buf: seq<byte>, n: nat, s: State, familyId: nat): Option<State>
    requires 512 * n <= |buf|
  {
    if n == 0 then Some(s)
    else
      match SkipUpTo(buf, n - 1, s, familyId)
      case None => None
      case Some(t) =>
        if BadMagic(BlockOf(buf, n - 1)) then Some(t)
        else DecodeBlock(t, BlockOf(buf, n - 1), n == |buf| / 512, familyId)
  }

  predicate GoodMagic(buf: seq<byte>, n: nat)
    requires 512 * n <= |buf|
  {
    forall k :: 0 <= k < n ==> !BadMagic(BlockOf(buf, k))
  }

  /** Where that decoder succeeds, the program does the same exactly when no block has a bad magic;
      otherwise it raises when it reaches the first such block. */
  lemma {:induction false} SkipsIff(buf: seq<byte>, n: nat, s: State, familyId: nat)
    requires 512 * n <= |buf|
    ensures GoodMagic(buf, n) ==> DecodeUpTo(buf, n, s, familyId) == SkipUpTo(buf, n, s, familyId)
    ensures !GoodMagic(buf, n) ==> DecodeUpTo(buf, n, s, familyId).None?
    ensures SkipUpTo(buf, n, s, familyId).Some? ==>
      (DecodeUpTo(buf, n, s, familyId) == SkipUpTo(buf, n, s, familyId) <==> GoodMagic(buf, n))
  {
    if n > 0 {
      hide Field;
      SkipsIff(buf, n - 1, s, familyId);
      assert GoodMagic(buf, n) <==> GoodMagic(buf, n - 1) && !BadMagic(BlockOf(buf, n - 1));
    }
  }

  /** So 512 zero bytes raise, where nothing would be decoded from them. */
  lemma ZeroBlockRaises(start: nat, familyId: nat)
    ensures FromUf2(Zeros(512), start, familyId) == None
    ensures SkipUpTo(Zeros(512), 1, State(-1, -1, start, {}, []), familyId) == Some(State(-1, -1, start, {}, []))
  {
    var block := BlockOf(Zeros(512), 0);
    assert block[0..4] == [0, 0, 0, 0];
    assert [0, 0, 0, 0][1..] == [0, 0, 0] && [0, 0, 0][1..] == [0, 0] && [0, 0][1..] == [0] && [0][1..] == [];
    assert LittleValue([0]) == 0 && LittleValue([0, 0]) == 0 && LittleValue([0, 0, 0]) == 0;
    assert Field(block, 0) == 0;
    assert BadMagic(block) by { hide Field; }
    hide DecodeBlock;
    SkipsIff(Zeros(512), 1, State(-1, -1, start, {}, []), familyId);
  }

  // ---------------------------------------------------------------- decoding what was encoded

  /** Pages in order, apart by whole words and by no more than the padding limit. */
  predicate Ascending(pages: seq<Page>)
  {
    && (forall i :: 0 <= i < |pages| ==> PageFits(pages[i]))
    && forall i :: 0 < i < |pages| ==> GapOk(pages[i - 1], pages[i])
  }

  predicate GapOk(a: Page, b: Page)
  {
    var gap := b.addr - (a.addr + 256);
    0 <= gap <= MAX_PADDING && gap % 4 == 0
  }

  /** The pages laid out flat, with zeros between them. */
  function Laid(pages: seq<Page>, n: nat): seq<byte>
    requires n <= |pages| && Ascending(pages)
  {
    if n == 0 then []
    else if n == 1 then pages[0].bytes
    else Laid(pages, n - 1) + Zeros(pages[n - 1].addr - (pages[n - 2].addr + 256)) + pages[n - 1].bytes
  }

  /** The decoder's state after `n` of the pages. */
  function After(pages: seq<Page>, n: nat, kind: Kind): State
    requires 0 < n <= |pages| && Ascending(pages)
  {
    State(pages[n - 1].addr + 256, kind.family, pages[0].addr, if kind.family != 0 then {kind.family as nat} else {},
      Laid(pages, n))
  }

  lemma EncodeAllSlice(pages: seq<Page>, n: nat, m: nat, total: nat, kind: Kind)
    requires 0 < n <= m <= |pages| && forall i :: 0 <= i < |pages| ==> |pages[i].bytes| == 256
    ensures EncodeAll(pages, m, total, kind)[512 * (n - 1)..512 * n] == Encode(pages[n - 1], n - 1, total, kind)
    decreases m
  {
    if n < m {
      EncodeAllSlice(pages, n, m - 1, total, kind);
      assert EncodeAll(pages, m, total, kind)[512 * (n - 1)..512 * n] ==
        EncodeAll(pages, m - 1, total, kind)[512 * (n - 1)..512 * n];
    }
  }

  lemma FlagsReadBack(kind: Kind)
    ensures Flag(FlagsOf(kind), FAMILY_FLAG) <==> kind.family != 0
    ensures Flag(FlagsOf(kind), DEVICE_FLAG) <==> kind.device != 0
    ensures FlagsOf(kind) % 2 == 0
  {
  }

  lemma DecodeEncodedFirst(s: State, page: Page, no: nat, total: nat, kind: Kind, last: bool, familyId: nat)
    requires PageFits(page) && no < 0x1_0000_0000 && total < 0x1_0000_0000
    requires familyId == 0 || familyId == kind.family
    requires s.next == -1 && s.family == -1 && s.found == {} && s.out == []
    ensures DecodeBlock(s, Encode(page, no, total, kind), last, familyId)
      == Some(State(page.addr + 256, kind.family, page.addr, if kind.family != 0 then {kind.family as nat} else {},
        page.bytes))
  {
    hide Field, Encode;
    EncodedFields(page, no, total, kind);
    FlagsReadBack(kind);
    assert s.out + Zeros(0) + page.bytes == page.bytes;
    OneFamily(s.found, kind);
  }

  lemma DecodeEncodedNext(s: State, page: Page, no: nat, total: nat, kind: Kind, last: bool, familyId: nat)
    requires PageFits(page) && no < 0x1_0000_0000 && total < 0x1_0000_0000
    requires familyId == 0 || familyId == kind.family
    requires s.next >= 0 && s.family == kind.family && s.found == if kind.family != 0 then {kind.family as nat} else {}
    requires 0 <= page.addr - s.next <= MAX_PADDING && (page.addr - s.next) % 4 == 0
    ensures DecodeBlock(s, Encode(page, no, total, kind), last, familyId)
      == Some(State(page.addr + 256, kind.family, s.start, s.found, s.out + Zeros(page.addr - s.next) + page.bytes))
  {
    hide Field, Encode;
    EncodedFields(page, no, total, kind);
    FlagsReadBack(kind);
    OneFamily(s.found, kind);
  }

  lemma OneFamily(found: set<nat>, kind: Kind)
    requires found <= {kind.family as nat}
    ensures found + {kind.family as nat} == {kind.family as nat} && |found| <= 1 && |{kind.family as nat}| == 1
  {
    if |found| > 0 {
      assert found == {kind.family as nat};
    }
  }

  lemma {:induction false} DecodePages(pages: seq<Page>, n: nat, kind: Kind, start: nat, familyId: nat)
    requires 0 < n <= |pages| < 0x1_0000_0000 && Ascending(pages) && (familyId == 0 || familyId == kind.family)
    ensures DecodeUpTo(EncodeAll(pages, |pages|, |pages|, kind), n, State(-1, -1, start, {}, []), familyId) ==
      Some(After(pages, n, kind))
  {
    hide DecodeBlock, Encode, EncodeAll;
    var buf, s := EncodeAll(pages, |pages|, |pages|, kind), State(-1, -1, start, {}, []);
    EncodeAllSlice(pages, n, |pages|, |pages|, kind);
    if n == 1 {
      assert DecodeUpTo(buf, 0, s, familyId) == Some(s);
      DecodeEncodedFirst(s, pages[0], 0, |pages|, kind, 1 == |buf| / 512, familyId);
    } else {
      DecodePages(pages, n - 1, kind, start, familyId);
      assert GapOk(pages[n - 2], pages[n - 1]);
      DecodeEncodedNext(After(pages, n - 1, kind), pages[n - 1], n - 1, |pages|, kind, n == |buf| / 512, familyId);
    }
  }

  /** The decoder undoes the encoding of any pages in order, whatever the start address was. */
  lemma DecodeUndoesEncode(pages: seq<Page>, kind: Kind, start: nat, familyId: nat)
    requires |pages| < 0x1_0000_0000 && Ascending(pages) && (familyId == 0 || familyId == kind.family)
    ensures FromUf2(EncodeAll(pages, |pages|, |pages|, kind), start, familyId)
      == Some((Laid(pages, |pages|), if pages == [] then start else pages[0].addr))
  {
    if pages != [] {
      DecodePages(pages, |pages|, kind, start, familyId);
    }
  }
}
