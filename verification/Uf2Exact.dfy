/** Exactly which UF2 files of pages decode, and what decoding for another family, or a file of several
    families, gives (util/uf2conv.py). */
module Uf2Exact {
  import opened Keyboard
  import opened Bytes
  import opened Uf2
  import opened Uf2Producers
  import Uf2Convert

  predicate AllFit(pages: seq<Page>)
  {
    |pages| < 0x1_0000_0000 && forall i :: 0 <= i < |pages| ==> PageFits(pages[i])
  }

  function FileOf(pages: seq<Page>, kind: Kind): (r: seq<byte>)
    requires AllFit(pages)
    ensures |r| == 512 * |pages|
  {
    EncodeAll(pages, |pages|, |pages|, kind)
  }

  const UNREAD := -1

  function Begin(start: nat): State { State(UNREAD, UNREAD, start, {}, []) }

  // ---------------------------------------------------------------- which files decode

  /** As long as the pages are in order, the decoder lays them out. */
  lemma {:induction false} PrefixDecodes(pages: seq<Page>, n: nat, kind: Kind, start: nat, familyId: nat)
    requires AllFit(pages) && 0 < n <= |pages| && Ascending(pages[..n]) && (familyId == 0 || familyId == kind.family)
    ensures DecodeUpTo(FileOf(pages, kind), n, Begin(start), familyId) == Some(After(pages[..n], n, kind))
  {
    hide DecodeBlock, Encode, EncodeAll, DecodeUpTo;
    var s, p := Begin(start), pages[..n];
    if n == 1 {
      assert p == [pages[0]];
      NoBlocks(pages, kind, s, familyId);
      OneMoreBlock(pages, 1, kind, s, s, familyId);
      DecodeEncodedFirst(s, pages[0], 0, |pages|, kind, 1 == |pages|, familyId);
    } else {
      var q := pages[..n - 1];
      OneLess(pages, n);
      PrefixDecodes(pages, n - 1, kind, start, familyId);
      OneMoreBlock(pages, n, kind, s, After(q, n - 1, kind), familyId);
      hide After, Ascending;
      assert p[n - 1] == pages[n - 1];
      NextAfter(q, p, |pages|, kind, n == |pages|, familyId);
    }
  }

  /** One page more in order. */
  lemma NextAfter(q: seq<Page>, p: seq<Page>, total: nat, kind: Kind, last: bool, familyId: nat)
    requires 1 < |p| <= total < 0x1_0000_0000 && q == p[..|p| - 1] && Ascending(p) && Ascending(q)
    requires familyId == 0 || familyId == kind.family
    ensures DecodeBlock(After(q, |q|, kind), Encode(p[|p| - 1], |p| - 1, total, kind), last, familyId)
      == Some(After(p, |p|, kind))
  {
    hide DecodeBlock, Encode;
    var n := |p|;
    assert GapOk(p[n - 2], p[n - 1]);
    assert q[..n - 1] == p[..n - 1];
    LaidSame(q, p, n - 1);
    DecodeEncodedNext(After(q, n - 1, kind), p[n - 1], n - 1, total, kind, last, familyId);
  }

  lemma NoBlocks(pages: seq<Page>, kind: Kind, s: State, familyId: nat)
    requires AllFit(pages)
    ensures DecodeUpTo(FileOf(pages, kind), 0, s, familyId) == Some(s)
  {
  }

  lemma OneLess(pages: seq<Page>, n: nat)
    requires 1 < n <= |pages| && Ascending(pages[..n])
    ensures Ascending(pages[..n - 1]) && pages[..n - 1] == pages[..n][..n - 1]
  {
    var p, q := pages[..n], pages[..n - 1];
    forall i | 0 < i < |q| ensures GapOk(q[i - 1], q[i]) {
      assert GapOk(p[i - 1], p[i]);
    }
    forall i | 0 <= i < |q| ensures PageFits(q[i]) {
      assert PageFits(p[i]);
    }
  }

  /** A page that is out of order, too far on, or not a whole number of words on, raises. */
  lemma BadGapRaises(s: State, page: Page, no: nat, total: nat, kind: Kind, last: bool, familyId: nat)
    requires PageFits(page) && no < 0x1_0000_0000 && total < 0x1_0000_0000
    requires s.next >= 0 && s.family == kind.family
    requires !(0 <= page.addr - s.next <= MAX_PADDING && (page.addr - s.next) % 4 == 0)
    ensures DecodeBlock(s, Encode(page, no, total, kind), last, familyId) == None
  {
    hide Field, Encode;
    EncodedFields(page, no, total, kind);
    FlagsReadBack(kind);
  }

  /** A file of pages decodes exactly if its pages ascend, by whole words and no more than 10 MiB of
      padding at a time. */
  lemma DecodesIff(pages: seq<Page>, kind: Kind, start: nat, familyId: nat)
    requires AllFit(pages) && (familyId == 0 || familyId == kind.family)
    ensures FromUf2(FileOf(pages, kind), start, familyId).Some? <==> Ascending(pages)
  {
    if Ascending(pages) {
      DecodeUndoesEncode(pages, kind, start, familyId);
    } else {
      hide DecodeUpTo, EncodeAll, Ascending;
      var n := FirstBadGap(pages);
      PrefixDecodes(pages, n, kind, start, familyId);
      BadGapFails(pages, n, kind, start, familyId);
      Uf2Convert.FailureStays(FileOf(pages, kind), n + 1, |pages|, Begin(start), familyId);
    }
  }

  lemma BadGapFails(pages: seq<Page>, n: nat, kind: Kind, start: nat, familyId: nat)
    requires AllFit(pages) && 0 < n < |pages| && Ascending(pages[..n]) && !GapOk(pages[n - 1], pages[n])
    requires DecodeUpTo(FileOf(pages, kind), n, Begin(start), familyId) == Some(After(pages[..n], n, kind))
    ensures DecodeUpTo(FileOf(pages, kind), n + 1, Begin(start), familyId) == None
  {
    hide DecodeBlock, Encode, EncodeAll, Laid, Ascending, DecodeUpTo;
    OneMoreBlock(pages, n + 1, kind, Begin(start), After(pages[..n], n, kind), familyId);
    assert pages[..n][n - 1] == pages[n - 1];
    BadGapRaises(After(pages[..n], n, kind), pages[n], n, |pages|, kind, n + 1 == |pages|, familyId);
  }

  lemma FirstBadGap(pages: seq<Page>) returns (n: nat)
    requires AllFit(pages) && !Ascending(pages)
    ensures 0 < n < |pages| && Ascending(pages[..n]) && !GapOk(pages[n - 1], pages[n])
  {
    hide GapOk;
    n := 1;
    while n < |pages| && GapOk(pages[n - 1], pages[n])
      invariant 1 <= n && (n <= |pages| || |pages| == 0)
      invariant forall i :: 0 < i < n && i < |pages| ==> GapOk(pages[i - 1], pages[i])
    {
      n := n + 1;
    }
  }

  // ---------------------------------------------------------------- other families

  /** The padding between the pages. */
  function Gaps(pages: seq<Page>, n: nat): nat
    requires n <= |pages| && Ascending(pages)
  {
    if n < 2 then 0
    else
      assert GapOk(pages[n - 2], pages[n - 1]);
      Gaps(pages, n - 1) + (pages[n - 1].addr - (pages[n - 2].addr + 256))
  }

  lemma OtherFamilyBlock(s: State, page: Page, no: nat, total: nat, kind: Kind, last: bool, familyId: nat)
    requires PageFits(page) && no < 0x1_0000_0000 && total < 0x1_0000_0000
    requires familyId != 0 && familyId != kind.family
    requires (s.next == UNREAD && s.family == UNREAD)
      || (0 <= s.next <= page.addr <= s.next + MAX_PADDING && (page.addr - s.next) % 4 == 0 && s.family == kind.family)
    ensures var t := DecodeBlock(s, Encode(page, no, total, kind), last, familyId);
      t.Some? && t.value.next == page.addr + 256 && t.value.family == kind.family && t.value.start == s.start
      && t.value.out == s.out + Zeros(if s.next == UNREAD then 0 else page.addr - s.next)
  {
    hide Field, Encode;
    EncodedFields(page, no, total, kind);
    FlagsReadBack(kind);
  }

  /** One block more of a file. */
  lemma OneMoreBlock(pages: seq<Page>, n: nat, kind: Kind, s: State, t: State, familyId: nat)
    requires AllFit(pages) && 0 < n <= |pages| && DecodeUpTo(FileOf(pages, kind), n - 1, s, familyId) == Some(t)
    ensures DecodeUpTo(FileOf(pages, kind), n, s, familyId)
      == DecodeBlock(t, Encode(pages[n - 1], n - 1, |pages|, kind), n == |pages|, familyId)
  {
    hide DecodeBlock, Encode, EncodeAll;
    EncodeAllSlice(pages, n, |pages|, |pages|, kind);
  }

  /** What the decoder has after some pages of another family. */
  predicate LeftOut(t: State, pages: seq<Page>, n: nat, kind: Kind, start: nat)
    requires n <= |pages| && Ascending(pages)
  {
    && t.start == start && t.out == Zeros(Gaps(pages, n))
    && if n == 0 then t == Begin(start) else t.next == pages[n - 1].addr + 256 && t.family == kind.family
  }

  /** Decoding for another family leaves out the data, keeps the padding, and does not move the start. */
  lemma {:induction false} OtherFamilyLeftOut(pages: seq<Page>, n: nat, kind: Kind, start: nat, familyId: nat)
    requires AllFit(pages) && n <= |pages| && Ascending(pages) && familyId != 0 && familyId != kind.family
    ensures var t := DecodeUpTo(FileOf(pages, kind), n, Begin(start), familyId);
      t.Some? && LeftOut(t.value, pages, n, kind, start)
  {
    if n > 0 {
      hide DecodeBlock, Encode, EncodeAll, DecodeUpTo, LeftOut;
      OtherFamilyLeftOut(pages, n - 1, kind, start, familyId);
      var s := DecodeUpTo(FileOf(pages, kind), n - 1, Begin(start), familyId).value;
      OneMoreBlock(pages, n, kind, Begin(start), s, familyId);
      LeftOutNext(s, pages, n, kind, start, familyId);
    }
  }

  lemma LeftOutNext(s: State, pages: seq<Page>, n: nat, kind: Kind, start: nat, familyId: nat)
    requires AllFit(pages) && 0 < n <= |pages| && Ascending(pages) && familyId != 0 && familyId != kind.family
    requires LeftOut(s, pages, n - 1, kind, start)
    ensures var t := DecodeBlock(s, Encode(pages[n - 1], n - 1, |pages|, kind), n == |pages|, familyId);
      t.Some? && LeftOut(t.value, pages, n, kind, start)
  {
    hide DecodeBlock, Encode;
    if n > 1 {
      assert GapOk(pages[n - 2], pages[n - 1]);
    }
    OtherFamilyBlock(s, pages[n - 1], n - 1, |pages|, kind, n == |pages|, familyId);
    Uf2Convert.ZerosJoin(Gaps(pages, n - 1), Gaps(pages, n) - Gaps(pages, n - 1));
  }

  /** A block of another family than the one before starts at its own address, without padding. Decoding
      for all families, its data is appended; but if it is the last block, a file of several families
      gives nothing at all, from address 0. */
  lemma ChangeOfFamily(s: State, page: Page, no: nat, total: nat, kind: Kind, last: bool)
    requires PageFits(page) && no < 0x1_0000_0000 && total < 0x1_0000_0000
    requires s.next >= 0 && s.family >= 0 && kind.family != 0 && s.family != kind.family && s.found == {s.family as nat}
    ensures var found := {s.family as nat, kind.family as nat};
      DecodeBlock(s, Encode(page, no, total, kind), last, 0) == Some(
        if last then State(page.addr + 256, kind.family, 0, found, [])
        else State(page.addr + 256, kind.family, page.addr, found, s.out + page.bytes))
  {
    hide Field, Encode;
    EncodedFields(page, no, total, kind);
    FlagsReadBack(kind);
    assert s.out + Zeros(0) + page.bytes == s.out + page.bytes;
    assert s.found + {kind.family as nat} == {s.family as nat, kind.family as nat};
    assert |{s.family as nat, kind.family as nat}| == 2;
  }

  /** A block that is not meant for flash changes nothing; one with too much data raises. */
  lemma OtherBlocks(s: State, block: seq<byte>, last: bool, familyId: nat)
    requires |block| == 512 && !BadMagic(block)
    ensures Field(block, 2) % 2 == 1 ==> DecodeBlock(s, block, last, familyId) == Some(s)
    ensures Field(block, 2) % 2 == 0 && Field(block, 4) > 476 ==> DecodeBlock(s, block, last, familyId) == None
  {
    hide Field;
  }

  /** A block that names no family goes on where the one before it ended, and is data for a reader of all
      families alone, whatever stands where a family would. */
  lemma UntaggedBlock(s: State, block: seq<byte>, familyId: nat)
    requires |block| == 512 && !BadMagic(block) && Field(block, 2) == 0 && Field(block, 4) <= 476
    requires s.next == Field(block, 3)
    ensures DecodeBlock(s, block, false, familyId) == Some(
      s.(next := s.next + Field(block, 4),
         out := if familyId == 0 then s.out + block[32..32 + Field(block, 4)] else s.out))
  {
    hide Field;
    assert s.out + Zeros(0) == s.out;
  }

  /** The words that mark a block, as they stand in the file. */
  lemma MarkingWords()
    ensures Word(MAGIC_START0) == [0x55, 0x46, 0x32, 0x0A] && Word(MAGIC_START1) == [0x57, 0x51, 0x5D, 0x9E]
    ensures Word(MAGIC_END) == [0x30, 0x6F, 0xB1, 0x0A]
    ensures Word(FAMILY_FLAG) == [0x00, 0x20, 0x00, 0x00] && Word(DEVICE_FLAG) == [0x00, 0x80, 0x00, 0x00]
  {
    hide Word;
    Four(MAGIC_START0);
    Four(MAGIC_START1);
    Four(MAGIC_END);
    Four(FAMILY_FLAG);
    Four(DEVICE_FLAG);
  }

  lemma Four(v: nat)
    ensures Word(v) == [v % 256, v / 256 % 256, v / 256 / 256 % 256, v / 256 / 256 / 256 % 256]
  {
    var a, b, c := v / 256, v / 256 / 256, v / 256 / 256 / 256;
    assert LittleEndian(c, 1) == [c % 256] + LittleEndian(c / 256, 0) == [c % 256];
    assert LittleEndian(b, 2) == [b % 256] + LittleEndian(c, 1);
    assert LittleEndian(a, 3) == [a % 256] + LittleEndian(b, 2);
  }
}
