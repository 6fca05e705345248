/** The converters of util/uf2conv.py as they run: loops over blocks, lines and bytes, each computing
    the function that specifies it. */
module Uf2Convert {
  import opened Keyboard
  import opened Bytes
  import opened Uf2
  import opened Uf2Producers

  const LIMIT := 0x1_0000_0000

  // ---------------------------------------------------------------- decoding

  lemma ZerosJoin(n: nat, m: nat)
    ensures Zeros(n) + Zeros(m) == Zeros(n + m)
  {
  }

  /** The padding loop: four zero bytes at a time. */
  method PadWords(out: seq<byte>, padding: nat) returns (r: seq<byte>)
    requires padding % 4 == 0
    ensures r == out + Zeros(padding)
  {
    r := out;
    var left := padding;
    while left > 0
      invariant 0 <= left <= padding && left % 4 == 0 && r == out + Zeros(padding - left)
    {
      left := left - 4;
      r := r + [0, 0, 0, 0];
      ZerosJoin(padding - left - 4, 4);
      assert Zeros(4) == [0, 0, 0, 0];
    }
  }

  lemma {:induction false} FailureStays(buf: seq<byte>, n: nat, m: nat, s: State, familyId: nat)
    requires n <= m && 512 * m <= |buf| && DecodeUpTo(buf, n, s, familyId).None?
    ensures DecodeUpTo(buf, m, s, familyId).None?
  {
    if n < m {
      FailureStays(buf, n, m - 1, s, familyId);
    }
  }

  /** One pass through the body of the block loop. */
  method ConvertBlock(s: State, block: seq<byte>, last: bool, familyId: nat) returns (r: Option<State>)
    requires |block| == 512
    ensures r == DecodeBlock(s, block, last, familyId)
  {
    var flags, newAddr, dataLen, family := Field(block, 2), Field(block, 3), Field(block, 4), Field(block, 7);
    if BadMagic(block) {
      return None;
    }
    if flags % 2 == 1 {
      return Some(s);
    }
    if dataLen > 476 {
      return None;
    }
    var current, next, start, found := s.family, s.next, s.start, s.found;
    var tagged := Flag(flags, FAMILY_FLAG);
    if tagged && current == -1 {
      current := family;
    }
    if next == -1 || (tagged && family != current) {
      current := family;
      next := newAddr;
      if familyId == 0 || familyId == family {
        start := newAddr;
      }
    }
    var padding := newAddr - next;
    if padding < 0 || padding > MAX_PADDING || padding % 4 != 0 {
      return None;
    }
    var out := PadWords(s.out, padding);
    assert out == out + [];
    if familyId == 0 || (tagged && familyId == family) {
      out := out + block[32..32 + dataLen];
    }
    next := newAddr + dataLen;
    if tagged {
      found := found + {family};
    }
    if last && |found| > 1 && familyId == 0 {
      out := [];
      start := 0;
    }
    return Some(State(next, current, start, found, out));
  }

  method ConvertFromUf2(buf: seq<byte>, appStart: nat, familyId: nat) returns (r: Option<(seq<byte>, nat)>)
    ensures r == FromUf2(buf, appStart, familyId)
  {
    hide DecodeBlock;
    var numBlocks := |buf| / 512;
    var init := State(-1, -1, appStart, {}, []);
    var s, blockNo := init, 0;
    while blockNo < numBlocks
      invariant blockNo <= numBlocks && DecodeUpTo(buf, blockNo, init, familyId) == Some(s)
    {
      var t := ConvertBlock(s, buf[512 * blockNo..512 * (blockNo + 1)], blockNo == numBlocks - 1, familyId);
      if t.None? {
        FailureStays(buf, blockNo + 1, numBlocks, init, familyId);
        return None;
      }
      s, blockNo := t.value, blockNo + 1;
    }
    return Some((s.out, s.start));
  }

  // ---------------------------------------------------------------- encoding a binary

  method PadChunk(chunk: seq<byte>) returns (r: seq<byte>)
    requires |chunk| <= 256
    ensures r == chunk + Zeros(256 - |chunk|)
  {
    r := chunk;
    while |r| < 256
      invariant |chunk| <= |r| <= 256 && r == chunk + Zeros(|r| - |chunk|)
    {
      ZerosJoin(|r| - |chunk|, 1);
      r := r + [0];
    }
  }

  method TakeChunk(content: seq<byte>, blockNo: nat) returns (chunk: seq<byte>)
    requires blockNo < Blocks(content)
    ensures chunk == Chunk(content, blockNo)
  {
    var ptr := 256 * blockNo;
    chunk := PadChunk(content[ptr..if ptr + 256 <= |content| then ptr + 256 else |content|]);
  }

  method ConvertToUf2(content: seq<byte>, appStart: nat, family: uint32) returns (r: Option<seq<byte>>)
    ensures r == ToUf2(content, appStart, family)
  {
    hide Encode, Chunk, PagesOf;
    var numBlocks := Blocks(content);
    var kind := Kind(family, 0);
    ghost var pages := PagesOf(content, appStart, numBlocks);
    var out, blockNo := [], 0;
    while blockNo < numBlocks
      invariant blockNo <= numBlocks && out == EncodeAll(pages, blockNo, numBlocks, kind)
      invariant blockNo > 0 ==> appStart + 256 * (blockNo - 1) < LIMIT && numBlocks < LIMIT
    {
      var ptr := 256 * blockNo;
      if ptr + appStart >= LIMIT || numBlocks >= LIMIT {
        return None;
      }
      var chunk := TakeChunk(content, blockNo);
      out := out + Encode(Page(ptr + appStart, chunk), blockNo, numBlocks, kind);
      blockNo := blockNo + 1;
    }
    return Some(out);
  }

  // ---------------------------------------------------------------- encoding HEX lines

  predicate WholePages(pages: seq<Page>)
  {
    forall i :: 0 <= i < |pages| ==> |pages[i].bytes| == 256
  }

  /** `Paged` with the data that one record adds. */
  lemma PagedSnoc(data: seq<Datum>, d: Datum)
    ensures Paged(data + [d]) == AddByte(Paged(data), d)
  {
    assert (data + [d])[..|data|] == data;
  }

  /** The body of the byte loop: a new page if the address left the current one, then the byte. */
  method PutByte(blocks: seq<Page>, addr: nat, value: byte) returns (r: seq<Page>)
    requires WholePages(blocks)
    ensures r == AddByte(blocks, Datum(addr, value))
  {
    r := blocks;
    if r == [] || r[|r| - 1].addr != PageOf(addr) {
      r := r + [Page(PageOf(addr), Zeros(256))];
    }
    var page := r[|r| - 1];
    r := r[|r| - 1 := page.(bytes := page.bytes[addr % 256 := value])];
  }

  /** The byte loop over one data record. */
  method AddRecord(blocks: seq<Page>, rec: seq<byte>, addr: nat, ghost data: seq<Datum>) returns (r: seq<Page>)
    requires |rec| >= 4 && blocks == Paged(data)
    ensures r == Paged(data + RecordData(rec, addr, DataCount(rec)))
  {
    hide AddByte;
    r := blocks;
    var i := 4;
    assert data + [] == data;
    while i < |rec| - 1
      invariant 4 <= i <= 4 + DataCount(rec)
      invariant r == Paged(data + RecordData(rec, addr, i - 4))
    {
      var at := addr + (i - 4);
      PagedSnoc(data + RecordData(rec, addr, i - 4), Datum(at, rec[i]));
      r := PutByte(r, at, rec[i]);
      i := i + 1;
      assert data + RecordData(rec, addr, i - 4) == data + RecordData(rec, addr, i - 5) + [Datum(at, rec[i - 1])];
    }
  }

  method ReadRecord(line: string) returns (r: Option<seq<byte>>)
    requires line != ""
    ensures r == ParseRecord(line, (|line| - 1) / 2)
  {
    var rec, i: nat := [], 1;
    while i < |line| - 1
      invariant i % 2 == 1 && i <= |line| + 1 && i / 2 <= (|line| - 1) / 2
      invariant ParseRecord(line, i / 2) == Some(rec)
    {
      var value := HexPair(line[i], line[i + 1]);
      if value.None? {
        ParseFails(line, i / 2 + 1, (|line| - 1) / 2);
        return None;
      }
      rec := rec + [value.value];
      i := i + 2;
    }
    return Some(rec);
  }

  lemma {:induction false} ParseFails(line: string, n: nat, m: nat)
    requires n <= m && 1 + 2 * m <= |line| && ParseRecord(line, n).None?
    ensures ParseRecord(line, m).None?
  {
    if n < m {
      ParseFails(line, n, m - 1);
    }
  }

  lemma {:induction false} GatherStays(lines: seq<string>, n: nat, m: nat)
    requires n <= m <= |lines|
    requires GatherAll(lines[..n]).None? || GatherAll(lines[..n]).value.stopped
    ensures GatherAll(lines[..m]) == GatherAll(lines[..n])
  {
    if n < m {
      GatherStays(lines, n, m - 1);
      assert lines[..m][..m - 1] == lines[..m - 1];
    }
  }

  method ConvertFromHexToUf2(lines: seq<string>, kind: Kind) returns (r: Option<seq<byte>>)
    ensures r == HexToUf2(lines, kind)
  {
    hide AddByte, HexPair;
    var upper: nat, blocks := 0, [];
    ghost var data: seq<Datum> := [];
    var n := 0;
    assert lines[..|lines|] == lines;
    while n < |lines|
      invariant n <= |lines| && blocks == Paged(data)
      invariant GatherAll(lines[..n]) == Some(Gathered(upper, data, false))
    {
      var line := lines[n];
      assert lines[..n + 1][..n] == lines[..n];
      n := n + 1;
      if line == "" {
        GatherStays(lines, n, |lines|);
        return None;
      }
      if line[0] == ':' {
        var record := ReadRecord(line);
        if record.None? || |record.value| < 4 || (record.value[3] in {2, 4} && |record.value| < 6) {
          GatherStays(lines, n, |lines|);
          return None;
        }
        var rec := record.value;
        if rec[3] == 4 {
          upper := Pair(rec[4], rec[5]) * 0x1_0000;
        } else if rec[3] == 2 {
          upper := Pair(rec[4], rec[5]) * 16;
        } else if rec[3] == 1 {
          GatherStays(lines, n, |lines|);
          break;
        } else if rec[3] == 0 {
          var addr := upper + Pair(rec[1], rec[2]);
          blocks := AddRecord(blocks, rec, addr, data);
          data := data + RecordData(rec, addr, DataCount(rec));
        }
      }
    }
    assert GatherAll(lines).Some? && GatherAll(lines).value.data == data;
    r := EncodeBlocks(blocks, kind);
  }

  /** The final loop; packing raises where a field does not fit. */
  method EncodeBlocks(blocks: seq<Page>, kind: Kind) returns (r: Option<seq<byte>>)
    requires WholePages(blocks)
    ensures r == if PagesPack(blocks) then Some(EncodeAll(blocks, |blocks|, |blocks|, kind)) else None
  {
    hide Encode;
    var out, i := [], 0;
    while i < |blocks|
      invariant i <= |blocks| && out == EncodeAll(blocks, i, |blocks|, kind)
      invariant i > 0 ==> |blocks| < LIMIT
      invariant forall j :: 0 <= j < i ==> blocks[j].addr < LIMIT
    {
      if blocks[i].addr >= LIMIT || |blocks| >= LIMIT {
        return None;
      }
      out := out + Encode(blocks[i], i, |blocks|, kind);
      i := i + 1;
    }
    return Some(out);
  }
}
