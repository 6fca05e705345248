/** The two producers of UF2 images (util/uf2conv.py), and that decoding gives back what went in. */
module Uf2Producers {
  import opened Keyboard
  import opened Arithmetic
  import opened Bytes
  import opened Uf2

  // ---------------------------------------------------------------- from a flat binary

  function Blocks(content: seq<byte>): nat { (|content| + 255) / 256 }

  function Chunk(content: seq<byte>, k: nat): (r: seq<byte>)
    requires k < Blocks(content)
    ensures |r| == 256
  {
    if 256 * k + 256 <= |content| then content[256 * k..256 * k + 256]
    else content[256 * k..] + Zeros(256 * k + 256 - |content|)
  }

  function PagesOf(content: seq<byte>, start: nat, n: nat): (r: seq<Page>)
    requires n <= Blocks(content)
    ensures |r| == n && forall k :: 0 <= k < n ==> r[k] == Page(start + 256 * k, Chunk(content, k))
  {
    if n == 0 then [] else PagesOf(content, start, n - 1) + [Page(start + 256 * (n - 1), Chunk(content, n - 1))]
  }

  /** Packing raises when an address or the block count needs more than 32 bits. */
  predicate Packable(content: seq<byte>, start: nat)
  {
    content == [] || start + 256 * (Blocks(content) - 1) < 0x1_0000_0000
  }

  /** `convert_to_uf2`. */
  function ToUf2(content: seq<byte>, start: nat, family: uint32): Option<seq<byte>>
  {
    var n := Blocks(content);
    if !Packable(content, start) then None
    else Some(EncodeAll(PagesOf(content, start, n), n, n, Kind(family, 0)))
  }

  /** The content filled up with zeros to a whole number of pages. */
  function Padded(content: seq<byte>): seq<byte>
  {
    content + Zeros(256 * Blocks(content) - |content|)
  }

  lemma ChunkOfPadded(content: seq<byte>, k: nat)
    requires k < Blocks(content)
    ensures |Padded(content)| == 256 * Blocks(content)
    ensures Chunk(content, k) == Padded(content)[256 * k..256 * (k + 1)]
  {
    if 256 * k + 256 > |content| {
      assert k == Blocks(content) - 1;
    }
  }

  lemma {:induction false} PagesLaid(content: seq<byte>, start: nat, n: nat)
    requires n <= Blocks(content) && Packable(content, start)
    ensures Ascending(PagesOf(content, start, Blocks(content)))
    ensures Laid(PagesOf(content, start, Blocks(content)), n) == Padded(content)[..256 * n]
  {
    var pages := PagesOf(content, start, Blocks(content));
    forall i | 0 <= i < |pages| ensures PageFits(pages[i]) { }
    if n > 0 {
      hide PagesOf, Chunk, Padded;
      PagesLaid(content, start, n - 1);
      ChunkOfPadded(content, n - 1);
      assert n > 1 ==> Zeros(pages[n - 1].addr - (pages[n - 2].addr + 256)) == [];
      assert Padded(content)[..256 * (n - 1)] + Padded(content)[256 * (n - 1)..256 * n] == Padded(content)[..256 * n];
    }
  }

  /** Round trip: decoding an encoded binary gives it back, filled up to whole pages, with the start
      address it was encoded for. */
  lemma BinaryRoundTrip(content: seq<byte>, start: nat, family: uint32, start': nat, familyId: nat)
    requires Packable(content, start) && (familyId == 0 || familyId == family)
    ensures ToUf2(content, start, family).Some?
    ensures FromUf2(ToUf2(content, start, family).value, start', familyId)
      == Some((Padded(content), if content == [] then start' else start))
  {
    hide FromUf2, EncodeAll, PagesOf, Laid;
    var n := Blocks(content);
    PagesLaid(content, start, n);
    assert Padded(content)[..256 * n] == Padded(content);
    DecodeUndoesEncode(PagesOf(content, start, n), Kind(family, 0), start', familyId);
  }

  // ---------------------------------------------------------------- from HEX records

  /** One data byte and its address. */
  datatype Datum = Datum(addr: nat, value: byte)

  /** The page an address lies in (`addr & ~0xff`). */
  function PageOf(addr: nat): nat { 256 * (addr / 256) }

  /** One data byte: into the current page, or into a new one if the page changes. */
  function AddByte(pages: seq<Page>, d: Datum): (r: seq<Page>)
    requires forall i :: 0 <= i < |pages| ==> |pages[i].bytes| == 256
    ensures forall i :: 0 <= i < |r| ==> |r[i].bytes| == 256
  {
    if pages == [] || pages[|pages| - 1].addr != PageOf(d.addr) then
      pages + [Page(PageOf(d.addr), Zeros(256)[d.addr % 256 := d.value])]
    else
      var page := pages[|pages| - 1];
      pages[|pages| - 1 := page.(bytes := page.bytes[d.addr % 256 := d.value])]
  }

  function Paged(data: seq<Datum>): (r: seq<Page>)
    ensures forall i :: 0 <= i < |r| ==> |r[i].bytes| == 256
  {
    if data == [] then [] else AddByte(Paged(data[..|data| - 1]), data[|data| - 1])
  }

  /** The data bytes of one record (`rec[4:-1]`) from an address on. */
  function RecordData(rec: seq<byte>, addr: nat, n: nat): (r: seq<Datum>)
    requires 4 + n <= |rec|
  {
    if n == 0 then [] else RecordData(rec, addr, n - 1) + [Datum(addr + (n - 1), rec[4 + (n - 1)])]
  }

  /** What the line loop has gathered: the upper address, the data, and whether to stop. */
  datatype Gathered = Gathered(upper: nat, data: seq<Datum>, stopped: bool)

  function DataCount(rec: seq<byte>): nat { if |rec| < 5 then 0 else |rec| - 5 }

  function Pair(high: byte, low: byte): nat { 256 * high as int + low as int }

  /** One record: extended address, end, data, or one of a type that is passed over. A record too
      short for its type raises. */
  function Gather(g: Gathered, rec: seq<byte>): Option<Gathered>
  {
    if |rec| < 4 then None
    else if rec[3] == 4 then if |rec| < 6 then None else Some(g.(upper := Pair(rec[4], rec[5]) * 0x1_0000))
    else if rec[3] == 2 then if |rec| < 6 then None else Some(g.(upper := Pair(rec[4], rec[5]) * 16))
    else if rec[3] == 1 then Some(g.(stopped := true))
    else if rec[3] == 0 then
      Some(g.(data := g.data + RecordData(rec, g.upper + Pair(rec[1], rec[2]), DataCount(rec))))
    else Some(g)
  }

  /** One line of the text, which raises if it is empty; lines with no colon in front are passed over. */
  function GatherLine(g: Gathered, line: string): Option<Gathered>
  {
    if g.stopped then Some(g)
    else if line == "" then None
    else if line[0] != ':' then Some(g)
    else
      match ParseRecord(line, (|line| - 1) / 2)
      case None => None
      case Some(rec) => Gather(g, rec)
  }

  function GatherAll(lines: seq<string>): Option<Gathered>
  {
    if lines == [] then Some(Gathered(0, [], false))
    else
      match GatherAll(lines[..|lines| - 1])
      case None => None
      case Some(g) => GatherLine(g, lines[|lines| - 1])
  }

  /** `convert_from_hex_to_uf2` on the lines of the text. Packing raises when an address or the block
      count needs more than 32 bits. */
  function HexToUf2(lines: seq<string>, kind: Kind): Option<seq<byte>>
  {
    match GatherAll(lines)
    case None => None
    case Some(g) =>
      var pages := Paged(g.data);
      if PagesPack(pages) then Some(EncodeAll(pages, |pages|, |pages|, kind)) else None
  }

  predicate PagesPack(pages: seq<Page>)
  {
    |pages| < 0x1_0000_0000 && forall i :: 0 <= i < |pages| ==> pages[i].addr < 0x1_0000_0000
  }

  // ---------------------------------------------------------------- the text of a record

  function HexDigit(c: char): (r: Option<nat>)
    ensures r.Some? ==> r.value < 16
  {
    if '0' <= c <= '9' then Some((c - '0') as int)
    else if 'a' <= c <= 'f' then Some((c - 'a') as int + 10)
    else if 'A' <= c <= 'F' then Some((c - 'A') as int + 10)
    else None
  }

  /** Two characters read as a base-16 number, of which one may be a carriage return. Other characters
      are kept out by `is_hex`. */
  function HexPair(a: char, b: char): Option<byte>
  {
    match (HexDigit(a), HexDigit(b))
    case (Some(high), Some(low)) => Some(16 * high + low)
    case (Some(digit), None) => if b == '\r' then Some(digit) else None
    case (None, Some(digit)) => if a == '\r' then Some(digit) else None
    case (None, None) => None
  }

  /** The first `n` pairs of characters behind the colon. */
  function ParseRecord(line: string, n: nat): (r: Option<seq<byte>>)
    requires 1 + 2 * n <= |line|
    ensures r.Some? ==> |r.value| == n
  {
    if n == 0 then Some([])
    else
      match (ParseRecord(line, n - 1), HexPair(line[2 * n - 1], line[2 * n]))
      case (Some(rec), Some(value)) => Some(rec + [value])
      case _ => None
  }

  function Digit(d: nat): (c: char)
    requires d < 16
    ensures HexDigit(c) == Some(d)
  {
    if d < 10 then '0' + d as char else 'A' + (d - 10) as char
  }

  /** A record written out the standard way. */
  function HexLine(rec: seq<byte>): (r: string)
    ensures |r| == 1 + 2 * |rec| && r[0] == ':'
  {
    if rec == [] then ":"
    else HexLine(rec[..|rec| - 1]) + [Digit(rec[|rec| - 1] / 16), Digit(rec[|rec| - 1] % 16)]
  }

  lemma HexPairReadsBack(value: byte)
    ensures HexPair(Digit(value / 16), Digit(value % 16)) == Some(value)
  {
    hide HexDigit;
  }

  lemma {:induction false} RecordReadsBack(rec: seq<byte>, line: string)
    requires HexLine(rec) <= line
    ensures ParseRecord(line, |rec|) == Some(rec)
  {
    hide HexPair;
    if rec != [] {
      var n := |rec|;
      var init := rec[..n - 1];
      assert HexLine(init) <= HexLine(rec) &&
        HexLine(rec)[2 * n - 1..] == [Digit(rec[n - 1] / 16), Digit(rec[n - 1] % 16)];
      assert forall i :: 0 <= i < |HexLine(rec)| ==> line[i] == HexLine(rec)[i];
      RecordReadsBack(init, line);
      assert line[2 * n - 1] == HexLine(rec)[2 * n - 1..][0] && line[2 * n] == HexLine(rec)[2 * n - 1..][1];
      HexPairReadsBack(rec[n - 1]);
      assert init + [rec[n - 1]] == rec;
    }
  }

  /** A line in the standard form, ended in either style, gives its record to the loop. */
  lemma LineReadsBack(g: Gathered, rec: seq<byte>, line: string)
    requires line == HexLine(rec) || line == HexLine(rec) + "\r"
    ensures GatherLine(g, line) == if g.stopped then Some(g) else Gather(g, rec)
  {
    hide Gather, ParseRecord, HexLine;
    assert HexLine(rec) <= line;
    RecordReadsBack(rec, line);
    assert line[0] == ':' && (|line| - 1) / 2 == |rec|;
  }

  /** Addresses rise, stay in 32 bits, and no gap between pages is over the padding limit. */
  predicate Rising(data: seq<Datum>)
  {
    && (forall i :: 0 <= i < |data| ==> data[i].addr < 0x1_0000_0000)
    && forall i :: 0 < i < |data| ==>
         data[i - 1].addr < data[i].addr && PageOf(data[i].addr) <= PageOf(data[i - 1].addr) + 256 + MAX_PADDING
  }

  /** The value the data gives an address, zero where it gives none. */
  function ValueAt(data: seq<Datum>, a: nat): byte
  {
    if data == [] then 0
    else if data[|data| - 1].addr == a then data[|data| - 1].value
    else ValueAt(data[..|data| - 1], a)
  }

  /** The flat, zero-filled memory image from the first page to the last. */
  function ImageOf(data: seq<Datum>): (r: seq<byte>)
    requires Rising(data)
  {
    if data == [] then []
    else
      RisingPages(data, |data| - 1);
      var base := PageOf(data[0].addr);
      seq<byte>(PageOf(data[|data| - 1].addr) + 256 - base, (j: nat) => ValueAt(data, base + j))
  }

  lemma {:induction false} RisingPages(data: seq<Datum>, n: nat)
    requires Rising(data) && n < |data|
    ensures data[0].addr <= data[n].addr && PageOf(data[0].addr) <= PageOf(data[n].addr)
    ensures forall i :: 0 <= i < n ==> data[i].addr < data[n].addr
  {
    if n > 0 {
      RisingPages(data, n - 1);
      PageMonotone(data[n - 1].addr, data[n].addr);
    }
  }

  lemma PageMonotone(a: nat, b: nat)
    requires a <= b
    ensures PageOf(a) <= PageOf(b) && PageOf(a) % 256 == 0 && PageOf(b) % 256 == 0
    ensures PageOf(a) == PageOf(b) || PageOf(a) + 256 <= PageOf(b)
  {
  }

  lemma {:induction false} UnwrittenIsZero(data: seq<Datum>, a: nat)
    requires forall i :: 0 <= i < |data| ==> data[i].addr != a
    ensures ValueAt(data, a) == 0
  {
    if data != [] {
      UnwrittenIsZero(data[..|data| - 1], a);
    }
  }

  /** What paging rising data amounts to. */
  predicate PagedOk(data: seq<Datum>)
    requires Rising(data) && data != []
  {
    var pages := Paged(data);
    && pages != [] && Ascending(pages)
    && pages[0].addr == PageOf(data[0].addr) && pages[|pages| - 1].addr == PageOf(data[|data| - 1].addr)
    && Laid(pages, |pages|) == ImageOf(data)
  }

  lemma {:induction false} RisingIsPaged(data: seq<Datum>)
    requires Rising(data) && data != []
    ensures PagedOk(data)
  {
    hide PagedOk;
    var n := |data| - 1;
    var init, d := data[..n], data[n];
    assert Rising(init);
    assert data == init + [d];
    if init == [] {
      FirstByte(data);
    } else {
      RisingIsPaged(init);
      RisingPages(data, n);
      PageMonotone(init[n - 1].addr, d.addr);
      if PageOf(d.addr) == PageOf(init[n - 1].addr) {
        SamePage(init, d, data);
      } else {
        NewPage(init, d, data);
      }
    }
  }

  lemma FirstByte(data: seq<Datum>)
    requires Rising(data) && |data| == 1
    ensures PagedOk(data)
  {
    var d := data[0];
    assert Paged(data[..0]) == [];
    var page := Page(PageOf(d.addr), Zeros(256)[d.addr % 256 := d.value]);
    assert Paged(data) == [page];
    assert Laid([page], 1) == page.bytes;
    assert data[..|data| - 1] == [];
    forall j: nat | j < 256 ensures page.bytes[j] == ValueAt(data, page.addr + j) {
      assert ValueAt([], page.addr + j) == 0;
      assert page.addr + j == d.addr <==> j == d.addr % 256;
    }
  }

  lemma SamePage(init: seq<Datum>, d: Datum, data: seq<Datum>)
    requires init != [] && data == init + [d] && Rising(data) && Rising(init) && PagedOk(init)
    requires PageOf(d.addr) == PageOf(init[|init| - 1].addr) && forall i :: 0 <= i < |init| ==> init[i].addr < d.addr
    ensures PagedOk(data)
  {
    hide Ascending, ImageOf, Laid;
    var old', pages := Paged(init), Paged(data);
    assert data[..|data| - 1] == init;
    var n := |old'|;
    var page := old'[n - 1];
    assert pages == old'[n - 1 := page.(bytes := page.bytes[d.addr % 256 := d.value])];
    LastPageChanged(old', pages);
    LastPageLaid(old', pages, d.addr % 256, d.value);
    SamePageLaid(init, d, data);
  }

  lemma SamePageLaid(init: seq<Datum>, d: Datum, data: seq<Datum>)
    requires init != [] && data == init + [d] && Rising(data) && Rising(init)
    requires PageOf(d.addr) == PageOf(init[|init| - 1].addr)
    ensures |ImageOf(init)| >= 256
    ensures ImageOf(init)[|ImageOf(init)| - 256 + d.addr % 256 := d.value] == ImageOf(data)
  {
    RisingPages(init, |init| - 1);
    UnwrittenElsewhere(init, d, data);
    assert data[0] == init[0];
  }

  lemma UnwrittenElsewhere(init: seq<Datum>, d: Datum, data: seq<Datum>)
    requires data == init + [d]
    ensures forall a: nat :: a != d.addr ==> ValueAt(data, a) == ValueAt(init, a)
    ensures ValueAt(data, d.addr) == d.value
  {
    assert data[..|data| - 1] == init;
  }

  lemma LastPageChanged(old': seq<Page>, pages: seq<Page>)
    requires Ascending(old') && old' != [] && |pages| == |old'| && pages[..|old'| - 1] == old'[..|old'| - 1]
    requires pages[|old'| - 1].addr == old'[|old'| - 1].addr && |pages[|old'| - 1].bytes| == 256
    ensures Ascending(pages)
  {
    forall i | 0 <= i < |pages| ensures PageFits(pages[i]) && pages[i].addr == old'[i].addr {
      assert i < |old'| - 1 ==> pages[i] == pages[..|old'| - 1][i];
    }
    forall i | 0 < i < |pages| ensures GapOk(pages[i - 1], pages[i]) {
      assert GapOk(old'[i - 1], old'[i]);
    }
  }

  lemma {:induction false} LaidSame(a: seq<Page>, b: seq<Page>, n: nat)
    requires Ascending(a) && Ascending(b) && n <= |a| && n <= |b| && a[..n] == b[..n]
    ensures Laid(a, n) == Laid(b, n)
  {
    if n > 0 {
      assert a[..n][..n - 1] == a[..n - 1] && b[..n][..n - 1] == b[..n - 1];
      LaidSame(a, b, n - 1);
      assert a[n - 1] == a[..n][n - 1] && b[n - 1] == b[..n][n - 1];
      assert n > 1 ==> a[n - 2] == a[..n][n - 2] && b[n - 2] == b[..n][n - 2];
    }
  }

  lemma LastPageLaid(old': seq<Page>, pages: seq<Page>, offset: nat, value: byte)
    requires Ascending(old') && Ascending(pages) && old' != [] && offset < 256
    requires pages == old'[|old'| - 1 := old'[|old'| - 1].(bytes := old'[|old'| - 1].bytes[offset := value])]
    ensures |Laid(old', |old'|)| >= 256
    ensures Laid(pages, |pages|) == Laid(old', |old'|)[|Laid(old', |old'|)| - 256 + offset := value]
  {
    var n := |old'|;
    assert pages[..n - 1] == old'[..n - 1];
    LaidSame(old', pages, n - 1);
  }

  lemma NewPage(init: seq<Datum>, d: Datum, data: seq<Datum>)
    requires init != [] && data == init + [d] && Rising(data) && Rising(init) && PagedOk(init)
    requires PageOf(init[|init| - 1].addr) + 256 <= PageOf(d.addr)
    requires forall i :: 0 <= i < |init| ==> init[i].addr < d.addr
    ensures PagedOk(data)
  {
    hide Laid, ImageOf, Ascending, GapOk;
    var old', pages := Paged(init), Paged(data);
    assert data[..|data| - 1] == init;
    var n := |old'|;
    var page := Page(PageOf(d.addr), Zeros(256)[d.addr % 256 := d.value]);
    assert pages == old' + [page];
    assert data[|data| - 2] == init[|init| - 1] && data[|data| - 1] == d;
    PageGap(old'[n - 1], page, init[|init| - 1].addr, d.addr);
    GapGrows(old', page);
    LaidAppend(old', page);
    NewPageLaid(init, d, data, Laid(old', n), page);
    assert data[0] == init[0];
  }

  lemma PageGap(prev: Page, page: Page, a: nat, b: nat)
    requires prev.addr == PageOf(a) && page.addr == PageOf(b)
    requires PageOf(a) + 256 <= PageOf(b) <= PageOf(a) + 256 + MAX_PADDING
    ensures GapOk(prev, page)
  {
    var words := 64 * (b / 256 - a / 256 - 1);
    assert page.addr - (prev.addr + 256) == words * 4 + 0;
    DivMod(words, 4, 0);
  }

  lemma LaidAppend(old': seq<Page>, page: Page)
    requires Ascending(old') && Ascending(old' + [page]) && old' != [] && GapOk(old'[|old'| - 1], page)
    ensures Laid(old' + [page], |old'| + 1)
         == Laid(old', |old'|) + Zeros(page.addr - (old'[|old'| - 1].addr + 256)) + page.bytes
  {
    hide Ascending;
    var pages, n := old' + [page], |old'|;
    assert pages[..n] == old'[..n];
    LaidSame(old', pages, n);
    assert pages[n] == page && pages[n - 1] == old'[n - 1];
  }

  lemma GapGrows(old': seq<Page>, page: Page)
    requires Ascending(old') && old' != [] && PageFits(page) && GapOk(old'[|old'| - 1], page)
    ensures Ascending(old' + [page])
  {
    var pages := old' + [page];
    forall i | 0 < i < |pages| ensures GapOk(pages[i - 1], pages[i]) {
      assert i < |old'| ==> GapOk(old'[i - 1], old'[i]);
    }
  }

  lemma NewPageLaid(init: seq<Datum>, d: Datum, data: seq<Datum>, laid: seq<byte>, page: Page)
    requires init != [] && data == init + [d] && Rising(data) && Rising(init) && laid == ImageOf(init)
    requires PageOf(init[|init| - 1].addr) + 256 <= PageOf(d.addr)
    requires forall i :: 0 <= i < |init| ==> init[i].addr < d.addr
    requires page == Page(PageOf(d.addr), Zeros(256)[d.addr % 256 := d.value])
    ensures laid + Zeros(page.addr - (PageOf(init[|init| - 1].addr) + 256)) + page.bytes == ImageOf(data)
  {
    var base := PageOf(data[0].addr);
    var gap := Zeros(page.addr - (PageOf(init[|init| - 1].addr) + 256));
    RisingPages(init, |init| - 1);
    UnwrittenElsewhere(init, d, data);
    var whole := laid + gap + page.bytes;
    forall j | 0 <= j < |whole| ensures whole[j] == ValueAt(data, base + j) {
      if j >= |laid| {
        forall i | 0 <= i < |init| ensures init[i].addr != base + j {
          RisingPages(init, |init| - 1);
        }
        UnwrittenIsZero(init, base + j);
      }
    }
  }

  lemma NothingLaid(pages: seq<Page>)
    ensures pages == [] ==> Laid(pages, 0) == []
  {
  }

  /** Pages of rising data are few enough to count in 32 bits. */
  lemma {:induction false} PagesAreFew(pages: seq<Page>, n: nat)
    requires Ascending(pages) && n < |pages|
    ensures pages[n].addr >= 256 * n
  {
    if n > 0 {
      PagesAreFew(pages, n - 1);
      assert GapOk(pages[n - 1], pages[n]);
    }
  }

  /** Round trip through HEX: rising data comes back as the flat, zero-filled image that starts at the
      first page. */
  lemma HexRoundTrip(lines: seq<string>, kind: Kind, start: nat, familyId: nat)
    requires GatherAll(lines).Some? && Rising(GatherAll(lines).value.data) && (familyId == 0 || familyId == kind.family)
    ensures HexToUf2(lines, kind).Some?
    ensures var data := GatherAll(lines).value.data;
      FromUf2(HexToUf2(lines, kind).value, start, familyId)
        == Some((ImageOf(data), if data == [] then start else PageOf(data[0].addr)))
  {
    hide FromUf2, EncodeAll, Laid, AddByte;
    var data := GatherAll(lines).value.data;
    var pages := Paged(data);
    if data != [] {
      RisingIsPaged(data);
      PagesAreFew(pages, |pages| - 1);
    }
    DecodeUndoesEncode(pages, kind, start, familyId);
    NothingLaid(pages);
  }
}
