/** Intel HEX files as tools write them, from addresses and bytes, and what the converter makes of them
    (util/uf2conv.py). */
module HexFiles {
  import opened Keyboard
  import opened Arithmetic
  import opened Bytes
  import opened Uf2
  import opened Uf2Producers
  import Uf2Convert

  /** How a file tells where the 64 KiB begin in which the next bytes lie: by the upper half of the
      address, by a segment in units of 16 bytes, or not at all if they are the same as before. */
  datatype Base = Linear(half: uint16) | Segment(segment: uint16) | Unchanged

  /** Bytes from an address on. */
  datatype Extent = Extent(base: Base, addr: nat, bytes: seq<byte>)

  function BaseAfter(base: Base, before: nat): nat
  {
    match base
    case Linear(half) => 0x1_0000 * half
    case Segment(segment) => 16 * segment
    case Unchanged => before
  }

  function LastBase(xs: seq<Extent>): nat
  {
    if xs == [] then 0 else BaseAfter(xs[|xs| - 1].base, LastBase(xs[..|xs| - 1]))
  }

  /** Each address lies less than 64 KiB after the base that holds there. */
  predicate FileOk(xs: seq<Extent>)
  {
    xs != [] ==>
      var x := xs[|xs| - 1];
      && FileOk(xs[..|xs| - 1]) && |x.bytes| <= 0xFF
      && LastBase(xs) <= x.addr < LastBase(xs) + 0x1_0000
  }

  function Total(bytes: seq<byte>): nat
  {
    if bytes == [] then 0 else Total(bytes[..|bytes| - 1]) + bytes[|bytes| - 1]
  }

  /** A record with the check byte that makes all its bytes add up to a multiple of 256. */
  function Checked(bytes: seq<byte>): seq<byte> { bytes + [(256 - Total(bytes) % 256) % 256] }

  /** Length, offset, type and payload. */
  function RecordOf(offset: uint16, kind: byte, payload: seq<byte>): (r: seq<byte>)
    requires |payload| <= 0xFF
    ensures |r| == 5 + |payload| && r[3] == kind && r[1] == offset / 256 && r[2] == offset % 256
    ensures r[4..4 + |payload|] == payload
  {
    Checked([|payload|, offset / 256, offset % 256, kind] + payload)
  }

  function BaseRecords(base: Base): seq<seq<byte>>
  {
    match base
    case Linear(half) => [RecordOf(0, 4, [half / 256, half % 256])]
    case Segment(segment) => [RecordOf(0, 2, [segment / 256, segment % 256])]
    case Unchanged => []
  }

  function DataRecord(offset: uint16, bytes: seq<byte>): seq<byte>
    requires |bytes| <= 0xFF
  {
    RecordOf(offset, 0, bytes)
  }

  function EndRecord(): seq<byte> { RecordOf(0, 1, []) }

  function Records(xs: seq<Extent>): seq<seq<byte>>
    requires FileOk(xs)
  {
    if xs == [] then []
    else
      var x := xs[|xs| - 1];
      Records(xs[..|xs| - 1]) + BaseRecords(x.base) + [DataRecord(x.addr - LastBase(xs), x.bytes)]
  }

  /** Each byte at its own address. */
  function ByteData(addr: nat, bytes: seq<byte>): (r: seq<Datum>)
    ensures |r| == |bytes|
  {
    seq(|bytes|, i requires 0 <= i < |bytes| => Datum(addr + i, bytes[i]))
  }

  function DataOf(xs: seq<Extent>): seq<Datum>
  {
    if xs == [] then [] else DataOf(xs[..|xs| - 1]) + ByteData(xs[|xs| - 1].addr, xs[|xs| - 1].bytes)
  }

  /** The lines spell the records, ended in either style. */
  predicate Spell(lines: seq<string>, recs: seq<seq<byte>>)
  {
    && |lines| == |recs|
    && forall i :: 0 <= i < |lines| ==> lines[i] == HexLine(recs[i]) || lines[i] == HexLine(recs[i]) + "\r"
  }

  // ---------------------------------------------------------------- what the converter gathers

  lemma BaseGathered(g: Gathered, base: Base)
    ensures base.Unchanged? <==> BaseRecords(base) == []
    ensures !base.Unchanged? ==>
      && |BaseRecords(base)| == 1
      && Gather(g, BaseRecords(base)[0]) == Some(g.(upper := BaseAfter(base, g.upper)))
  {
    if !base.Unchanged? {
      var rec := BaseRecords(base)[0];
      assert rec[4] == rec[4..6][0] && rec[5] == rec[4..6][1];
    }
  }

  lemma {:induction false} RecordDataIs(rec: seq<byte>, addr: nat, bytes: seq<byte>, n: nat)
    requires n <= |bytes| && 4 + |bytes| <= |rec| && rec[4..4 + |bytes|] == bytes
    ensures RecordData(rec, addr, n) == ByteData(addr, bytes)[..n]
  {
    if n > 0 {
      RecordDataIs(rec, addr, bytes, n - 1);
      assert rec[4 + (n - 1)] == rec[4..4 + |bytes|][n - 1];
    }
  }

  lemma BytesGathered(g: Gathered, rec: seq<byte>, addr: nat, bytes: seq<byte>)
    requires |rec| == 5 + |bytes| && rec[3] == 0 && rec[4..4 + |bytes|] == bytes
    requires g.upper + Pair(rec[1], rec[2]) == addr
    ensures Gather(g, rec) == Some(g.(data := g.data + ByteData(addr, bytes)))
  {
    RecordDataIs(rec, addr, bytes, |bytes|);
    assert ByteData(addr, bytes)[..|bytes|] == ByteData(addr, bytes);
    hide RecordData, ByteData, Pair;
  }

  lemma DataGathered(g: Gathered, offset: uint16, bytes: seq<byte>)
    requires |bytes| <= 0xFF
    ensures Gather(g, DataRecord(offset, bytes)) == Some(g.(data := g.data + ByteData(g.upper + offset, bytes)))
  {
    hide Gather, RecordOf, ByteData;
    BytesGathered(g, DataRecord(offset, bytes), g.upper + offset, bytes);
  }

  /** The records of a file give each byte at its own address. */
  lemma {:induction false} FileGathered(xs: seq<Extent>, lines: seq<string>)
    requires FileOk(xs) && Spell(lines, Records(xs))
    ensures GatherAll(lines) == Some(Gathered(LastBase(xs), DataOf(xs), false))
  {
    hide Gather, BaseRecords, DataRecord, HexLine, GatherLine, GatherAll, Spell;
    if xs == [] {
      NothingGathered(lines, Records(xs));
    } else {
      var init, x := xs[..|xs| - 1], xs[|xs| - 1];
      var a, b, c := Records(init), BaseRecords(x.base), DataRecord(x.addr - LastBase(xs), x.bytes);
      assert a + b + [c] == a + (b + [c]);
      PrefixSpells(lines, a, b + [c]);
      FileGathered(init, lines[..|a|]);
      var g := Gathered(LastBase(init), DataOf(init), false);
      var g1 := g.(upper := LastBase(xs));
      BaseGathered(g, x.base);
      if !x.base.Unchanged? {
        assert (a + b + [c])[|a|] == b[0];
        NextGathered(lines, Records(xs), |a|, g);
      }
      assert (a + b + [c])[|a| + |b|] == c;
      NextGathered(lines, Records(xs), |a| + |b|, g1);
      DataGathered(g1, x.addr - LastBase(xs), x.bytes);
      WholeSeq(lines, Records(xs));
    }
  }

  lemma NothingGathered(lines: seq<string>, recs: seq<seq<byte>>)
    requires recs == [] && Spell(lines, recs)
    ensures GatherAll(lines) == Some(Gathered(0, [], false))
  {
  }

  lemma WholeSeq(lines: seq<string>, recs: seq<seq<byte>>)
    requires Spell(lines, recs)
    ensures |lines| == |recs| && lines[..|recs|] == lines
  {
  }

  /** One line more. */
  lemma NextGathered(lines: seq<string>, recs: seq<seq<byte>>, n: nat, g: Gathered)
    requires Spell(lines, recs) && n < |recs| && n < |lines| && GatherAll(lines[..n]) == Some(g) && !g.stopped
    ensures GatherAll(lines[..n + 1]) == Gather(g, recs[n])
  {
    hide Gather, GatherLine, HexLine;
    assert lines[..n + 1][..n] == lines[..n] && lines[..n + 1][n] == lines[n];
    LineReadsBack(g, recs[n], lines[n]);
  }

  lemma PrefixSpells(lines: seq<string>, a: seq<seq<byte>>, b: seq<seq<byte>>)
    requires Spell(lines, a + b)
    ensures |a| + |b| == |lines| && Spell(lines[..|a|], a)
  {
    forall i | 0 <= i < |a| ensures lines[i] == HexLine(a[i]) || lines[i] == HexLine(a[i]) + "\r" {
      assert (a + b)[i] == a[i];
    }
  }

  /** A file with an end record gives its data, whatever lines follow. */
  lemma WholeFileGathered(xs: seq<Extent>, lines: seq<string>, rest: seq<string>)
    requires FileOk(xs) && Spell(lines, Records(xs) + [EndRecord()])
    ensures GatherAll(lines + rest) == Some(Gathered(LastBase(xs), DataOf(xs), true))
  {
    hide HexLine, GatherLine, GatherAll, Spell, Gather, Records, EndRecord;
    var recs, n := Records(xs) + [EndRecord()], |Records(xs)|;
    PrefixSpells(lines, Records(xs), [EndRecord()]);
    FileGathered(xs, lines[..n]);
    var g := Gathered(LastBase(xs), DataOf(xs), false);
    assert recs[n] == EndRecord();
    WholeSeq(lines, recs);
    NextGathered(lines, recs, n, g);
    EndGathered(g);
    var all := lines + rest;
    assert all[..|lines|] == lines && all[..|all|] == all;
    Uf2Convert.GatherStays(all, |lines|, |all|);
  }

  lemma EndGathered(g: Gathered)
    ensures Gather(g, EndRecord()) == Some(g.(stopped := true))
  {
  }

  /** From addresses and bytes to a HEX file, to UF2, and back: what was written comes back at its own
      addresses, as the flat, zero-filled image from the first page on. */
  lemma HexFileRoundTrip(xs: seq<Extent>, lines: seq<string>, rest: seq<string>, kind: Kind, start: nat, familyId: nat)
    requires FileOk(xs) && Spell(lines, Records(xs) + [EndRecord()])
    requires Rising(DataOf(xs)) && (familyId == 0 || familyId == kind.family)
    ensures HexToUf2(lines + rest, kind).Some?
    ensures FromUf2(HexToUf2(lines + rest, kind).value, start, familyId)
      == Some((ImageOf(DataOf(xs)), if DataOf(xs) == [] then start else PageOf(DataOf(xs)[0].addr)))
  {
    hide GatherAll, HexToUf2, FromUf2, ImageOf, Rising, DataOf;
    WholeFileGathered(xs, lines, rest);
    HexRoundTrip(lines + rest, kind, start, familyId);
  }

  /** Records of any other type, and lines without a colon, are passed over; an empty line, and a record
      too short for its type, raise. */
  lemma OtherLines(g: Gathered, rec: seq<byte>, line: string)
    ensures |rec| >= 4 && (rec[3] == 3 || rec[3] > 4) ==> Gather(g, rec) == Some(g)
    ensures |rec| < 4 || (|rec| < 6 && (rec[3] == 2 || rec[3] == 4)) ==> Gather(g, rec) == None
    ensures !g.stopped && line == "" ==> GatherLine(g, line) == None
    ensures line != "" && line[0] != ':' ==> GatherLine(g, line) == Some(g)
  {
  }

  /** The image holds a byte of the data at its address, and zero where there is none. */
  lemma {:induction false} ValueIsData(data: seq<Datum>, i: nat)
    requires Rising(data) && i < |data|
    ensures ValueAt(data, data[i].addr) == data[i].value
  {
    var n := |data| - 1;
    if i < n {
      RisingPages(data, n);
      assert data[..n][i] == data[i];
      ValueIsData(data[..n], i);
    }
  }
}
