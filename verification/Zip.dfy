/**
 * The stored (uncompressed) ZIP writer behind the .xlsx export
 * (src/export/xlsx.ts:199-254) and an independent reader that follows the ZIP
 * APPNOTE from the end of the archive: end record (4.3.16), central directory
 * (4.3.12), local headers (4.3.7).
 */
module Zip {
  import opened Wrappers
  import opened Bytes
  import opened Crc32

  /** A file to store: its name as UTF-8 bytes, and its content. */
  datatype File = File(name: seq<byte>, data: seq<byte>)

  const LOCAL_SIGNATURE := 0x04034b50
  const CENTRAL_SIGNATURE := 0x02014b50
  const END_SIGNATURE := 0x06054b50
  const TWO_16 := 0x1_0000
  const TWO_32 := 0x1_0000_0000
  /** 1980-01-01, the earliest DOS date. */
  const DOS_DATE := 33

  // ----- Little-endian fields -----

  /** DataView.setUint16 and setUint32 keep the low 16 and 32 bits of what they are given. */
  function Le16(v: nat): (s: seq<byte>)
    ensures |s| == 2
  {
    [ByteOf(v), ByteOf(v / 256)]
  }

  function Le32(v: nat): (s: seq<byte>)
    ensures |s| == 4
  {
    Le16(v % TWO_16) + Le16(v / TWO_16)
  }

  function U16At(s: seq<byte>, at: nat): (v: nat)
    requires at + 2 <= |s|
    ensures v < TWO_16
  {
    ValueOf(s[at]) + 256 * ValueOf(s[at + 1])
  }

  function U32At(s: seq<byte>, at: nat): (v: nat)
    requires at + 4 <= |s|
    ensures v < TWO_32
  {
    U16At(s, at) + TWO_16 * U16At(s, at + 2)
  }

  lemma Le16Read(v: nat)
    ensures U16At(Le16(v), 0) == v % TWO_16
  {
    hide ByteOf, ValueOf;
    ValueOfByteOf(v);
    ValueOfByteOf(v / 256);
    assert v == TWO_16 * (v / 256 / 256) + (256 * (v / 256 % 256) + v % 256);
  }

  /** `field` written over the bytes of `s` that start at `at`. */
  function Put(s: seq<byte>, at: nat, field: seq<byte>): (r: seq<byte>)
    requires at + |field| <= |s|
    ensures |r| == |s|
    ensures forall i :: 0 <= i < |r| ==> r[i] == if at <= i < at + |field| then field[i - at] else s[i]
  {
    s[..at] + field + s[at + |field|..]
  }

  method SetUint16(view: array<byte>, at: nat, v: nat)
    requires at + 2 <= view.Length
    modifies view
    ensures view[..] == Put(old(view[..]), at, Le16(v))
  {
    var bytes := Le16(v);
    view[at], view[at + 1] := bytes[0], bytes[1];
  }

  method SetUint32(view: array<byte>, at: nat, v: nat)
    requires at + 4 <= view.Length
    modifies view
    ensures view[..] == Put(old(view[..]), at, Le32(v))
  {
    var bytes := Le32(v);
    view[at], view[at + 1], view[at + 2], view[at + 3] := bytes[0], bytes[1], bytes[2], bytes[3];
  }

  // ----- The records -----

  function Zeros(n: nat): (s: seq<byte>)
    ensures |s| == n && forall i :: 0 <= i < n ==> s[i] == 0
  {
    seq(n, _ => 0)
  }

  function CrcValue(data: seq<byte>): (v: nat)
    ensures v < TWO_32
  {
    Crc(data).bits as int
  }

  function LocalHeader(f: File): (h: seq<byte>)
    ensures |h| == 30
  {
    var h := Put(Zeros(30), 0, Le32(LOCAL_SIGNATURE));
    var h := Put(h, 4, Le16(20));
    var h := Put(h, 6, Le16(0x0800));
    var h := Put(h, 8, Le16(0));
    var h := Put(h, 10, Le16(0));
    var h := Put(h, 12, Le16(DOS_DATE));
    var h := Put(h, 14, Le32(CrcValue(f.data)));
    var h := Put(h, 18, Le32(|f.data|));
    var h := Put(h, 22, Le32(|f.data|));
    var h := Put(h, 26, Le16(|f.name|));
    Put(h, 28, Le16(0))
  }

  function CentralHeader(f: File, offset: nat): (h: seq<byte>)
    ensures |h| == 46
  {
    var h := Put(Zeros(46), 0, Le32(CENTRAL_SIGNATURE));
    var h := Put(h, 4, Le16(20));
    var h := Put(h, 6, Le16(20));
    var h := Put(h, 8, Le16(0x0800));
    var h := Put(h, 10, Le16(0));
    var h := Put(h, 12, Le16(0));
    var h := Put(h, 14, Le16(DOS_DATE));
    var h := Put(h, 16, Le32(CrcValue(f.data)));
    var h := Put(h, 20, Le32(|f.data|));
    var h := Put(h, 24, Le32(|f.data|));
    var h := Put(h, 28, Le16(|f.name|));
    Put(h, 42, Le32(offset))
  }

  function EndRecord(count: nat, centralSize: nat, offset: nat): (h: seq<byte>)
    ensures |h| == 22
  {
    var h := Put(Zeros(22), 0, Le32(END_SIGNATURE));
    var h := Put(h, 8, Le16(count));
    var h := Put(h, 10, Le16(count));
    var h := Put(h, 12, Le32(centralSize));
    Put(h, 16, Le32(offset))
  }

  function LocalRecord(f: File): seq<byte> {
    LocalHeader(f) + f.name + f.data
  }

  function CentralRecord(f: File, offset: nat): seq<byte> {
    CentralHeader(f, offset) + f.name
  }

  function Locals(files: seq<File>): seq<byte>
    decreases |files|
  {
    if files == [] then []
    else Locals(files[..|files| - 1]) + LocalRecord(files[|files| - 1])
  }

  function Centrals(files: seq<File>): seq<byte>
    decreases |files|
  {
    if files == [] then []
    else
      var before := files[..|files| - 1];
      Centrals(before) + CentralRecord(files[|files| - 1], |Locals(before)|)
  }

  function Archive(files: seq<File>): seq<byte> {
    Locals(files) + Centrals(files) + EndRecord(|files|, |Centrals(files)|, |Locals(files)|)
  }

  // ----- The writer -----

  function Concat(parts: seq<seq<byte>>): seq<byte>
    decreases |parts|
  {
    if parts == [] then [] else Concat(parts[..|parts| - 1]) + parts[|parts| - 1]
  }

  lemma {:induction false} ConcatSplit(s: seq<seq<byte>>, t: seq<seq<byte>>)
    ensures Concat(s + t) == Concat(s) + Concat(t)
    decreases |t|
  {
    if t == [] {
      assert s + t == s;
    } else {
      var n := |t| - 1;
      assert (s + t)[..|s| + n] == s + t[..n];
      ConcatSplit(s, t[..n]);
    }
  }

  method WriteLocalHeader(f: File, crc: nat) returns (local: array<byte>)
    requires crc == CrcValue(f.data)
    ensures local[..] == LocalHeader(f)
  {
    local := new byte[30](_ => 0);
    assert local[..] == Zeros(30);
    SetUint32(local, 0, LOCAL_SIGNATURE);
    SetUint16(local, 4, 20);
    SetUint16(local, 6, 0x0800);
    SetUint16(local, 8, 0);
    SetUint16(local, 10, 0);
    SetUint16(local, 12, DOS_DATE);
    SetUint32(local, 14, crc);
    SetUint32(local, 18, |f.data|);
    SetUint32(local, 22, |f.data|);
    SetUint16(local, 26, |f.name|);
    SetUint16(local, 28, 0);
  }

  method WriteCentralHeader(f: File, crc: nat, offset: nat) returns (entry: array<byte>)
    requires crc == CrcValue(f.data)
    ensures entry[..] == CentralHeader(f, offset)
  {
    entry := new byte[46](_ => 0);
    assert entry[..] == Zeros(46);
    SetUint32(entry, 0, CENTRAL_SIGNATURE);
    SetUint16(entry, 4, 20);
    SetUint16(entry, 6, 20);
    SetUint16(entry, 8, 0x0800);
    SetUint16(entry, 10, 0);
    SetUint16(entry, 12, 0);
    SetUint16(entry, 14, DOS_DATE);
    SetUint32(entry, 16, crc);
    SetUint32(entry, 20, |f.data|);
    SetUint32(entry, 24, |f.data|);
    SetUint16(entry, 28, |f.name|);
    SetUint32(entry, 42, offset);
  }

  method WriteEndRecord(count: nat, centralSize: nat, offset: nat) returns (end: array<byte>)
    ensures end[..] == EndRecord(count, centralSize, offset)
  {
    end := new byte[22](_ => 0);
    assert end[..] == Zeros(22);
    SetUint32(end, 0, END_SIGNATURE);
    SetUint16(end, 8, count);
    SetUint16(end, 10, count);
    SetUint32(end, 12, centralSize);
    SetUint32(end, 16, offset);
  }

  /** TypedArray.set: the part copied to its place, the bytes before it untouched. */
  method CopyTo(out: array<byte>, position: nat, part: seq<byte>)
    requires position + |part| <= out.Length
    modifies out
    ensures out[..position + |part|] == old(out[..position]) + part
  {
    forall k | 0 <= k < |part| {
      out[position + k] := part[k];
    }
    assert out[..position] == old(out[..position]);
    assert out[position..position + |part|] == part;
    assert out[..position + |part|] == out[..position] + out[position..position + |part|];
  }

  lemma TotalSplit(parts: seq<seq<byte>>, i: nat)
    requires i < |parts|
    ensures Concat(parts[..i + 1]) == Concat(parts[..i]) + parts[i]
    ensures |Concat(parts[..i + 1])| <= |Concat(parts)|
  {
    assert parts[..i + 1][..i] == parts[..i];
    assert parts[..i + 1] + parts[i + 1..] == parts;
    ConcatSplit(parts[..i + 1], parts[i + 1..]);
  }

  /** Copies the parts one after another into a buffer of their total length. */
  method JoinParts(parts: seq<seq<byte>>) returns (out: array<byte>)
    ensures fresh(out) && out[..] == Concat(parts)
  {
    hide Concat;
    assert parts[..|parts|] == parts && Concat([]) == [] by { NothingJoined(); }
    assert parts[..0] == [];
    var total := 0;
    for i := 0 to |parts|
      invariant total == |Concat(parts[..i])|
    {
      TotalSplit(parts, i);
      total := total + |parts[i]|;
    }
    out := new byte[total](_ => 0);
    var position := 0;
    for i := 0 to |parts|
      invariant position == |Concat(parts[..i])| <= total == |Concat(parts)|
      invariant fresh(out) && out.Length == total && out[..position] == Concat(parts[..i])
    {
      TotalSplit(parts, i);
      CopyTo(out, position, parts[i]);
      position := position + |parts[i]|;
    }
  }

  lemma NothingJoined()
    ensures Concat([]) == []
  {
  }

  method ZipStored(files: seq<File>) returns (out: array<byte>)
    ensures out[..] == Archive(files)
    ensures Unzip(out[..]) == Some(EntriesOf(files)) <==> WithinLimits(files)
  {
    RoundTripExactlyWithinLimits(files);
    hide Unzip, EntriesOf, WithinLimits, Archive;
    hide CrcValue, LocalHeader, CentralHeader, EndRecord;
    var table := BuildTable();
    var chunks: seq<seq<byte>>, central: seq<seq<byte>> := [], [];
    var offset, centralSize := 0, 0;
    for i := 0 to |files|
      invariant IsCrcTable(table[..])
      invariant Concat(chunks) == Locals(files[..i]) && offset == |Locals(files[..i])|
      invariant Concat(central) == Centrals(files[..i]) && centralSize == |Centrals(files[..i])|
    {
      assert files[..i + 1][..i] == files[..i];
      var f := files[i];
      var crc := ComputeCrc(table, f.data);
      CrcValueBits(f.data);
      var local := WriteLocalHeader(f, crc.bits as int);
      ConcatThree(chunks, local[..], f.name, f.data);
      chunks := chunks + [local[..], f.name, f.data];
      var entry := WriteCentralHeader(f, crc.bits as int, offset);
      ConcatTwo(central, entry[..], f.name);
      central := central + [entry[..], f.name];
      offset := offset + 30 + |f.name| + |f.data|;
      centralSize := centralSize + 46 + |f.name|;
    }
    assert files[..|files|] == files;
    var end := WriteEndRecord(|files|, centralSize, offset);
    ConcatSplit(chunks, central);
    out := JoinParts(chunks + central + [end[..]]);
    ArchiveIs(files);
  }

  lemma ArchiveIs(files: seq<File>)
    ensures Archive(files) == Locals(files) + Centrals(files) + EndRecord(|files|, |Centrals(files)|, |Locals(files)|)
  {
    hide Locals, Centrals, EndRecord;
  }

  lemma CrcValueBits(data: seq<byte>)
    ensures CrcValue(data) == Crc(data).bits as int
  {
  }

  lemma ConcatTwo(s: seq<seq<byte>>, a: seq<byte>, b: seq<byte>)
    ensures Concat(s + [a, b]) == Concat(s) + (a + b)
  {
    assert s + [a, b] == s + [a] + [b];
  }

  lemma ConcatThree(s: seq<seq<byte>>, a: seq<byte>, b: seq<byte>, c: seq<byte>)
    ensures Concat(s + [a, b, c]) == Concat(s) + (a + b + c)
  {
    ConcatTwo(s, a, b);
    assert s + [a, b, c] == s + [a, b] + [c];
  }

  // ----- The reader -----

  /** What a reader gets for one stored file; `utf8` says how the name is to be read. */
  datatype Entry = Entry(name: seq<byte>, utf8: bool, date: nat, time: nat, data: seq<byte>, crc: nat)

  /** The version of the format (2.0) this reader knows, and the only flag: names in UTF-8. */
  const KNOWN_VERSION := 20
  const UTF8_NAMES := 0x0800

  /** What a record of the format starts with: "PK" and the record's two numbers. */
  function Mark(first: nat, second: nat): nat {
    0x50 + 0x100 * 0x4B + TWO_16 * (first + 0x100 * second)
  }

  /** A day in the format's calendar (MS-DOS). */
  function DosDay(year: nat, month: nat, day: nat): nat
    requires year >= 1980
  {
    512 * (year - 1980) + 32 * month + day
  }

  /** The bytes [at, at + n) of the archive, if it has them. */
  function Slice(s: seq<byte>, at: nat, n: nat): Option<seq<byte>> {
    if at + n <= |s| then Some(s[at..at + n]) else None
  }

  /** The file whose local header is at `at`; everything the central entry says must be said again there. */
  function ReadLocal(s: seq<byte>, at: nat, name: seq<byte>, flags: nat, time: nat, date: nat, size: nat, crc: nat): Option<Entry> {
    match Slice(s, at, 30)
    case None => None
    case Some(h) =>
      if U32At(h, 0) != Mark(3, 4) || U16At(h, 4) > KNOWN_VERSION || U16At(h, 8) != 0 then None
      else if U16At(h, 6) != flags || U16At(h, 10) != time || U16At(h, 12) != date then None
      else if U32At(h, 14) != crc || U32At(h, 18) != size || U32At(h, 22) != size then None
      else
        var nameAt := at + 30;
        var dataAt := nameAt + U16At(h, 26) + U16At(h, 28);
        match (Slice(s, nameAt, U16At(h, 26)), Slice(s, dataAt, size))
        case (Some(localName), Some(data)) =>
          if localName == name && CrcValue(data) == crc then
            Some(Entry(name, flags == UTF8_NAMES, date, time, data, crc)) else None
        case _ => None
  }

  /** The next `count` entries of the central directory, from `at`. */
  function ReadCentral(s: seq<byte>, at: nat, count: nat): Option<seq<Entry>>
    decreases count
  {
    if count == 0 then Some([])
    else
      match Slice(s, at, 46)
      case None => None
      case Some(h) =>
        if U32At(h, 0) != Mark(1, 2) || U16At(h, 6) > KNOWN_VERSION || U16At(h, 10) != 0 then None
        else if U16At(h, 4) / 256 != 0 || U16At(h, 4) < U16At(h, 6) then None
        else if U16At(h, 8) !in {0, UTF8_NAMES} || U32At(h, 20) != U32At(h, 24) then None
        else
          match Slice(s, at + 46, U16At(h, 28))
          case None => None
          case Some(name) =>
            match ReadLocal(s, U32At(h, 42), name, U16At(h, 8), U16At(h, 12), U16At(h, 14), U32At(h, 24), U32At(h, 16))
            case None => None
            case Some(entry) =>
              match ReadCentral(s, at + 46 + |name| + U16At(h, 30) + U16At(h, 32), count - 1)
              case None => None
              case Some(rest) => Some([entry] + rest)
  }

  /** Reads an archive without a comment, from its end record. */
  function Unzip(s: seq<byte>): Option<seq<Entry>> {
    if |s| < 22 then None
    else
      var h := s[|s| - 22..];
      if U32At(h, 0) != Mark(5, 6) || U16At(h, 20) != 0 || U16At(h, 8) != U16At(h, 10) then None
      else if U32At(h, 16) + U32At(h, 12) != |s| - 22 then None
      else ReadCentral(s, U32At(h, 16), U16At(h, 10))
  }

  // ----- The round trip -----

  /** The format's limits, which the writer does not check. */
  ghost predicate WithinLimits(files: seq<File>) {
    && |files| < TWO_16
    && |Locals(files)| < TWO_32
    && |Centrals(files)| < TWO_32
    && forall f :: f in files ==> |f.name| < TWO_16
  }

  function EntryOf(f: File): Entry {
    Entry(f.name, true, DosDay(1980, 1, 1), 0, f.data, CrcValue(f.data))
  }

  lemma Le32Read(v: nat)
    ensures U32At(Le32(v), 0) == v % TWO_32
  {
    hide *;
    Le32Halves(v);
    Le16Read(v % TWO_16);
    Le16Read(v / TWO_16);
    Halves(v);
  }

  lemma Halves(v: nat)
    ensures v % TWO_16 % TWO_16 + TWO_16 * (v / TWO_16 % TWO_16) == v % TWO_32
  {
    var high := v / TWO_16;
    assert v == TWO_32 * (high / TWO_16) + (TWO_16 * (high % TWO_16) + v % TWO_16);
  }

  lemma Le32Halves(v: nat)
    ensures U32At(Le32(v), 0) == U16At(Le16(v % TWO_16), 0) + TWO_16 * U16At(Le16(v / TWO_16), 0)
  {
  }

  /** A field is read back from the bytes it was written to. */
  lemma FieldAt16(h: seq<byte>, at: nat, v: nat)
    requires at + 2 <= |h|
    requires forall i :: 0 <= i < 2 ==> h[at + i] == Le16(v)[i]
    ensures U16At(h, at) == v % TWO_16
  {
    Le16Read(v);
    hide Le16;
    assert h[at + 0] == Le16(v)[0] && h[at + 1] == Le16(v)[1];
  }

  lemma FieldAt32(h: seq<byte>, at: nat, v: nat)
    requires at + 4 <= |h|
    requires forall i :: 0 <= i < 4 ==> h[at + i] == Le32(v)[i]
    ensures U32At(h, at) == v % TWO_32
  {
    Le32Read(v);
    hide Le32;
    assert h[at + 0] == Le32(v)[0] && h[at + 1] == Le32(v)[1];
    assert h[at + 2] == Le32(v)[2] && h[at + 3] == Le32(v)[3];
  }

  lemma LocalFields(f: File)
    requires |f.name| < TWO_16 && |f.data| < TWO_32
    ensures var h := LocalHeader(f);
            && U32At(h, 0) == Mark(3, 4) && U16At(h, 8) == 0 && U32At(h, 14) == CrcValue(f.data)
            && U16At(h, 4) == KNOWN_VERSION && U16At(h, 6) == UTF8_NAMES && U16At(h, 10) == 0 && U16At(h, 12) == DOS_DATE
            && U32At(h, 18) == U32At(h, 22) == |f.data| && U16At(h, 26) == |f.name| && U16At(h, 28) == 0
  {
    hide Le16, Le32, U16At, U32At, CrcValue, Put, Zeros;
    var h := LocalHeader(f);
    FieldAt32(h, 0, LOCAL_SIGNATURE);
    FieldAt16(h, 4, 20);
    FieldAt16(h, 6, 0x0800);
    FieldAt16(h, 8, 0);
    FieldAt16(h, 10, 0);
    FieldAt16(h, 12, DOS_DATE);
    FieldAt32(h, 14, CrcValue(f.data));
    FieldAt32(h, 18, |f.data|);
    FieldAt32(h, 22, |f.data|);
    FieldAt16(h, 26, |f.name|);
    FieldAt16(h, 28, 0);
  }

  lemma CentralFields(f: File, offset: nat)
    requires |f.name| < TWO_16 && |f.data| < TWO_32 && offset < TWO_32
    ensures var h := CentralHeader(f, offset);
            && U32At(h, 0) == Mark(1, 2) && U16At(h, 4) == 20 && U16At(h, 10) == 0 && U32At(h, 16) == CrcValue(f.data)
            && U16At(h, 6) == KNOWN_VERSION && U16At(h, 8) == UTF8_NAMES && U16At(h, 12) == 0 && U16At(h, 14) == DOS_DATE
            && U32At(h, 20) == |f.data|
            && U32At(h, 24) == |f.data| && U16At(h, 28) == |f.name| && U16At(h, 30) == U16At(h, 32) == 0
            && U32At(h, 42) == offset
  {
    ZeroField();
    hide Le16, Le32, U16At, U32At, CrcValue, Put, Zeros;
    var h := CentralHeader(f, offset);
    FieldAt32(h, 0, CENTRAL_SIGNATURE);
    FieldAt16(h, 4, 20);
    FieldAt16(h, 6, 20);
    FieldAt16(h, 8, 0x0800);
    FieldAt16(h, 10, 0);
    FieldAt16(h, 12, 0);
    FieldAt16(h, 14, DOS_DATE);
    FieldAt32(h, 20, |f.data|);
    FieldAt32(h, 16, CrcValue(f.data));
    FieldAt32(h, 24, |f.data|);
    FieldAt16(h, 28, |f.name|);
    FieldAt16(h, 30, 0);
    FieldAt16(h, 32, 0);
    FieldAt32(h, 42, offset);
  }

  /** The fields the writer leaves as the buffer's zeros read as 0. */
  lemma ZeroField()
    ensures Le16(0) == [0, 0]
  {
  }

  lemma EndFields(count: nat, centralSize: nat, offset: nat)
    ensures var h := EndRecord(count, centralSize, offset);
            && U32At(h, 0) == Mark(5, 6) && U16At(h, 8) == U16At(h, 10) == count % TWO_16
            && U32At(h, 12) == centralSize % TWO_32 && U32At(h, 16) == offset % TWO_32
            && U16At(h, 20) == 0
  {
    ZeroField();
    hide Le16, Le32, U16At, U32At, Put, Zeros;
    var h := EndRecord(count, centralSize, offset);
    FieldAt32(h, 0, END_SIGNATURE);
    FieldAt16(h, 8, count);
    FieldAt16(h, 10, count);
    FieldAt32(h, 12, centralSize);
    FieldAt32(h, 16, offset);
    FieldAt16(h, 20, 0);
  }

  // ----- Where the records are -----

  /** `part` stands at `at` in `s`. */
  predicate Holds(s: seq<byte>, at: nat, part: seq<byte>) {
    at + |part| <= |s| && s[at..at + |part|] == part
  }

  lemma HoldsPart(s: seq<byte>, at: nat, a: seq<byte>, b: seq<byte>)
    requires Holds(s, at, a + b)
    ensures Holds(s, at, a) && Holds(s, at + |a|, b)
  {
    var part := s[at..at + |a| + |b|];
    assert part[..|a|] == a && part[|a|..] == b;
    assert s[at..at + |a|] == part[..|a|];
    assert s[at + |a|..at + |a| + |b|] == part[|a|..];
  }

  lemma {:induction false} LocalsHold(s: seq<byte>, files: seq<File>, i: nat)
    requires i < |files| && Locals(files) <= s
    ensures Holds(s, |Locals(files[..i])|, LocalRecord(files[i]))
    decreases |files|
  {
    hide LocalRecord;
    var n := |files| - 1;
    if i == n {
      HoldsPart(Locals(files), 0, Locals(files[..n]), LocalRecord(files[n]));
    } else {
      assert files[..n][..i] == files[..i];
      assert Locals(files[..n]) <= s;
      LocalsHold(s, files[..n], i);
    }
  }

  lemma {:induction false} CentralsHold(s: seq<byte>, at: nat, files: seq<File>, i: nat)
    requires i < |files| && Holds(s, at, Centrals(files))
    ensures Holds(s, at + |Centrals(files[..i])|, CentralRecord(files[i], |Locals(files[..i])|))
    ensures |Centrals(files[..i + 1])| == |Centrals(files[..i])| + 46 + |files[i].name|
    decreases |files|
  {
    hide CentralHeader, Locals;
    var n := |files| - 1;
    HoldsPart(s, at, Centrals(files[..n]), CentralRecord(files[n], |Locals(files[..n])|));
    if i == n {
      assert files[..n + 1] == files;
    } else {
      assert files[..n][..i] == files[..i] && files[..n][..i + 1] == files[..i + 1];
      CentralsHold(s, at, files[..n], i);
    }
  }

  lemma {:induction false} LocalsGrow(files: seq<File>, i: nat)
    requires i <= |files|
    ensures |Locals(files[..i])| <= |Locals(files)|
    ensures i < |files| ==> |Locals(files[..i])| + 30 + |files[i].name| + |files[i].data| <= |Locals(files)|
    decreases |files|
  {
    hide LocalHeader;
    if i < |files| {
      var n := |files| - 1;
      if i < n {
        assert files[..n][..i] == files[..i];
        LocalsGrow(files[..n], i);
      }
    } else {
      assert files[..i] == files;
    }
  }

  lemma ReadLocalRecord(s: seq<byte>, at: nat, f: File)
    requires |f.name| < TWO_16 && |f.data| < TWO_32
    requires Holds(s, at, LocalRecord(f))
    ensures ReadLocal(s, at, f.name, UTF8_NAMES, 0, DOS_DATE, |f.data|, CrcValue(f.data)) == Some(EntryOf(f))
  {
    hide LocalHeader, U16At, U32At, CrcValue, Holds, Slice;
    HoldsPart(s, at, LocalHeader(f) + f.name, f.data);
    HoldsPart(s, at, LocalHeader(f), f.name);
    LocalFields(f);
    HoldsSlice(s, at, LocalHeader(f));
    HoldsSlice(s, at + 30, f.name);
    HoldsSlice(s, at + 30 + |f.name|, f.data);
  }

  lemma HoldsSlice(s: seq<byte>, at: nat, part: seq<byte>)
    requires Holds(s, at, part)
    ensures Slice(s, at, |part|) == Some(part)
  {
  }

  /** One step of the reader through the central directory. */
  lemma ReadCentralStep(s: seq<byte>, at: nat, count: nat, f: File, offset: nat)
    requires |f.name| < TWO_16 && |f.data| < TWO_32 && offset < TWO_32 && count > 0
    requires Holds(s, at, CentralRecord(f, offset)) && Holds(s, offset, LocalRecord(f))
    ensures ReadCentral(s, at, count)
         == match ReadCentral(s, at + 46 + |f.name|, count - 1)
            case None => None
            case Some(rest) => Some([EntryOf(f)] + rest)
  {
    hide CentralHeader, LocalRecord, U16At, U32At, CrcValue, Holds, Slice, ReadLocal, EntryOf;
    HoldsPart(s, at, CentralHeader(f, offset), f.name);
    CentralFields(f, offset);
    HoldsSlice(s, at, CentralHeader(f, offset));
    HoldsSlice(s, at + 46, f.name);
    ReadLocalRecord(s, offset, f);
  }

  function EntriesOf(files: seq<File>): (entries: seq<Entry>)
    ensures |entries| == |files|
    ensures forall i :: 0 <= i < |files| ==> entries[i] == EntryOf(files[i])
  {
    seq(|files|, i requires 0 <= i < |files| => EntryOf(files[i]))
  }

  lemma {:induction false} ReadCentralRecords(s: seq<byte>, files: seq<File>, i: nat)
    requires WithinLimits(files) && i <= |files|
    requires Locals(files) <= s && Holds(s, |Locals(files)|, Centrals(files))
    ensures ReadCentral(s, |Locals(files)| + |Centrals(files[..i])|, |files| - i) == Some(EntriesOf(files[i..]))
    decreases |files| - i
  {
    hide *;
    if i == |files| {
      ReadNoEntries(s, |Locals(files)| + |Centrals(files[..i])|);
      assert files[i..] == [];
    } else {
      var f, at := files[i], |Locals(files)| + |Centrals(files[..i])|;
      var offset := |Locals(files[..i])|;
      LimitsOf(files, i);
      CentralsHold(s, |Locals(files)|, files, i);
      LocalsHold(s, files, i);
      LocalsGrow(files, i);
      ReadCentralStep(s, at, |files| - i, f, offset);
      ReadCentralRecords(s, files, i + 1);
      assert |Locals(files)| + |Centrals(files[..i + 1])| == at + 46 + |f.name|;
      assert [EntryOf(f)] + EntriesOf(files[i + 1..]) == EntriesOf(files[i..]);
    }
  }

  lemma ReadNoEntries(s: seq<byte>, at: nat)
    ensures ReadCentral(s, at, 0) == Some([]) == Some(EntriesOf([]))
  {
  }

  lemma LimitsOf(files: seq<File>, i: nat)
    requires WithinLimits(files) && i < |files|
    ensures |files[i].name| < TWO_16 && |Locals(files)| < TWO_32
  {
    hide Locals, Centrals;
    assert files[i] in files;
  }

  /** The reader's way in: the end record's fields, as the writer's truncation left them. */
  lemma UnzipStart(files: seq<File>)
    ensures var s, locals, centrals := Archive(files), |Locals(files)|, |Centrals(files)|;
            Unzip(s) == if locals % TWO_32 + centrals % TWO_32 != locals + centrals then None
                        else ReadCentral(s, locals % TWO_32, |files| % TWO_16)
  {
    var s := Archive(files);
    var locals, centrals := Locals(files), Centrals(files);
    var end := EndRecord(|files|, |centrals|, |locals|);
    assert s[|s| - 22..] == end && |s| - 22 == |locals| + |centrals|;
    EndFields(|files|, |centrals|, |locals|);
    hide Locals, Centrals, EndRecord, ReadCentral, U16At, U32At, Archive;
  }

  lemma ArchiveHolds(files: seq<File>)
    ensures Locals(files) <= Archive(files)
    ensures Holds(Archive(files), |Locals(files)|, Centrals(files))
  {
    hide Locals, Centrals, EndRecord;
    var end := EndRecord(|files|, |Centrals(files)|, |Locals(files)|);
    assert Archive(files)[|Locals(files)|..|Locals(files)| + |Centrals(files)|] == Centrals(files);
  }

  lemma SmallSizes(files: seq<File>)
    requires WithinLimits(files)
    ensures |files| % TWO_16 == |files|
    ensures |Locals(files)| % TWO_32 == |Locals(files)| && |Centrals(files)| % TWO_32 == |Centrals(files)|
  {
    hide Locals, Centrals;
  }

  /** Reading what the writer wrote gives back the same names, contents and CRCs, in order. */
  lemma UnzipArchive(files: seq<File>)
    requires WithinLimits(files)
    ensures Unzip(Archive(files)) == Some(EntriesOf(files))
  {
    hide *;
    ArchiveHolds(files);
    UnzipStart(files);
    SmallSizes(files);
    ReadCentralRecords(Archive(files), files, 0);
    NoCentrals();
    assert files[..0] == [] && files[0..] == files;
  }

  lemma NoCentrals()
    ensures Centrals([]) == []
  {
  }

  lemma {:induction false} ReadCentralBounds(s: seq<byte>, at: nat, count: nat)
    ensures var r := ReadCentral(s, at, count);
            r.Some? ==> |r.value| == count && forall e :: e in r.value ==> |e.name| < TWO_16
    decreases count
  {
    hide U16At, U32At, CrcValue;
    if count > 0 && Slice(s, at, 46).Some? {
      var h := Slice(s, at, 46).value;
      var name := Slice(s, at + 46, U16At(h, 28));
      if name.Some? {
        ReadCentralBounds(s, at + 46 + |name.value| + U16At(h, 30) + U16At(h, 32), count - 1);
      }
    }
  }

  /** Beyond the format's limits the writer's fields wrap around, and the archive no longer reads back. */
  lemma UnzipNeedsLimits(files: seq<File>)
    requires Unzip(Archive(files)) == Some(EntriesOf(files))
    ensures WithinLimits(files)
  {
    hide Locals, Centrals, ReadCentral, Archive, Unzip, EntryOf;
    var s, locals, centrals := Archive(files), |Locals(files)|, |Centrals(files)|;
    UnzipStart(files);
    ReadCentralBounds(s, locals % TWO_32, |files| % TWO_16);
    forall f | f in files
      ensures |f.name| < TWO_16
    {
      var i :| 0 <= i < |files| && files[i] == f;
      NameOf(files, i);
      assert EntriesOf(files)[i] in EntriesOf(files);
    }
  }

  lemma NameOf(files: seq<File>, i: nat)
    requires i < |files|
    ensures EntriesOf(files)[i].name == files[i].name
  {
  }

  /** The archive reads back exactly when the files are within the format's limits. */
  lemma RoundTripExactlyWithinLimits(files: seq<File>)
    ensures Unzip(Archive(files)) == Some(EntriesOf(files)) <==> WithinLimits(files)
  {
    hide *;
    if WithinLimits(files) {
      UnzipArchive(files);
    }
    if Unzip(Archive(files)) == Some(EntriesOf(files)) {
      UnzipNeedsLimits(files);
    }
  }
}
