/** Spooling of captured RTP records to per-stream files: the record codec, the bounded cache of open
    writers, and sequence extension with the final sort (crates/capture/src/lib.rs). */
module RtpSpool {
  import opened Wrappers

  const TWO_16: int := 0x1_0000
  const TWO_31: int := 0x8000_0000
  const TWO_32: int := 0x1_0000_0000
  const TWO_63: int := 0x8000_0000_0000_0000
  const TWO_64: int := 0x1_0000_0000_0000_0000
  const HEADER: int := 36
  const MAX_PAYLOAD: int := 65_535
  const MAX_WRITERS: int := 128

  type u16 = x: int | 0 <= x < TWO_16
  type u32 = x: int | 0 <= x < TWO_32
  type u64 = x: int | 0 <= x < TWO_64
  type i64 = x: int | -TWO_63 <= x < TWO_63
  type Bytes = seq<byte>

  datatype Record = Record(number: u64, micros: u64, extended: i64, sequence: u16, timestamp: u32, pt: byte,
                           marker: bool, payload: Bytes)

  // ---------------------------------------------------------------- record codec

  function Pow256(n: nat): (p: nat)
    ensures p > 0
  {
    if n == 0 then 1 else 256 * Pow256(n - 1)
  }

  /** The low `width` bytes of a number, least significant first. */
  function Le(n: nat, width: nat): (b: Bytes)
    ensures |b| == width
  {
    if width == 0 then [] else [n % 256] + Le(n / 256, width - 1)
  }

  function FromLe(b: Bytes): nat
  {
    if b == [] then 0 else b[0] + 256 * FromLe(b[1..])
  }

  lemma {:induction false} LeRoundTrip(n: nat, width: nat)
    requires n < Pow256(width)
    ensures FromLe(Le(n, width)) == n
    decreases width
  {
    if width > 0 {
      LeRoundTrip(n / 256, width - 1);
      assert Le(n, width)[1..] == Le(n / 256, width - 1);
    }
  }

  /** Two's complement. */
  function Unsigned(x: i64): u64
  {
    if x < 0 then x + TWO_64 else x
  }

  function Signed(x: u64): i64
  {
    if x >= TWO_63 then x - TWO_64 else x
  }

  function Encode(r: Record): Bytes
  {
    Le(r.number, 8) + Le(r.micros, 8) + Le(Unsigned(r.extended), 8) + Le(r.sequence, 2) + Le(r.timestamp, 4)
    + [r.pt, if r.marker then 1 else 0] + Le(|r.payload| % TWO_32, 4) + r.payload
  }

  datatype ReadError = UnexpectedEof | InvalidLength

  /** One record and the bytes behind it; none at the end of the file. */
  function Decode(b: Bytes): Result<Option<(Record, Bytes)>, ReadError>
  {
    if b == [] then Ok(None)
    else if |b| < HEADER then Err(UnexpectedEof)
    else
      var length := FromLe(b[32..36]);
      if length > MAX_PAYLOAD then Err(InvalidLength)
      else if |b| < HEADER + length then Err(UnexpectedEof)
      else
        Ok(Some((Fields(b, b[36..36 + length]), b[36 + length..])))
  }

  function Fields(b: Bytes, payload: Bytes): Record
    requires |b| >= HEADER
  {
    FromLeBound(b[..8]);
    FromLeBound(b[8..16]);
    FromLeBound(b[16..24]);
    FromLeBound(b[24..26]);
    FromLeBound(b[26..30]);
    Pow256Values();
    Record(FromLe(b[..8]), FromLe(b[8..16]), Signed(FromLe(b[16..24])), FromLe(b[24..26]), FromLe(b[26..30]),
           b[30], b[31] != 0, payload)
  }

  lemma {:induction false} FromLeBound(b: Bytes)
    ensures FromLe(b) < Pow256(|b|)
  {
    if b != [] {
      FromLeBound(b[1..]);
    }
  }

  lemma Pow256Values()
    ensures Pow256(2) == TWO_16 && Pow256(4) == TWO_32 && Pow256(8) == TWO_64
  {
    assert Pow256(2) == 256 * Pow256(1) && Pow256(1) == 256 * Pow256(0);
    assert Pow256(4) == 256 * Pow256(3) && Pow256(3) == 256 * Pow256(2);
    assert Pow256(8) == 256 * Pow256(7) && Pow256(7) == 256 * Pow256(6);
    assert Pow256(6) == 256 * Pow256(5) && Pow256(5) == 256 * Pow256(4);
  }

  /** Where the fields of a record stand in a file. */
  ghost predicate Laid(b: Bytes, r: Record)
  {
    && |b| >= HEADER
    && b[..8] == Le(r.number, 8) && b[8..16] == Le(r.micros, 8) && b[16..24] == Le(Unsigned(r.extended), 8)
    && b[24..26] == Le(r.sequence, 2) && b[26..30] == Le(r.timestamp, 4)
    && b[30] == r.pt && b[31] == (if r.marker then 1 else 0) && b[32..36] == Le(|r.payload| % TWO_32, 4)
  }

  lemma EncodeLaid(r: Record, rest: Bytes)
    ensures Laid(Encode(r) + rest, r)
    ensures |Encode(r) + rest| == HEADER + |r.payload| + |rest|
    ensures (Encode(r) + rest)[36..36 + |r.payload|] == r.payload
    ensures (Encode(r) + rest)[36 + |r.payload|..] == rest
  {
    hide Le;
  }

  lemma FieldsLaid(b: Bytes, r: Record)
    requires Laid(b, r)
    ensures Fields(b, r.payload) == r
  {
    Pow256Values();
    LeRoundTrip(r.number, 8);
    LeRoundTrip(r.micros, 8);
    LeRoundTrip(Unsigned(r.extended), 8);
    LeRoundTrip(r.sequence, 2);
    LeRoundTrip(r.timestamp, 4);
    hide Le, FromLe, Pow256;
  }

  lemma LengthLaid(b: Bytes, r: Record)
    requires Laid(b, r) && |r.payload| < TWO_32
    ensures FromLe(b[32..36]) == |r.payload|
  {
    hide Le, FromLe, Pow256;
    assert |r.payload| % TWO_32 == |r.payload|;
    Pow256Values();
    LeRoundTrip(|r.payload|, 4);
  }

  /** A record reads back identically, and what follows it is untouched, exactly when its payload does
      not exceed the limit; a longer one is rejected. */
  lemma RecordRoundTrip(r: Record, rest: Bytes)
    requires |r.payload| < TWO_32
    ensures Decode(Encode(r) + rest) == if |r.payload| <= MAX_PAYLOAD then Ok(Some((r, rest))) else Err(InvalidLength)
  {
    hide Le, FromLe, Encode, Laid, Fields;
    EncodeLaid(r, rest);
    FieldsLaid(Encode(r) + rest, r);
    LengthLaid(Encode(r) + rest, r);
  }

  function EncodeAll(rs: seq<Record>): Bytes
  {
    if rs == [] then [] else EncodeAll(rs[..|rs|-1]) + Encode(rs[|rs|-1])
  }

  /** The bytes of a record: all numbers least significant byte first, the payload behind 36 bytes. */
  lemma RecordLayout(r: Record)
    ensures var b := Encode(r);
      && |b| == 36 + |r.payload| && b[36..] == r.payload
      && FromLe(b[..8]) == r.number && FromLe(b[8..16]) == r.micros
      && FromLe(b[16..24]) == (if r.extended < 0 then r.extended + 0x1_0000_0000_0000_0000 else r.extended)
      && b[24] == r.sequence % 256 && b[25] == r.sequence / 256
      && FromLe(b[26..30]) == r.timestamp && b[26] == r.timestamp % 256
      && b[30] == r.pt && b[31] == (if r.marker then 1 else 0)
      && FromLe(b[32..36]) == |r.payload| % 0x1_0000_0000
  {
    hide Le, FromLe, Encode;
    EncodeLaid(r, []);
    assert Encode(r) + [] == Encode(r);
    Pow256Values();
    LeRoundTrip(r.number, 8);
    LeRoundTrip(r.micros, 8);
    LeRoundTrip(Unsigned(r.extended), 8);
    LeRoundTrip(r.timestamp, 4);
    LeRoundTrip(|r.payload| % TWO_32, 4);
    LeTwo(r.sequence);
    LeFirst(r.timestamp, 4);
    assert Encode(r)[24..26][0] == Encode(r)[24] && Encode(r)[24..26][1] == Encode(r)[25];
    assert Encode(r)[26..30][0] == Encode(r)[26];
  }

  lemma {:induction false} LeTwo(n: u16)
    ensures Le(n, 2) == [n % 256, n / 256]
  {
    assert Le(n, 2) == [n % 256] + Le(n / 256, 1) && Le(n / 256, 1) == [n / 256 % 256] + Le(n / 256 / 256, 0);
  }

  lemma {:induction false} LeFirst(n: nat, width: nat)
    requires width > 0
    ensures Le(n, width)[0] == n % 256
  {
  }

  /** A record cut short anywhere is an error, never a shorter record. */
  lemma TruncatedRecord(r: Record, n: nat)
    requires |r.payload| <= 65_535 && 0 < n < |Encode(r)|
    ensures Decode(Encode(r)[..n]) == Err(UnexpectedEof)
  {
    hide Le, FromLe, Encode;
    RecordLayout(r);
    var b := Encode(r)[..n];
    if n >= 36 {
      assert b[32..36] == Encode(r)[32..36];
    }
  }

  /** Repeated reading until the end of the file. */
  function DecodeAll(b: Bytes): Result<seq<Record>, ReadError>
    decreases |b|
  {
    match Decode(b)
    case Err(e) => Err(e)
    case Ok(None) => Ok([])
    case Ok(Some((r, rest))) =>
      DecodeShrinks(b);
      match DecodeAll(rest)
      case Err(e) => Err(e)
      case Ok(rs) => Ok([r] + rs)
  }

  lemma DecodeShrinks(b: Bytes)
    ensures Decode(b).Ok? && Decode(b).value.Some? ==> |Decode(b).value.value.1| < |b|
  {
    hide FromLe;
  }

  ghost predicate Storable(rs: seq<Record>)
  {
    forall i :: 0 <= i < |rs| ==> |rs[i].payload| <= MAX_PAYLOAD
  }

  lemma {:induction false} EncodeAllCons(r: Record, rs: seq<Record>)
    ensures EncodeAll([r] + rs) == Encode(r) + EncodeAll(rs)
    decreases |rs|
  {
    hide Encode;
    var all := [r] + rs;
    if rs == [] {
      assert all[..0] == [];
    } else {
      assert all[..|all|-1] == [r] + rs[..|rs|-1];
      EncodeAllCons(r, rs[..|rs|-1]);
    }
  }

  /** A file of records reads back as exactly those records, in order. */
  lemma {:induction false} FileRoundTrip(rs: seq<Record>)
    requires Storable(rs)
    ensures DecodeAll(EncodeAll(rs)) == Ok(rs)
    decreases |rs|
  {
    hide Encode, Decode;
    if rs == [] {
      assert Decode([]) == Ok(None) by { DecodeNothing(); }
    } else {
      assert rs == [rs[0]] + rs[1..];
      EncodeAllCons(rs[0], rs[1..]);
      RecordRoundTrip(rs[0], EncodeAll(rs[1..]));
      FileRoundTrip(rs[1..]);
    }
  }

  lemma DecodeNothing()
    ensures Decode([]) == Ok(None)
  {
  }

  // ---------------------------------------------------------------- the writer cache

  datatype Writer = Writer(tick: nat, buffer: Bytes)

  type Files = map<nat, Writer>

  /** What a stream's file will hold once its writer, if open, is flushed. */
  function Content(disk: map<nat, Bytes>, files: Files, index: nat): Bytes
  {
    (if index in disk then disk[index] else []) + (if index in files then files[index].buffer else [])
  }

  function RecordsOf(log: map<nat, seq<Record>>, index: nat): seq<Record>
  {
    if index in log then log[index] else []
  }

  /** Disk content plus buffered bytes of every stream are the records written to it. */
  ghost predicate Transparent(disk: map<nat, Bytes>, files: Files, log: map<nat, seq<Record>>)
  {
    forall index: nat :: Content(disk, files, index) == EncodeAll(RecordsOf(log, index))
  }

  /** The open writers are those of the most recently used streams, at most 128. */
  ghost predicate Recent(files: Files, tick: nat, lastUse: map<nat, nat>)
  {
    && |files| <= MAX_WRITERS
    && (forall i :: i in files ==> i in lastUse && files[i].tick == lastUse[i])
    && (forall i :: i in lastUse ==> lastUse[i] <= tick)
    && (forall i, j :: i in lastUse && j in lastUse && i != j ==> lastUse[i] != lastUse[j])
    && (forall i, j :: i in lastUse && i !in files && j in files ==> lastUse[i] < lastUse[j])
    && (forall i :: i in lastUse && i !in files ==> |files| == MAX_WRITERS)
  }

  /** Closing the least recently used of 128 writers and using another stream keeps the order. */
  lemma RecentEvict(files: Files, tick: nat, lastUse: map<nat, nat>, oldest: nat, index: nat, w: Writer)
    requires Recent(files, tick, lastUse) && index !in files && w.tick == tick + 1
    requires oldest in files && |files| == MAX_WRITERS && forall i :: i in files ==> files[oldest].tick <= files[i].tick
    ensures Recent((files - {oldest})[index := w], tick + 1, lastUse[index := tick + 1])
  {
    var kept := files - {oldest};
    assert |kept| == MAX_WRITERS - 1;
    assert |kept[index := w]| == MAX_WRITERS;
  }

  lemma RecentUse(files: Files, tick: nat, lastUse: map<nat, nat>, index: nat, w: Writer)
    requires Recent(files, tick, lastUse) && w.tick == tick + 1 && (index in files || |files| < MAX_WRITERS)
    ensures Recent(files[index := w], tick + 1, lastUse[index := tick + 1])
  {
    assert |files[index := w]| == if index in files then |files| else |files| + 1 by {
      assert index in files ==> files[index := w].Keys == files.Keys;
    }
  }

  lemma AnyKey(files: Files) returns (index: nat)
    requires files != map[]
    ensures index in files
  {
    assert files.Keys == {} ==> files == map[];
    index :| index in files.Keys;
  }

  /** The writers left open before a record is written: all, or all but the least recently used of 128. */
  ghost predicate Evicted(files: Files, kept: Files, index: nat)
  {
    || (kept == files && (index in files || |files| < MAX_WRITERS))
    || (exists oldest :: oldest in files && EvictsOldest(files, kept, index, oldest))
  }

  ghost predicate EvictsOldest(files: Files, kept: Files, index: nat, oldest: nat)
    requires oldest in files
  {
    && kept == files - {oldest} && index !in files && |files| == MAX_WRITERS
    && forall i :: i in files ==> files[oldest].tick <= files[i].tick
  }

  lemma RecentWrite(files: Files, tick: nat, lastUse: map<nat, nat>, kept: Files, index: nat, w: Writer)
    requires Recent(files, tick, lastUse) && w.tick == tick + 1 && Evicted(files, kept, index)
    ensures Recent(kept[index := w], tick + 1, lastUse[index := tick + 1])
  {
    hide Recent;
    if kept == files && (index in files || |files| < MAX_WRITERS) {
      RecentUse(files, tick, lastUse, index, w);
    } else {
      var oldest :| oldest in files && EvictsOldest(files, kept, index, oldest);
      RecentEvict(files, tick, lastUse, oldest, index, w);
    }
  }

  ghost predicate AppendedTo(disk: map<nat, Bytes>, files: Files, grown: map<nat, Bytes>, open: Files, index: nat,
                             bytes: Bytes)
  {
    && Content(grown, open, index) == Content(disk, files, index) + bytes
    && forall i: nat :: i != index ==> Content(grown, open, i) == Content(disk, files, i)
  }

  ghost predicate SameContent(disk: map<nat, Bytes>, files: Files, after: map<nat, Bytes>, open: Files)
  {
    forall i: nat :: Content(after, open, i) == Content(disk, files, i)
  }

  lemma TransparentWrite(disk: map<nat, Bytes>, files: Files, log: map<nat, seq<Record>>,
                         stored: map<nat, Bytes>, ready: Files, grown: map<nat, Bytes>, open: Files, index: nat,
                         record: Record)
    requires Transparent(disk, files, log) && SameContent(disk, files, stored, ready)
    requires AppendedTo(stored, ready, grown, open, index, Encode(record))
    ensures Transparent(grown, open, log[index := RecordsOf(log, index) + [record]])
  {
    hide Content, Encode;
    var longer := log[index := RecordsOf(log, index) + [record]];
    forall i: nat ensures Content(grown, open, i) == EncodeAll(RecordsOf(longer, i)) {
      if i == index {
        assert RecordsOf(longer, i)[..|RecordsOf(longer, i)|-1] == RecordsOf(log, index);
      } else {
        assert RecordsOf(longer, i) == RecordsOf(log, i);
        assert Content(disk, files, i) == EncodeAll(RecordsOf(log, i));
      }
      assert Content(stored, ready, i) == Content(disk, files, i);
    }
  }

  function OnDisk(disk: map<nat, Bytes>, index: nat): Bytes
  {
    if index in disk then disk[index] else []
  }

  lemma ClosedContent(disk: map<nat, Bytes>, index: nat)
    ensures Content(disk, map[], index) == OnDisk(disk, index)
  {
  }

  lemma OpenKeepsContent(disk: map<nat, Bytes>, files: Files, index: nat, tick: nat)
    requires index !in files
    ensures SameContent(disk, files, disk, files[index := Writer(tick, [])])
  {
  }

  lemma WritersBound(files: Files, tick: nat, lastUse: map<nat, nat>)
    requires Recent(files, tick, lastUse)
    ensures |files| <= MAX_WRITERS
  {
  }

  /** Append-mode file writers. `disk` is the content of each stream's file; when a buffered writer
      writes through is left open. */
  class Spools {
    var files: Files
    var tick: nat
    var disk: map<nat, Bytes>
    ghost var log: map<nat, seq<Record>>
    ghost var lastUse: map<nat, nat>

    ghost predicate Valid()
      reads this
    {
      Transparent(disk, files, log) && Recent(files, tick, lastUse)
    }

    constructor ()
      ensures Valid() && log == map[] && lastUse == map[] && files == map[]
    {
      files, tick, disk, log, lastUse := map[], 0, map[], map[], map[];
    }

    /** The open writer with the least tick. */
    method Oldest() returns (oldest: nat)
      requires files != map[]
      ensures oldest in files && forall i :: i in files ==> files[oldest].tick <= files[i].tick
    {
      var left := files.Keys;
      ghost var open := AnyKey(files);
      oldest :| oldest in left;
      left := left - {oldest};
      while left != {}
        invariant left <= files.Keys && oldest in files
        invariant forall i :: i in files && i !in left ==> files[oldest].tick <= files[i].tick
        decreases left
      {
        ghost var remaining := AnyMember(left);
        var i :| i in left;
        if files[i].tick < files[oldest].tick {
          oldest := i;
        }
        left := left - {i};
      }
    }

    /** Flushes and closes a writer. */
    method Close(index: nat)
      requires index in files
      modifies this`files, this`disk
      ensures files == old(files) - {index}
      ensures SameContent(old(disk), old(files), disk, files)
    {
      disk := disk[index := Content(disk, files, index)];
      files := files - {index};
    }

    /** Writing through the buffer; any part of the buffer may reach the disk. */
    method Append(index: nat, bytes: Bytes)
      requires index in files
      modifies this`files, this`disk
      ensures index in files && files[index].tick == tick && files == old(files)[index := files[index]]
      ensures AppendedTo(old(disk), old(files), disk, files, index, bytes)
    {
      var buffer := files[index].buffer + bytes;
      var n :| 0 <= n <= |buffer|;
      assert buffer[..n] + buffer[n..] == buffer;
      var stored := if index in disk then disk[index] else [];
      disk := disk[index := stored + buffer[..n]];
      files := files[index := Writer(tick, buffer[n..])];
      assert stored + buffer[..n] + buffer[n..] == stored + (buffer[..n] + buffer[n..]);
    }

    /** Buffers the record behind everything written to its stream before, whatever else was written
        in between, and opens or reopens the stream's file when its writer is not among the 128 kept. */
    method Write(index: nat, record: Record)
      requires Valid()
      modifies this
      ensures Valid() && tick == old(tick) + 1
      ensures log == old(log)[index := RecordsOf(old(log), index) + [record]]
      ensures lastUse == old(lastUse)[index := tick]
    {
      hide Recent, Encode, Transparent, Content;
      ghost var was, kept := files, files;
      assert |was| <= MAX_WRITERS by { WritersBound(files, tick, lastUse); }
      tick := tick + 1;
      if index !in files {
        if |files| >= MAX_WRITERS {
          var oldest := Oldest();
          Close(oldest);
          kept := files;
          assert EvictsOldest(was, kept, index, oldest);
        }
        files := files[index := Writer(tick, [])];
        OpenKeepsContent(disk, kept, index, tick);
      }
      assert Evicted(was, kept, index);
      assert SameContent(old(disk), was, disk, files);
      ghost var stored, ready := disk, files;
      Append(index, Encode(record));
      assert files == kept[index := files[index]];
      RecentWrite(was, old(tick), lastUse, kept, index, files[index]);
      TransparentWrite(old(disk), was, log, stored, ready, disk, files, index, record);
      log := log[index := RecordsOf(log, index) + [record]];
      lastUse := lastUse[index := tick];
    }

    /** Flushes and closes every writer: each file then holds exactly the records written to its
        stream, and reads back as them. */
    method Finish()
      requires Valid()
      modifies this`files, this`disk
      ensures files == map[]
      ensures forall i: nat :: OnDisk(disk, i) == EncodeAll(RecordsOf(log, i))
      ensures forall i: nat :: Storable(RecordsOf(log, i)) ==> DecodeAll(OnDisk(disk, i)) == Ok(RecordsOf(log, i))
    {
      hide Encode, EncodeAll, DecodeAll, Storable, Content, RecordsOf;
      while files != map[]
        invariant Transparent(disk, files, log)
        decreases files.Keys
      {
        ghost var open := AnyKey(files);
        var i :| i in files;
        Close(i);
      }
      forall i: nat ensures OnDisk(disk, i) == EncodeAll(RecordsOf(log, i)) {
        assert Content(disk, files, i) == EncodeAll(RecordsOf(log, i));
        ClosedContent(disk, i);
      }
      forall i: nat | Storable(RecordsOf(log, i)) ensures DecodeAll(OnDisk(disk, i)) == Ok(RecordsOf(log, i)) {
        FileRoundTrip(RecordsOf(log, i));
      }
    }
  }

  // ---------------------------------------------------------------- sequence extension and the final sort

  /** The representative of `x` modulo 2^16 that a signed 16-bit word holds. */
  function Signed16(x: int): (y: int)
    ensures -0x8000 <= y < 0x8000 && (y - x) % TWO_16 == 0
  {
    (x + 0x8000) % TWO_16 - 0x8000
  }

  function Extend(highest: int, sequence: u16): int
  {
    highest + Signed16(sequence - highest)
  }

  /** A stream's extended numbers, with the highest so far carried along. */
  function ExtendAll(highest: int, sequences: seq<u16>): (extended: seq<int>)
    ensures |extended| == |sequences|
    decreases |sequences|
  {
    if sequences == [] then []
    else
      var e := Extend(highest, sequences[0]);
      [e] + ExtendAll(Max(highest, e), sequences[1..])
  }

  /** Each true index is at most 32768 behind or 32767 ahead of the highest one before it. */
  ghost predicate InWindow(highest: int, indexes: seq<int>)
    decreases |indexes|
  {
    indexes != [] ==> -0x8000 <= indexes[0] - highest < 0x8000 && InWindow(Max(highest, indexes[0]), indexes[1..])
  }

  function Wire(indexes: seq<int>): (sequences: seq<u16>)
    ensures |sequences| == |indexes|
  {
    seq(|indexes|, i requires 0 <= i < |indexes| => indexes[i] % TWO_16)
  }

  function Shifted(indexes: seq<int>, offset: int): (s: seq<int>)
    ensures |s| == |indexes|
  {
    seq(|indexes|, i requires 0 <= i < |indexes| => indexes[i] + offset)
  }

  lemma ExtendExact(highest: int, index: int, offset: int)
    requires -0x8000 <= index - highest < 0x8000 && offset % TWO_16 == 0
    ensures Extend(highest + offset, index % TWO_16) == index + offset
  {
    var d := index % TWO_16 - (highest + offset);
    var a, b := index / TWO_16, offset / TWO_16;
    assert d == (index - highest) - TWO_16 * (a + b);
    ModShift(index - highest + 0x8000, -(a + b));
  }

  lemma ModShift(x: int, k: int)
    requires 0 <= x < TWO_16
    ensures (x + TWO_16 * k) % TWO_16 == x
  {
  }

  /** A packet is extended to its true index plus a constant that the first packet fixes, as long as
      every true index stays in the signed 16-bit window around the highest before it. */
  lemma {:induction false} ExtensionIsTrueIndex(highest: int, indexes: seq<int>, offset: int)
    requires InWindow(highest, indexes) && offset % TWO_16 == 0
    ensures ExtendAll(highest + offset, Wire(indexes)) == Shifted(indexes, offset)
    decreases |indexes|
  {
    hide Extend;
    if indexes != [] {
      ExtendExact(highest, indexes[0], offset);
      ExtensionIsTrueIndex(Max(highest, indexes[0]), indexes[1..], offset);
      assert Wire(indexes)[1..] == Wire(indexes[1..]);
      assert Shifted(indexes, offset) == [indexes[0] + offset] + Shifted(indexes[1..], offset);
    }
  }

  /** The running maximum a stream keeps between packets. `top` is the highest true index so far and
      `offset` the constant between true and extended numbers. */
  class Numbering {
    var highest: int
    ghost var top: int
    ghost const offset: int

    ghost predicate Valid()
      reads this
    {
      highest == top + offset && offset % TWO_16 == 0
    }

    constructor (first: u16, ghost index: int)
      requires first == index % TWO_16
      ensures Valid() && top == index && highest == first
    {
      highest, top, offset := first, index, first - index;
      ModShift(0, -(index / TWO_16));
      assert first - index == TWO_16 * -(index / TWO_16);
    }

    method Observe(sequence: u16, ghost index: int) returns (extended: int)
      requires Valid() && sequence == index % TWO_16 && -0x8000 <= index - top < 0x8000
      modifies this
      ensures Valid() && top == Max(old(top), index)
      ensures extended == index + offset && extended == ExtendAll(old(highest), [sequence])[0]
    {
      ExtendExact(top, index, offset);
      extended := highest + Signed16(sequence - highest);
      highest := Max(highest, extended);
      top := Max(top, index);
    }
  }

  datatype Keyed<T> = Keyed(key: int, item: T)

  /** Stable insertion: behind every entry whose key is not greater. */
  function Insert<T>(sorted: seq<Keyed<T>>, x: Keyed<T>): seq<Keyed<T>>
  {
    if sorted == [] || sorted[|sorted|-1].key <= x.key then sorted + [x]
    else Insert(sorted[..|sorted|-1], x) + [sorted[|sorted|-1]]
  }

  function StableSort<T>(s: seq<Keyed<T>>): seq<Keyed<T>>
  {
    if s == [] then [] else Insert(StableSort(s[..|s|-1]), s[|s|-1])
  }

  ghost predicate Ordered<T>(s: seq<Keyed<T>>)
  {
    forall i, j :: 0 <= i < j < |s| ==> s[i].key <= s[j].key
  }

  /** The entries with one key, in order. */
  function WithKey<T>(s: seq<Keyed<T>>, key: int): seq<Keyed<T>>
  {
    if s == [] then []
    else WithKey(s[..|s|-1], key) + (if s[|s|-1].key == key then [s[|s|-1]] else [])
  }

  lemma {:induction false} InsertKeepsKey<T>(s: seq<Keyed<T>>, x: Keyed<T>, key: int)
    requires Ordered(s)
    ensures WithKey(Insert(s, x), key) == WithKey(s, key) + (if x.key == key then [x] else [])
    decreases |s|
  {
    if s == [] || s[|s|-1].key <= x.key {
      assert (s + [x])[..|s|] == s;
    } else {
      var front, last := s[..|s|-1], s[|s|-1];
      InsertKeepsKey(front, x, key);
      var placed := Insert(front, x);
      assert (placed + [last])[..|placed|] == placed;
    }
  }

  lemma {:induction false} InsertMembers<T>(s: seq<Keyed<T>>, x: Keyed<T>)
    ensures |Insert(s, x)| == |s| + 1
    ensures forall y :: y in Insert(s, x) <==> y in s || y == x
    decreases |s|
  {
    if s != [] && s[|s|-1].key > x.key {
      InsertMembers(s[..|s|-1], x);
      assert s == s[..|s|-1] + [s[|s|-1]];
    }
  }

  lemma {:induction false} InsertOrdered<T>(s: seq<Keyed<T>>, x: Keyed<T>)
    requires Ordered(s)
    ensures Ordered(Insert(s, x))
    decreases |s|
  {
    if s != [] && s[|s|-1].key > x.key {
      var front, last := s[..|s|-1], s[|s|-1];
      InsertOrdered(front, x);
      InsertMembers(front, x);
      assert s == front + [last];
      InsertBelow(front, x, Insert(front, x), last);
    }
  }

  lemma InsertBelow<T>(front: seq<Keyed<T>>, x: Keyed<T>, placed: seq<Keyed<T>>, last: Keyed<T>)
    requires Ordered(placed) && Ordered(front + [last]) && x.key < last.key
    requires forall y :: y in placed <==> y in front || y == x
    ensures Ordered(placed + [last])
  {
    forall i | 0 <= i < |placed| ensures placed[i].key <= last.key {
      assert placed[i] in placed;
      if placed[i] in front {
        var k :| 0 <= k < |front| && front[k] == placed[i];
        assert (front + [last])[k].key <= (front + [last])[|front|].key;
      }
    }
  }

  lemma NothingSorted<T>()
    ensures Ordered(StableSort<T>([]))
  {
  }

  lemma {:induction false} WithKeyLast<T>(s: seq<Keyed<T>>, key: int)
    requires s != []
    ensures WithKey(s, key) == WithKey(s[..|s|-1], key) + (if s[|s|-1].key == key then [s[|s|-1]] else [])
  {
  }

  /** The sort orders by key, keeps every entry, and keeps the arrival order of entries with equal keys. */
  lemma {:induction false} SortIsStable<T>(s: seq<Keyed<T>>, key: int)
    ensures Ordered(StableSort(s)) && |StableSort(s)| == |s|
    ensures WithKey(StableSort(s), key) == WithKey(s, key)
    ensures forall y :: y in StableSort(s) <==> y in s
    decreases |s|
  {
    if s == [] {
      NothingSorted<T>();
    } else {
      hide Insert, Ordered, WithKey;
      var front, x := s[..|s|-1], s[|s|-1];
      assert s == front + [x];
      SortIsStable(front, key);
      InsertKeepsKey(StableSort(front), x, key);
      InsertMembers(StableSort(front), x);
      InsertOrdered(StableSort(front), x);
      WithKeyLast(s, key);
    }
  }

  /** The members of a set of indexes in ascending order. */
  function Ascending(s: set<int>): seq<int>
    decreases |s|
  {
    if s == {} then [] else [Least(s)] + Ascending(s - {Least(s)})
  }

  lemma {:induction false} AscendingUnique(xs: seq<int>, s: set<int>)
    requires forall i, j :: 0 <= i < j < |xs| ==> xs[i] < xs[j]
    requires forall x :: x in xs <==> x in s
    ensures xs == Ascending(s)
    decreases |xs|
  {
    if xs == [] {
      assert forall x :: x in s ==> x in xs;
      assert s == {};
    } else {
      assert xs[0] in xs && xs[0] in s;
      var least := Least(s);
      assert least in xs;
      assert xs[0] == least;
      forall x ensures x in xs[1..] <==> x in s - {least} {
        if x in xs[1..] {
          assert x in xs;
        }
        if x in s - {least} {
          assert x in xs && x != xs[0];
        }
      }
      AscendingUnique(xs[1..], s - {least});
    }
  }

  ghost predicate Distinct(indexes: seq<int>)
  {
    forall i, j :: 0 <= i < j < |indexes| ==> indexes[i] != indexes[j]
  }

  /** Arrivals paired with the extended numbers the capture gives them; the first packet's own wire
      number starts the count. */
  function Arrivals(indexes: seq<int>): (a: seq<Keyed<int>>)
    requires indexes != []
    ensures |a| == |indexes|
  {
    var extended := ExtendAll(indexes[0] % TWO_16, Wire(indexes));
    seq(|indexes|, i requires 0 <= i < |indexes| => Keyed(extended[i], indexes[i]))
  }

  function Items(s: seq<Keyed<int>>): (items: seq<int>)
    ensures |items| == |s| && forall i :: 0 <= i < |s| ==> items[i] == s[i].item
  {
    seq(|s|, i requires 0 <= i < |s| => s[i].item)
  }

  lemma {:induction false} ArrivalKeys(indexes: seq<int>)
    requires indexes != [] && InWindow(indexes[0], indexes)
    ensures forall i :: 0 <= i < |indexes| ==>
      Arrivals(indexes)[i] == Keyed(indexes[i] + (indexes[0] % TWO_16 - indexes[0]), indexes[i])
  {
    var offset := indexes[0] % TWO_16 - indexes[0];
    assert offset == TWO_16 * -(indexes[0] / TWO_16);
    ModShift(0, -(indexes[0] / TWO_16));
    ExtensionIsTrueIndex(indexes[0], indexes, offset);
  }

  lemma {:induction false} WithKeyPair<T>(s: seq<Keyed<T>>, i: nat, j: nat)
    requires i <= j < |s| && s[i].key == s[j].key
    ensures |WithKey(s, s[j].key)| >= if i == j then 1 else 2
    decreases |s|
  {
    var front := s[..|s|-1];
    if j < |front| {
      WithKeyPair(front, i, j);
    } else if i < j {
      WithKeyPair(front, i, i);
    }
  }

  lemma {:induction false} WithKeyUnique<T>(s: seq<Keyed<T>>, key: int)
    requires forall i, j :: 0 <= i < j < |s| ==> s[i].key != s[j].key
    ensures |WithKey(s, key)| <= 1
    ensures (forall i :: 0 <= i < |s| ==> s[i].key != key) ==> WithKey(s, key) == []
    decreases |s|
  {
    if s != [] {
      WithKeyUnique(s[..|s|-1], key);
    }
  }

  /** Sorted entries with pairwise different keys ascend strictly. */
  lemma {:induction false} StrictlySorted<T>(s: seq<Keyed<T>>, i: nat, j: nat)
    requires forall a, b :: 0 <= a < b < |s| ==> s[a].key != s[b].key
    requires i < j < |s| && |StableSort(s)| == |s|
    ensures StableSort(s)[i].key < StableSort(s)[j].key
  {
    var sorted := StableSort(s);
    SortIsStable(s, sorted[j].key);
    if sorted[i].key == sorted[j].key {
      WithKeyPair(sorted, i, j);
      WithKeyUnique(s, sorted[j].key);
    }
  }

  /** Entries keyed by their own item plus a constant. */
  ghost predicate KeyedBy(s: seq<Keyed<int>>, indexes: seq<int>, offset: int)
  {
    && |s| == |indexes|
    && (forall i :: 0 <= i < |s| ==> s[i] == Keyed(indexes[i] + offset, indexes[i]))
  }

  lemma {:induction false} SortedEntries(indexes: seq<int>, s: seq<Keyed<int>>, offset: int, k: nat)
    requires KeyedBy(s, indexes, offset) && k < |StableSort(s)|
    ensures StableSort(s)[k] == Keyed(StableSort(s)[k].item + offset, StableSort(s)[k].item)
    ensures StableSort(s)[k].item in indexes
  {
    hide StableSort;
    SortIsStable(s, 0);
    assert StableSort(s)[k] in s;
  }

  lemma {:induction false} SortedReaches(indexes: seq<int>, s: seq<Keyed<int>>, offset: int, x: int)
    requires KeyedBy(s, indexes, offset) && x in indexes
    ensures x in Items(StableSort(s))
  {
    hide StableSort;
    SortIsStable(s, 0);
    var i :| 0 <= i < |indexes| && indexes[i] == x;
    assert s[i] in StableSort(s);
    var k :| 0 <= k < |StableSort(s)| && StableSort(s)[k] == s[i];
    assert Items(StableSort(s))[k] == x;
  }

  /** Sorting by extended number restores the send order of whatever arrived, across any number of
      16-bit wraps, when no packet is further than the window from the highest before it. */
  lemma {:induction false} SortRestoresSendOrder(indexes: seq<int>)
    requires indexes != [] && InWindow(indexes[0], indexes) && Distinct(indexes)
    ensures Items(StableSort(Arrivals(indexes))) == Ascending(set i | i in indexes)
  {
    hide Arrivals, StableSort, InWindow;
    var offset := indexes[0] % TWO_16 - indexes[0];
    var arrived := Arrivals(indexes);
    ArrivalKeys(indexes);
    SortIsStable(arrived, 0);
    var sorted := StableSort(arrived);
    var items := Items(sorted);
    forall i, j | 0 <= i < j < |items| ensures items[i] < items[j] {
      StrictlySorted(arrived, i, j);
      SortedEntries(indexes, arrived, offset, i);
      SortedEntries(indexes, arrived, offset, j);
    }
    forall x ensures x in items <==> x in (set i | i in indexes) {
      if x in items {
        var k :| 0 <= k < |items| && items[k] == x;
        SortedEntries(indexes, arrived, offset, k);
      }
      if x in indexes {
        SortedReaches(indexes, arrived, offset, x);
      }
    }
    AscendingUnique(items, set i | i in indexes);
  }
}
