/** Reading a compiled zone file: `File` and `readTimeZoneFile` (base/timeZone.cc). */
module TzFile {
  import opened CInts
  import opened Options
  import opened Bytes
  import opened TimeZone

  /** An open file: what it holds and how far it has been read. */
  class File {
    const content: seq<byte>
    var pos: nat

    constructor (content: seq<byte>)
      ensures this.content == content && pos == 0
    {
      this.content := content;
      pos := 0;
    }

    /** `readBytes` for a non-negative count: `None` stands for the exception. */
    method ReadBytes(n: nat) returns (r: Option<seq<byte>>)
      modifies this
      ensures r.Some? <==> old(pos) + n <= |content|
      ensures r.Some? ==> pos == old(pos) + n && r.value == content[old(pos)..pos]
    {
      if pos + n > |content| { return None; }
      r := Some(content[pos..pos + n]);
      pos := pos + n;
    }

    method ReadInt32() returns (r: Option<int>)
      modifies this
      ensures r.Some? <==> old(pos) + 4 <= |content|
      ensures r.Some? ==> pos == old(pos) + 4 && r.value == Int32At(content, old(pos))
    {
      if pos + 4 > |content| { return None; }
      r := Some(DecodeInt32(content[pos..pos + 4]));
      pos := pos + 4;
    }

    method ReadUInt8() returns (r: Option<byte>)
      modifies this
      ensures r.Some? <==> old(pos) + 1 <= |content|
      ensures r.Some? ==> pos == old(pos) + 1 && r.value == content[old(pos)]
    {
      if pos + 1 > |content| { return None; }
      r := Some(content[pos]);
      pos := pos + 1;
    }
  }

  function Int32At(bytes: seq<byte>, pos: nat): int
    requires pos + 4 <= |bytes|
  {
    DecodeInt32(bytes[pos..pos + 4])
  }

  const MAGIC: seq<byte> := [0x54, 0x5a, 0x69, 0x66]
  const HEADER_SIZE: nat := 44

  /** Header fields in the order the file gives them. */
  function TimeCount(bytes: seq<byte>): int
    requires |bytes| >= HEADER_SIZE
  {
    Int32At(bytes, 32)
  }

  function TypeCount(bytes: seq<byte>): int
    requires |bytes| >= HEADER_SIZE
  {
    Int32At(bytes, 36)
  }

  function CharCount(bytes: seq<byte>): int
    requires |bytes| >= HEADER_SIZE
  {
    Int32At(bytes, 40)
  }

  /** A loop over a negative count runs no iteration. */
  function Times(count: int): nat {
    if count < 0 then 0 else count
  }

  function TypesStart(bytes: seq<byte>): nat
    requires |bytes| >= HEADER_SIZE
  {
    HEADER_SIZE + 5 * Times(TimeCount(bytes))
  }

  function CharsStart(bytes: seq<byte>): nat
    requires |bytes| >= HEADER_SIZE
  {
    TypesStart(bytes) + 6 * Times(TypeCount(bytes))
  }

  /** The header is right and the times, indices and types are all there. */
  predicate TablesPresent(bytes: seq<byte>) {
    && |bytes| >= HEADER_SIZE && bytes[..4] == MAGIC
    && TimeCount(bytes) >= 0
    && CharsStart(bytes) <= |bytes|
  }

  predicate IndicesInside(bytes: seq<byte>)
    requires TablesPresent(bytes)
  {
    forall i :: 0 <= i < TimeCount(bytes) ==> IndexAt(bytes, i) < TypeCount(bytes)
  }

  predicate Readable(bytes: seq<byte>) {
    && TablesPresent(bytes) && IndicesInside(bytes)
    && CharCount(bytes) >= 0 && CharsStart(bytes) + CharCount(bytes) <= |bytes|
  }

  function TimeAt(bytes: seq<byte>, i: nat): int
    requires TablesPresent(bytes) && i < TimeCount(bytes)
  {
    Int32At(bytes, HEADER_SIZE + 4 * i)
  }

  function IndexAt(bytes: seq<byte>, i: nat): nat
    requires TablesPresent(bytes) && i < TimeCount(bytes)
  {
    bytes[HEADER_SIZE + 4 * TimeCount(bytes) + i]
  }

  function TypeFields(bytes: seq<byte>, p: nat): Localtime
    requires p + 6 <= |bytes|
  {
    Localtime(Int32At(bytes, p), bytes[p + 4] != 0, bytes[p + 5])
  }

  function TypeAt(bytes: seq<byte>, k: nat): Localtime
    requires TablesPresent(bytes) && k < TypeCount(bytes)
  {
    TypeFields(bytes, TypesStart(bytes) + 6 * k)
  }

  function TransitionAt(bytes: seq<byte>, i: nat): Transition
    requires TablesPresent(bytes) && IndicesInside(bytes) && i < TimeCount(bytes)
  {
    var t, k := TimeAt(bytes, i), IndexAt(bytes, i);
    Transition(t, t + TypeAt(bytes, k).gmtOffset, k)
  }

  function Table(bytes: seq<byte>): Data
    requires TablesPresent(bytes) && IndicesInside(bytes)
  {
    Data(seq(TimeCount(bytes), i requires 0 <= i < TimeCount(bytes) => TransitionAt(bytes, i)),
         seq(Times(TypeCount(bytes)), k requires 0 <= k < Times(TypeCount(bytes)) => TypeAt(bytes, k)))
  }

  function Abbreviations(bytes: seq<byte>): seq<byte>
    requires Readable(bytes)
  {
    bytes[CharsStart(bytes)..CharsStart(bytes) + CharCount(bytes)]
  }

  /** How reading ends: normally, by a caught exception (what was pushed stays), or
      in behaviour C++ leaves undefined (an index outside the types, or an array of
      negative size). */
  datatype Status = Complete | Thrown | Undefined

  /** The header: counts of transition times, of types and of designation bytes. */
  method ReadHeader(f: File) returns (r: Option<(int, int, int)>)
    requires f.pos == 0
    modifies f
    ensures r.Some? <==> |f.content| >= HEADER_SIZE && f.content[..4] == MAGIC
    ensures r.Some? ==> f.pos == HEADER_SIZE
    ensures r.Some? ==> r.value == (TimeCount(f.content), TypeCount(f.content), CharCount(f.content))
  {
    hide DecodeInt32;
    r := None;
    var head := f.ReadBytes(4);
    if head.None? || head.value != MAGIC { return; }
    var version := f.ReadBytes(1);
    if version.None? { return; }
    var reserved := f.ReadBytes(15);
    if reserved.None? { return; }
    var isgmtcnt := f.ReadInt32();
    if isgmtcnt.None? { return; }
    var isstdcnt := f.ReadInt32();
    if isstdcnt.None? { return; }
    var leapcnt := f.ReadInt32();
    if leapcnt.None? { return; }
    var timecnt := f.ReadInt32();
    if timecnt.None? { return; }
    var typecnt := f.ReadInt32();
    if typecnt.None? { return; }
    var charcnt := f.ReadInt32();
    if charcnt.None? { return; }
    r := Some((timecnt.value, typecnt.value, charcnt.value));
  }

  method ReadTimes(f: File, count: nat) returns (r: Option<seq<int>>)
    requires f.pos == HEADER_SIZE <= |f.content|
    modifies f
    ensures r.Some? <==> HEADER_SIZE + 4 * count <= |f.content|
    ensures r.Some? ==> f.pos == HEADER_SIZE + 4 * count && |r.value| == count
    ensures r.Some? ==> forall j: nat :: j < count ==> r.value[j] == Int32At(f.content, HEADER_SIZE + 4 * j)
  {
    hide DecodeInt32;
    var trans: seq<int> := [];
    for i := 0 to count
      invariant f.pos == HEADER_SIZE + 4 * i <= |f.content| && |trans| == i
      invariant forall j: nat :: j < i ==> trans[j] == Int32At(f.content, HEADER_SIZE + 4 * j)
    {
      var t := f.ReadInt32();
      if t.None? { return None; }
      trans := trans + [t.value];
    }
    r := Some(trans);
  }

  method ReadIndices(f: File, count: nat) returns (r: Option<seq<byte>>)
    requires f.pos <= |f.content|
    modifies f
    ensures r.Some? <==> old(f.pos) + count <= |f.content|
    ensures r.Some? ==> f.pos == old(f.pos) + count && r.value == f.content[old(f.pos)..f.pos]
  {
    var indices: seq<byte> := [];
    for i := 0 to count
      invariant f.pos == old(f.pos) + i <= |f.content| && indices == f.content[old(f.pos)..f.pos]
    {
      var k := f.ReadUInt8();
      if k.None? { return None; }
      indices := indices + [k.value];
    }
    r := Some(indices);
  }

  /** Pushes the local time types; when it runs out of data, those pushed stay. */
  method ReadTypes(f: File, count: nat) returns (all: bool, types: seq<Localtime>)
    requires f.pos <= |f.content|
    modifies f
    ensures all <==> old(f.pos) + 6 * count <= |f.content|
    ensures all ==> f.pos == old(f.pos) + 6 * count && |types| == count
    ensures old(f.pos) + 6 * |types| <= |f.content|
    ensures forall j: nat :: j < |types| ==> types[j] == TypeFields(f.content, old(f.pos) + 6 * j)
  {
    hide DecodeInt32;
    types := [];
    for i := 0 to count
      invariant f.pos == old(f.pos) + 6 * i <= |f.content| && |types| == i
      invariant forall j: nat :: j < i ==> types[j] == TypeFields(f.content, old(f.pos) + 6 * j)
    {
      var gmtoff := f.ReadInt32();
      if gmtoff.None? { return false, types; }
      var isdst := f.ReadUInt8();
      if isdst.None? { return false, types; }
      var abbrind := f.ReadUInt8();
      if abbrind.None? { return false, types; }
      types := types + [Localtime(gmtoff.value, isdst.value != 0, abbrind.value)];
    }
    all := true;
  }

  /** `readTimeZoneFile` on an open file. */
  method ReadTimeZoneFile(bytes: seq<byte>) returns (status: Status, data: Data, abbreviation: seq<byte>)
    ensures status == Complete <==> Readable(bytes)
    ensures status == Complete ==> data == Table(bytes) && abbreviation == Abbreviations(bytes)
    ensures status == Undefined <==> TablesPresent(bytes) && (!IndicesInside(bytes) || CharCount(bytes) < 0)
  {
    hide DecodeInt32, TimeCount, TypeCount, CharCount, Int32At, TypeFields;
    status, data, abbreviation := Thrown, Data([], []), [];
    var f := new File(bytes);
    var counts := ReadHeader(f);
    if counts.None? || counts.value.0 < 0 { return; }
    var (timecnt, typecnt, charcnt) := counts.value;
    var trans := ReadTimes(f, timecnt);
    if trans.None? { return; }
    var indices := ReadIndices(f, timecnt);
    if indices.None? { return; }
    var all, types := ReadTypes(f, Times(typecnt));
    data := data.(localtimes := types);
    if !all { return; }
    assert TablesPresent(bytes);
    assert types == seq(Times(typecnt), k requires 0 <= k < Times(typecnt) => TypeAt(bytes, k));
    for i := 0 to timecnt
      invariant |data.transitions| == i && data.localtimes == types
      invariant forall j: nat :: j < i ==>
        IndexAt(bytes, j) < |types| && data.transitions[j] == ReadTransition(bytes, types, j)
    {
      var k: nat := indices.value[i];
      assert k == IndexAt(bytes, i) && trans.value[i] == TimeAt(bytes, i);
      if k >= |types| { return Undefined, data, []; }
      var localtime := trans.value[i] + types[k].gmtOffset;
      data := data.(transitions := data.transitions + [Transition(trans.value[i], localtime, k)]);
    }
    assert data.transitions == Table(bytes).transitions;
    if charcnt < 0 { return Undefined, data, []; }
    var chars := f.ReadBytes(charcnt);
    if chars.None? { return; }
    status, abbreviation := Complete, chars.value;
  }

  function ReadTransition(bytes: seq<byte>, types: seq<Localtime>, i: nat): Transition
    requires TablesPresent(bytes) && i < TimeCount(bytes) && IndexAt(bytes, i) < |types|
  {
    var t := TimeAt(bytes, i);
    Transition(t, t + types[IndexAt(bytes, i)].gmtOffset, IndexAt(bytes, i))
  }

  // ------------------------------------------- encoding, per RFC 8536 section 3

  datatype TypeRecord = TypeRecord(utoff: int, isdst: bool, desigidx: byte)

  /** A version-1 header and data block; `rest` stands for the parts after the
      time zone designations and for any later blocks. */
  datatype Block = Block(version: byte, isutcnt: int, isstdcnt: int, leapcnt: int,
                         times: seq<int>, indices: seq<byte>, types: seq<TypeRecord>,
                         designations: seq<byte>, rest: seq<byte>)

  predicate ValidBlock(b: Block) {
    && |b.times| == |b.indices| <= INT32_MAX && 1 <= |b.types| <= INT32_MAX && |b.designations| <= INT32_MAX
    && (forall i :: 0 <= i < |b.times| ==> FitsInt32(b.times[i]))
    && (forall i :: 0 <= i < |b.indices| ==> b.indices[i] < |b.types|)
    && (forall k :: 0 <= k < |b.types| ==> FitsInt32(b.types[k].utoff))
  }

  function {:induction false} EncodeTimes(times: seq<int>): (e: seq<byte>)
    ensures |e| == 4 * |times|
  {
    if times == [] then [] else EncodeInt32(times[0]) + EncodeTimes(times[1..])
  }

  function EncodeType(t: TypeRecord): (e: seq<byte>)
    ensures |e| == 6
  {
    EncodeInt32(t.utoff) + [if t.isdst then 1 else 0, t.desigidx]
  }

  function {:induction false} EncodeTypes(types: seq<TypeRecord>): (e: seq<byte>)
    ensures |e| == 6 * |types|
  {
    if types == [] then [] else EncodeType(types[0]) + EncodeTypes(types[1..])
  }

  function EncodeHeader(b: Block): (e: seq<byte>)
    ensures |e| == HEADER_SIZE
  {
    MAGIC + [b.version] + seq(15, i => 0)
    + EncodeInt32(b.isutcnt) + EncodeInt32(b.isstdcnt) + EncodeInt32(b.leapcnt)
    + EncodeInt32(|b.times|) + EncodeInt32(|b.types|) + EncodeInt32(|b.designations|)
  }

  function Encode(b: Block): seq<byte> {
    EncodeHeader(b) + EncodeTimes(b.times) + b.indices + EncodeTypes(b.types) + b.designations + b.rest
  }

  lemma {:induction false} EncodeTimesAt(times: seq<int>, i: nat)
    requires i < |times|
    ensures EncodeTimes(times)[4 * i..4 * i + 4] == EncodeInt32(times[i])
  {
    if i > 0 {
      EncodeTimesAt(times[1..], i - 1);
      assert EncodeTimes(times)[4 * i..4 * i + 4] == EncodeTimes(times[1..])[4 * (i - 1)..4 * (i - 1) + 4];
    }
  }

  lemma {:induction false} EncodeTypesAt(types: seq<TypeRecord>, k: nat)
    requires k < |types|
    ensures EncodeTypes(types)[6 * k..6 * k + 6] == EncodeType(types[k])
  {
    if k > 0 {
      EncodeTypesAt(types[1..], k - 1);
      assert EncodeTypes(types)[6 * k..6 * k + 6] == EncodeTypes(types[1..])[6 * (k - 1)..6 * (k - 1) + 6];
    }
  }

  /** The table a block describes: each local time is the UTC time plus the offset
      that starts there. */
  function TableOf(b: Block): Data
    requires ValidBlock(b)
  {
    Data(seq(|b.times|, i requires 0 <= i < |b.times| =>
               Transition(b.times[i], b.times[i] + b.types[b.indices[i]].utoff, b.indices[i])),
         seq(|b.types|, k requires 0 <= k < |b.types| =>
               Localtime(b.types[k].utoff, b.types[k].isdst, b.types[k].desigidx)))
  }

  lemma SliceOfParts(a: seq<byte>, b: seq<byte>, c: seq<byte>, i: nat, j: nat)
    requires i <= j <= |b|
    ensures (a + b + c)[|a| + i..|a| + j] == b[i..j]
  {
  }

  lemma HeaderFields(b: Block)
    requires ValidBlock(b)
    ensures var e := Encode(b);
            && |e| >= HEADER_SIZE && e[..4] == MAGIC
            && TimeCount(e) == |b.times| && TypeCount(e) == |b.types| && CharCount(e) == |b.designations|
  {
    hide EncodeInt32, DecodeInt32;
    var e, h := Encode(b), EncodeHeader(b);
    assert h == e[..HEADER_SIZE];
    assert e[32..36] == h[32..36] == EncodeInt32(|b.times|);
    assert e[36..40] == h[36..40] == EncodeInt32(|b.types|);
    assert e[40..44] == h[40..44] == EncodeInt32(|b.designations|);
    Int32RoundTrip(|b.times|);
    Int32RoundTrip(|b.types|);
    Int32RoundTrip(|b.designations|);
  }

  lemma EncodedTimes(b: Block, i: nat)
    requires ValidBlock(b) && TablesPresent(Encode(b)) && TimeCount(Encode(b)) == |b.times| && i < |b.times|
    ensures TimeAt(Encode(b), i) == b.times[i] && IndexAt(Encode(b), i) == b.indices[i]
  {
    hide EncodeInt32, DecodeInt32;
    var e, h, ts := Encode(b), EncodeHeader(b), EncodeTimes(b.times);
    var tail := b.indices + EncodeTypes(b.types) + b.designations + b.rest;
    assert e == h + ts + tail;
    SliceOfParts(h, ts, tail, 4 * i, 4 * i + 4);
    EncodeTimesAt(b.times, i);
    Int32RoundTrip(b.times[i]);
    assert e[HEADER_SIZE + 4 * |b.times| + i] == tail[i];
  }

  lemma EncodedTypeBytes(b: Block, k: nat)
    requires k < |b.types|
    ensures var p := HEADER_SIZE + 4 * |b.times| + |b.indices| + 6 * k;
            p + 6 <= |Encode(b)| && Encode(b)[p..p + 6] == EncodeType(b.types[k])
  {
    hide EncodeInt32, EncodeHeader;
    var ys := EncodeTypes(b.types);
    var front, tail := EncodeHeader(b) + EncodeTimes(b.times) + b.indices, b.designations + b.rest;
    assert Encode(b) == front + ys + tail;
    SliceOfParts(front, ys, tail, 6 * k, 6 * k + 6);
    EncodeTypesAt(b.types, k);
  }

  lemma EncodedTypeFields(bytes: seq<byte>, p: nat, t: TypeRecord)
    requires p + 6 <= |bytes| && bytes[p..p + 6] == EncodeType(t) && FitsInt32(t.utoff)
    ensures TypeFields(bytes, p) == Localtime(t.utoff, t.isdst, t.desigidx)
  {
    hide EncodeInt32, DecodeInt32;
    var field := EncodeType(t);
    assert bytes[p..p + 4] == bytes[p..p + 6][..4] == field[..4] == EncodeInt32(t.utoff);
    assert bytes[p + 4] == field[4] && bytes[p + 5] == field[5];
    Int32RoundTrip(t.utoff);
  }

  lemma EncodedTypes(b: Block, k: nat)
    requires ValidBlock(b) && TablesPresent(Encode(b)) && k < |b.types|
    requires TimeCount(Encode(b)) == |b.times| && TypeCount(Encode(b)) == |b.types|
    ensures TypeAt(Encode(b), k) == Localtime(b.types[k].utoff, b.types[k].isdst, b.types[k].desigidx)
  {
    hide Encode, EncodeType, TypeFields, TimeCount, TypeCount;
    EncodedTypeBytes(b, k);
    EncodedTypeFields(Encode(b), TypesStart(Encode(b)) + 6 * k, b.types[k]);
  }

  /** Every valid version-1 block reads back as the types and transitions it was
      made from, whatever follows its designations, and what is read satisfies all
      that the local time lookups rely on. */
  lemma EncodedBlockReadsBack(b: Block)
    requires ValidBlock(b)
    ensures FromFile(TableOf(b))
    ensures Readable(Encode(b))
    ensures Table(Encode(b)) == TableOf(b)
    ensures Abbreviations(Encode(b)) == b.designations
  {
    hide EncodeInt32, DecodeInt32, TimeCount, TypeCount, CharCount, TypeAt, TimeAt, IndexAt;
    var e := Encode(b);
    HeaderFields(b);
    forall i: nat | i < |b.times| ensures TimeAt(e, i) == b.times[i] && IndexAt(e, i) == b.indices[i] {
      EncodedTimes(b, i);
    }
    forall k: nat | k < |b.types|
      ensures TypeAt(e, k) == Localtime(b.types[k].utoff, b.types[k].isdst, b.types[k].desigidx)
    {
      EncodedTypes(b, k);
    }
    assert Table(e).transitions == TableOf(b).transitions;
    assert Table(e).localtimes == TableOf(b).localtimes;
  }
}
