/**
 Control messages (ancillary data): a byte buffer of records, each of them a header of 16
 bytes and data, padded to 8 bytes, as CMSG_SPACE and CMSG_LEN lay them out on a 64-bit Linux
 (sections 5.2 and 5.3 of RFC 3542).
 */
module ControlMessages {
  import opened Basics

  newtype int32 = x: int | -0x8000_0000 <= x < 0x8000_0000

  const HEADER: nat := 16
  const ALIGNMENT: nat := 8
  const SIZE_LIMIT: int := 0x1_0000_0000_0000_0000

  datatype Result<T> = Ok(value: T) | BadCMSG | TruncatedCMSG | Overflow

  datatype Record = Record(level: int32, kind: int32, data: seq<byte>)

  function Align(n: nat): (r: nat)
    ensures n <= r < n + ALIGNMENT && r % ALIGNMENT == 0
  {
    (n + 7) / ALIGNMENT * ALIGNMENT
  }

  // CMSG_LEN and CMSG_SPACE.
  function Len(dataSize: nat): nat { HEADER + dataSize }

  function Space(dataSize: nat): (r: nat)
    ensures Len(dataSize) <= r && r % ALIGNMENT == 0
  {
    HEADER + Align(dataSize)
  }

  lemma SpaceIsAlignedLen(dataSize: nat)
    ensures Align(Len(dataSize)) == Space(dataSize)
  {
  }

  // Little-endian representation of a number in so many bytes.
  function ToBytes(n: nat, size: nat): (r: seq<byte>)
    ensures |r| == size
    decreases size
  {
    if size == 0 then [] else [(n % 256) as byte] + ToBytes(n / 256, size - 1)
  }

  function FromBytes(s: seq<byte>): nat
    decreases |s|
  {
    if s == [] then 0 else s[0] as nat + 256 * FromBytes(s[1..])
  }

  function Power256(size: nat): (r: nat)
    ensures r > 0
  {
    if size == 0 then 1 else 256 * Power256(size - 1)
  }

  lemma {:induction false} BytesRoundTrip(n: nat, size: nat)
    requires n < Power256(size)
    ensures FromBytes(ToBytes(n, size)) == n
    decreases size
  {
    if size > 0 {
      BytesRoundTrip(n / 256, size - 1);
    }
  }

  function ToBytes32(n: int32): (r: seq<byte>)
    ensures |r| == 4
  {
    ToBytes(if n < 0 then n as int + 0x1_0000_0000 else n as int, 4)
  }

  lemma {:induction false} BytesBound(s: seq<byte>)
    ensures FromBytes(s) < Power256(|s|)
    decreases |s|
  {
    if s != [] {
      BytesBound(s[1..]);
    }
  }

  lemma Power256Values()
    ensures Power256(4) == 0x1_0000_0000 && Power256(8) == SIZE_LIMIT
  {
    assert Power256(2) == 0x1_0000;
    assert Power256(4) == 0x1_0000_0000;
    assert Power256(6) == 0x1_0000_0000_0000;
  }

  function FromBytes32(s: seq<byte>): int32
    requires |s| == 4
  {
    BytesBound(s);
    Power256Values();
    var n := FromBytes(s);
    (if n < 0x8000_0000 then n else n - 0x1_0000_0000) as int32
  }

  lemma BytesRoundTrip32(n: int32)
    ensures FromBytes32(ToBytes32(n)) == n
  {
    Power256Values();
    BytesRoundTrip(if n < 0 then n as int + 0x1_0000_0000 else n as int, 4);
  }

  // The fields of the header at the start of s.
  function CmsgLen(s: seq<byte>): nat
    requires |s| >= HEADER
  {
    FromBytes(s[..8])
  }

  function RecordAt(s: seq<byte>): Record
    requires |s| >= HEADER && HEADER <= CmsgLen(s) <= |s|
  {
    Record(FromBytes32(s[8..12]), FromBytes32(s[12..16]), s[HEADER..CmsgLen(s)])
  }

  function Header(level: int32, kind: int32, dataSize: nat): (r: seq<byte>)
    ensures |r| == HEADER
  {
    ToBytes(Len(dataSize), 8) + ToBytes32(level) + ToBytes32(kind)
  }

  // A whole record is at the start of s.
  predicate StartsWithRecord(s: seq<byte>) {
    |s| >= HEADER && HEADER <= CmsgLen(s) && Align(CmsgLen(s)) <= |s|
  }

  function Rest(s: seq<byte>): (r: seq<byte>)
    requires StartsWithRecord(s)
    ensures |r| < |s|
  {
    s[Align(CmsgLen(s))..]
  }

  // The records in s; nothing if one of them is malformed.
  function Parse(s: seq<byte>): Result<seq<Record>>
    decreases |s|
  {
    if s == [] then Ok([])
    else if !StartsWithRecord(s) then BadCMSG
    else Behind([RecordAt(s)], Parse(Rest(s)))
  }

  function Behind(records: seq<Record>, rest: Result<seq<Record>>): Result<seq<Record>> {
    match rest
    case Ok(more) => Ok(records + more)
    case error => error
  }

  lemma BehindBehind(a: seq<Record>, b: seq<Record>, rest: Result<seq<Record>>)
    ensures Behind(a, Behind(b, rest)) == Behind(a + b, rest)
  {
    if rest.Ok? {
      assert a + (b + rest.value) == a + b + rest.value;
    }
  }

  // s is the record r with any padding.
  ghost predicate Represents(s: seq<byte>, r: Record) {
    && |s| == Space(|r.data|)
    && s[..HEADER] == Header(r.level, r.kind, |r.data|)
    && s[HEADER..Len(|r.data|)] == r.data
  }

  lemma HeaderRoundTrip(level: int32, kind: int32, dataSize: nat)
    requires Len(dataSize) < SIZE_LIMIT
    ensures var h := Header(level, kind, dataSize);
      FromBytes(h[..8]) == Len(dataSize) && FromBytes32(h[8..12]) == level && FromBytes32(h[12..16]) == kind
  {
    var h := Header(level, kind, dataSize);
    assert h[..8] == ToBytes(Len(dataSize), 8);
    assert h[8..12] == ToBytes32(level);
    assert h[12..16] == ToBytes32(kind);
    Power256Values();
    BytesRoundTrip(Len(dataSize), 8);
    BytesRoundTrip32(level);
    BytesRoundTrip32(kind);
  }

  lemma RecordRoundTrip(s: seq<byte>, r: Record)
    requires Len(|r.data|) < SIZE_LIMIT && Represents(s, r)
    ensures StartsWithRecord(s) && RecordAt(s) == r && Rest(s) == []
  {
    var h := s[..HEADER];
    SpaceIsAlignedLen(|r.data|);
    HeaderRoundTrip(r.level, r.kind, |r.data|);
    assert s[..8] == h[..8];
    assert s[8..12] == h[8..12];
    assert s[12..16] == h[12..16];
  }

  lemma RecordRepresented(r: Record, padding: seq<byte>, s: seq<byte>)
    requires s == Header(r.level, r.kind, |r.data|) + r.data + padding && |s| == Space(|r.data|)
    ensures Represents(s, r)
  {
    assert s[..HEADER] == Header(r.level, r.kind, |r.data|);
    assert s[HEADER..Len(|r.data|)] == r.data;
  }

  // What follows a record makes no difference to it.
  lemma FirstRecordOnly(s: seq<byte>, e: seq<byte>)
    requires StartsWithRecord(s)
    ensures StartsWithRecord(s + e) && RecordAt(s + e) == RecordAt(s) && Rest(s + e) == Rest(s) + e
  {
    var t, n := s + e, CmsgLen(s);
    assert t[..8] == s[..8];
    assert t[8..12] == s[8..12];
    assert t[12..16] == s[12..16];
    assert t[HEADER..n] == s[HEADER..n];
  }

  // A record behind well-formed records is read after them.
  lemma {:induction false} ParseAppended(s: seq<byte>, e: seq<byte>, r: Record)
    requires Parse(s).Ok? && Len(|r.data|) < SIZE_LIMIT && Represents(e, r)
    ensures Parse(s + e) == Ok(Parse(s).value + [r])
    decreases |s|
  {
    if s == [] {
      assert s + e == e;
      RecordRoundTrip(e, r);
      assert Parse(Rest(e)) == Ok([]);
      assert [r] + [] == [] + [r];
    } else {
      FirstRecordOnly(s, e);
      ParseAppended(Rest(s), e, r);
      BehindBehind([RecordAt(s)], Parse(Rest(s)).value, Ok([r]));
    }
  }

  // A record behind the used bytes; what is behind that is kept as padding.
  function Trailer(buffer: seq<byte>, used: nat, r: Record): seq<byte>
    requires used + Len(|r.data|) <= |buffer|
  {
    Header(r.level, r.kind, |r.data|) + r.data + buffer[used + Len(|r.data|)..]
  }

  // The buffer with that record in it.
  function WithRecord(buffer: seq<byte>, used: nat, r: Record): seq<byte>
    requires used + Len(|r.data|) <= |buffer|
  {
    buffer[..used] + Trailer(buffer, used, r)
  }

  lemma TrailerRepresents(buffer: seq<byte>, used: nat, r: Record)
    requires |buffer| == used + Space(|r.data|)
    ensures |Trailer(buffer, used, r)| == Space(|r.data|) && Represents(Trailer(buffer, used, r), r)
  {
    var padding := buffer[used + Len(|r.data|)..];
    RecordRepresented(r, padding, Trailer(buffer, used, r));
  }

  lemma WithRecordKeeps(buffer: seq<byte>, used: nat, r: Record)
    requires |buffer| == used + Space(|r.data|)
    ensures |WithRecord(buffer, used, r)| == |buffer| && buffer[..used] <= WithRecord(buffer, used, r)
  {
  }

  lemma AppendedParses(buffer: seq<byte>, used: nat, r: Record)
    requires |buffer| == used + Space(|r.data|) < SIZE_LIMIT && Parse(buffer[..used]).Ok?
    ensures Parse(WithRecord(buffer, used, r)) == Ok(Parse(buffer[..used]).value + [r])
  {
    TrailerRepresents(buffer, used, r);
    ParseAppended(buffer[..used], Trailer(buffer, used, r), r);
  }

  // Iterating over s goes past its end: the last record's padding is not in the buffer, and
  // the remaining size wraps around to a huge one.
  predicate LeavesBuffer(s: seq<byte>)
    decreases |s|
  {
    if |s| < HEADER || CmsgLen(s) < HEADER || |s| < CmsgLen(s) then false
    else |s| < Align(CmsgLen(s)) || LeavesBuffer(Rest(s))
  }

  lemma {:induction false} AlignedStaysInside(s: seq<byte>)
    requires |s| % ALIGNMENT == 0 || |s| < HEADER
    ensures !LeavesBuffer(s)
    decreases |s|
  {
    if StartsWithRecord(s) {
      AlignedStaysInside(Rest(s));
    }
  }

  lemma {:induction false} ParsedStaysInside(s: seq<byte>)
    requires Parse(s).Ok?
    ensures !LeavesBuffer(s)
    decreases |s|
  {
    if s != [] {
      ParsedStaysInside(Rest(s));
    }
  }

  // One record as long as the buffer.
  function Filler(size: nat): (s: seq<byte>)
    requires size >= HEADER
    ensures |s| == size
  {
    Header(0, 0, size - HEADER) + seq(size - HEADER, i => 0 as byte)
  }

  lemma FillerLeaves(size: nat)
    requires HEADER <= size < SIZE_LIMIT && size % ALIGNMENT != 0
    ensures LeavesBuffer(Filler(size))
  {
    Power256Values();
    BytesRoundTrip(size, 8);
    assert Filler(size)[..8] == ToBytes(size, 8);
  }

  // Whatever bytes the peer sends, iteration stays inside the used part if and only if its
  // size is a multiple of the alignment, or too small for a header.
  lemma SafeSizes(size: nat)
    requires size < SIZE_LIMIT
    ensures (forall s: seq<byte> :: |s| == size ==> !LeavesBuffer(s)) <==> size % ALIGNMENT == 0 || size < HEADER
  {
    forall s: seq<byte> | |s| == size && (size % ALIGNMENT == 0 || size < HEADER) ensures !LeavesBuffer(s) {
      AlignedStaysInside(s);
    }
    if size % ALIGNMENT != 0 && size >= HEADER {
      FillerLeaves(size);
    }
  }

  // buffer.resize(size, 0)
  function Resized(s: seq<byte>, size: nat): (r: seq<byte>)
    ensures |r| == size
    ensures forall i :: 0 <= i < size && i < |s| ==> r[i] == s[i]
  {
    if size <= |s| then s[..size] else s + seq(size - |s|, i => 0 as byte)
  }

  class ControlMessage {
    // Its size is the capacity.
    var buffer: seq<byte>
    var usedSize: nat

    predicate Valid()
      reads this
    {
      usedSize <= |buffer|
    }

    function Contents(): seq<byte>
      reads this
      requires Valid()
    {
      buffer[..usedSize]
    }

    constructor ()
      ensures Valid() && Contents() == [] && buffer == []
    {
      buffer, usedSize := [], 0;
    }

    constructor Copy(data: seq<byte>)
      ensures Valid() && Contents() == data
    {
      buffer, usedSize := data, |data|;
    }

    // Nothing stops a caller from reserving less than is used.
    method Reserve(size: nat)
      requires Valid()
      modifies this`buffer
      ensures |buffer| == size
      ensures Valid() <==> usedSize <= size
      ensures Valid() ==> Contents() == old(Contents())
    {
      buffer := Resized(buffer, size);
    }

    method MarkUsed(size: nat) returns (r: Result<()>)
      modifies this`usedSize
      ensures r == if size <= |buffer| then Ok(()) else Overflow
      ensures r.Ok? ==> Valid() && Contents() == buffer[..size]
      ensures r.Overflow? ==> usedSize == old(usedSize)
    {
      if |buffer| < size {
        return Overflow;
      }
      usedSize := size;
      return Ok(());
    }

    // The padding keeps whatever a bigger buffer has held there.
    method Append(level: int32, kind: int32, value: seq<byte>)
      requires Valid() && usedSize + Space(|value|) < SIZE_LIMIT
      modifies this
      ensures Valid() && usedSize == old(usedSize) + Space(|value|)
      ensures old(Contents()) <= Contents()
      ensures old(Parse(Contents()).Ok?) ==>
        Parse(Contents()) == Ok(old(Parse(Contents()).value) + [Record(level, kind, value)])
    {
      ghost var before := Contents();
      var neededSize := Space(|value|);
      buffer := Resized(buffer, usedSize + neededSize);
      assert buffer[..usedSize] == before;
      WithRecordKeeps(buffer, usedSize, Record(level, kind, value));
      if Parse(before).Ok? {
        AppendedParses(buffer, usedSize, Record(level, kind, value));
      }
      buffer := WithRecord(buffer, usedSize, Record(level, kind, value));
      usedSize := usedSize + neededSize;
      assert Contents() == buffer;
    }
  }

  class Iterator {
    const data: seq<byte>
    var ptr: nat
    var size: nat

    constructor Begin(data: seq<byte>)
      ensures this.data == data && ptr == 0 && size == |data|
    {
      this.data, ptr, size := data, 0, |data|;
    }

    // Whether the header the pointer points at may be looked at.
    predicate Inside()
      reads this
    {
      size >= HEADER ==> ptr + HEADER <= |data|
    }

    method Dereference() returns (ok: bool)
      requires Inside()
      ensures ok <==> size >= HEADER && HEADER <= CmsgLen(data[ptr..]) <= size
    {
      if size < HEADER {
        return false;
      }
      var cmsgLen := CmsgLen(data[ptr..]);
      return !(cmsgLen < HEADER || size < cmsgLen);
    }

    method Increment()
      requires ptr + HEADER <= |data| && HEADER <= CmsgLen(data[ptr..]) <= size < SIZE_LIMIT
      modifies this
      ensures ptr == old(ptr) + Align(CmsgLen(data[old(ptr)..]))
      ensures size == old(size + ptr) - ptr + if old(size + ptr) < ptr then SIZE_LIMIT else 0
    {
      var asize := Align(CmsgLen(data[ptr..]));
      size := (size - asize) % SIZE_LIMIT;
      ptr := ptr + asize;
    }
  }

  lemma ReadOne(records: seq<Record>, s: seq<byte>)
    requires |s| >= HEADER && HEADER <= CmsgLen(s) <= |s|
    ensures StartsWithRecord(s) ==>
      && LeavesBuffer(s) == LeavesBuffer(Rest(s))
      && Behind(records, Parse(s)) == Behind(records + [RecordAt(s)], Parse(Rest(s)))
    ensures !StartsWithRecord(s) ==> LeavesBuffer(s)
  {
    if StartsWithRecord(s) {
      BehindBehind(records, [RecordAt(s)], Parse(Rest(s)));
    }
  }

  // Looks at every record from begin() to end(), and stops where that would leave the used
  // part; inside is false then.
  method ReadAll(s: seq<byte>) returns (inside: bool, r: Result<seq<Record>>)
    requires |s| < SIZE_LIMIT - HEADER
    ensures inside <==> !LeavesBuffer(s)
    ensures inside ==> r == Parse(s)
  {
    var i := new Iterator.Begin(s);
    var records: seq<Record> := [];
    ghost var rest := s;
    assert Parse(s).Ok? ==> [] + Parse(s).value == Parse(s).value;
    while i.ptr != |s|
      invariant i.data == s && i.ptr + i.size == |s| && rest == s[i.ptr..]
      invariant fresh(i)
      invariant LeavesBuffer(s) == LeavesBuffer(rest)
      invariant Parse(s) == Behind(records, Parse(rest))
      decreases i.size
    {
      var ok := i.Dereference();
      if !ok {
        return true, BadCMSG;
      }
      ReadOne(records, rest);
      records := records + [RecordAt(s[i.ptr..])];
      i.Increment();
      if !i.Inside() {
        return false, BadCMSG;
      }
      rest := Rest(rest);
    }
    assert records + [] == records;
    return true, Ok(records);
  }

  // Reads a value of so many bytes.
  method GetData(cmsg: seq<byte>, size: nat) returns (r: Result<seq<byte>>)
    requires |cmsg| >= HEADER && HEADER <= CmsgLen(cmsg) <= |cmsg|
    ensures r == if |RecordAt(cmsg).data| < size then TruncatedCMSG else Ok(RecordAt(cmsg).data[..size])
  {
    if CmsgLen(cmsg) < Len(size) {
      return TruncatedCMSG;
    }
    assert RecordAt(cmsg).data[..size] == cmsg[HEADER..Len(size)];
    return Ok(cmsg[HEADER..Len(size)]);
  }

  // What the first n records take.
  function SpaceOf(records: seq<Record>, n: nat): nat
    requires n <= |records|
  {
    if n == 0 then 0 else SpaceOf(records, n - 1) + Space(|records[n - 1].data|)
  }

  lemma {:induction false} SpaceGrows(records: seq<Record>, n: nat, m: nat)
    requires n <= m <= |records|
    ensures SpaceOf(records, n) <= SpaceOf(records, m)
  {
    if n < m {
      SpaceGrows(records, n, m - 1);
    }
  }

  // With 16 bytes used, reserving 8 leaves a size beyond the buffer.
  method ReservingLessBreaks(data: seq<byte>) returns (cm: ControlMessage)
    requires |data| == 16
    ensures cm.usedSize == 16 && |cm.buffer| == 8 && !cm.Valid()
  {
    cm := new ControlMessage.Copy(data);
    cm.Reserve(8);
  }

  method Holding(records: seq<Record>) returns (cm: ControlMessage)
    requires SpaceOf(records, |records|) < SIZE_LIMIT - HEADER
    ensures fresh(cm) && cm.Valid() && cm.usedSize == SpaceOf(records, |records|)
    ensures Parse(cm.Contents()) == Ok(records)
  {
    cm := new ControlMessage();
    ghost var parsed: seq<Record> := [];
    for i := 0 to |records|
      invariant cm.Valid() && fresh(cm) && cm.usedSize == SpaceOf(records, i)
      invariant |parsed| == i && (forall k :: 0 <= k < i ==> parsed[k] == records[k])
      invariant Parse(cm.Contents()) == Ok(parsed)
    {
      SpaceGrows(records, i + 1, |records|);
      cm.Append(records[i].level, records[i].kind, records[i].data);
      parsed := parsed + [records[i]];
    }
    assert parsed == records;
  }

  // Whatever is appended is what an iteration finds.
  method AppendAll(records: seq<Record>) returns (found: seq<Record>)
    requires SpaceOf(records, |records|) < SIZE_LIMIT - HEADER
    ensures found == records
  {
    var cm := Holding(records);
    ParsedStaysInside(cm.Contents());
    var inside, r := ReadAll(cm.Contents());
    found := r.value;
  }
}
