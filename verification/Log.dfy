/** The write-ahead log: records cut into checksummed fragments that never cross a block (db/log_format.h,
    db/log_writer.cc). The checksum is an arbitrary function. */
module Log {
  import opened Keys
  import opened Coding

  const BLOCK: nat := 32768
  const HEADER: nat := 7

  const ZERO_TYPE: Byte := 0
  const FULL: Byte := 1
  const FIRST: Byte := 2
  const MIDDLE: Byte := 3
  const LAST: Byte := 4
  const EOF: Byte := 5
  const BAD_RECORD: Byte := 6

  type Checksum = Bytes -> Word

  // ------------------------------------------------------------------ what the writer puts into the file

  function Zeros(n: nat): (r: Bytes)
    ensures |r| == n
  {
    if n == 0 then [] else Zeros(n - 1) + [0]
  }

  /** The masked checksum of type and payload, two length bytes, the type. */
  function RecordHeader(crc: Checksum, kind: Byte, payload: Bytes): (r: Bytes)
    requires |payload| < 0x1_0000
    ensures |r| == HEADER
  {
    Fixed32(Mask(crc([kind] + payload))) + [LowByte(|payload|), LowByte(|payload| / 256), kind]
  }

  /** One physical record. */
  function Physical(crc: Checksum, kind: Byte, payload: Bytes): (r: Bytes)
    requires |payload| < 0x1_0000
    ensures |r| == HEADER + |payload|
  {
    RecordHeader(crc, kind, payload) + payload
  }

  function Min(a: nat, b: nat): nat {
    if a < b then a else b
  }

  function Left(pos: nat): (r: nat)
    ensures 0 < r <= BLOCK
    ensures (pos + r) % BLOCK == 0
  {
    BLOCK - pos % BLOCK
  }

  function FragmentKind(begin: bool, end: bool): Byte {
    if begin && end then FULL else if begin then FIRST else if end then LAST else MIDDLE
  }

  /** The zero bytes that fill a block when no header fits any more. */
  function Trailer(pos: nat): (r: Bytes)
    ensures |r| == if Left(pos) < HEADER then Left(pos) else 0
    ensures HEADER <= Left(pos + |r|)
  {
    if Left(pos) < HEADER then Zeros(Left(pos)) else []
  }

  /** How much of `rest` the next fragment takes. */
  function Take(pos: nat, rest: Bytes): (n: nat)
    ensures n <= |rest| && n < BLOCK
  {
    Min(|rest|, Left(pos + |Trailer(pos)|) - HEADER)
  }

  /** The file `dest` after the next fragment of what is left of a record. */
  function AfterFragment(crc: Checksum, dest: Bytes, rest: Bytes, begin: bool): (r: Bytes)
    ensures dest <= r && |r| == |dest| + |Trailer(|dest|)| + HEADER + Take(|dest|, rest)
    ensures Take(|dest|, rest) > 0 || rest == [] || Left(|r|) == BLOCK
  {
    var n := Take(|dest|, rest);
    dest + Trailer(|dest|) + Physical(crc, FragmentKind(begin, n == |rest|), rest[..n])
  }

  /** The file after AddRecord. */
  function AfterRecord(crc: Checksum, dest: Bytes, rest: Bytes, begin: bool): (r: Bytes)
    ensures AfterFragment(crc, dest, rest, begin) <= r && dest <= r && |dest| < |r|
    decreases |rest|, if Left(|dest|) <= HEADER then 1 else 0
  {
    var next, n := AfterFragment(crc, dest, rest, begin), Take(|dest|, rest);
    if n == |rest| then next else AfterRecord(crc, next, rest[n..], false)
  }

  /** The file a fresh writer leaves. */
  function LogFile(crc: Checksum, records: seq<Bytes>): Bytes {
    if records == [] then []
    else AfterRecord(crc, LogFile(crc, records[..|records| - 1]), records[|records| - 1], true)
  }

  lemma OffsetMoves(a: nat, b: nat, n: nat)
    requires a % BLOCK == b % BLOCK
    ensures (a + n) % BLOCK == (b + n) % BLOCK
  {
  }

  lemma HeaderFirst(before: Bytes, header: Bytes, payload: Bytes)
    ensures before + header + payload == before + (header + payload)
  {
  }

  class Writer {
    const crc: Checksum
    var dest: Bytes
    var blockOffset: nat

    ghost predicate Valid()
      reads this
    {
      blockOffset <= BLOCK && blockOffset % BLOCK == |dest| % BLOCK
    }

    /** A writer for an empty file, or for one that already holds `dest`. */
    constructor (crc: Checksum, dest: Bytes)
      ensures Valid() && this.crc == crc && this.dest == dest
    {
      this.crc := crc;
      this.dest := dest;
      blockOffset := |dest| % BLOCK;
    }

    method EmitPhysicalRecord(kind: Byte, payload: Bytes)
      requires Valid() && blockOffset + HEADER + |payload| <= BLOCK
      modifies this
      ensures Valid() && dest == old(dest) + Physical(crc, kind, payload)
      ensures blockOffset == old(blockOffset) + HEADER + |payload|
    {
      var header := RecordHeader(crc, kind, payload);
      ghost var before := dest;
      dest := dest + header;
      dest := dest + payload;
      HeaderFirst(before, header, payload);
      OffsetMoves(blockOffset, |before|, HEADER + |payload|);
      blockOffset := blockOffset + HEADER + |payload|;
    }

    /** Fill the end of a block that is too short for a header. */
    method SkipTrailer()
      requires Valid()
      modifies this
      ensures Valid() && blockOffset + HEADER <= BLOCK && blockOffset == |dest| % BLOCK
      ensures dest == old(dest) + Trailer(|old(dest)|)
    {
      var leftover := BLOCK - blockOffset;
      if leftover < HEADER {
        if leftover > 0 {
          dest := dest + Zeros(leftover);
        }
        blockOffset := 0;
      }
    }

    method AddFragment(left: Bytes, begin: bool) returns (length: nat)
      requires Valid()
      modifies this
      ensures Valid() && length == Take(|old(dest)|, left) && dest == AfterFragment(crc, old(dest), left, begin)
    {
      SkipTrailer();
      length := Min(|left|, BLOCK - blockOffset - HEADER);
      EmitPhysicalRecord(FragmentKind(begin, length == |left|), left[..length]);
    }

    /** AddRecord: at least one fragment, even for an empty record. */
    method AddRecord(record: Bytes)
      requires Valid()
      modifies this
      ensures Valid() && dest == AfterRecord(crc, old(dest), record, true)
    {
      var left, begin, done := record, true, false;
      while !done
        invariant Valid()
        invariant AfterRecord(crc, old(dest), record, true) == if done then dest else AfterRecord(crc, dest, left, begin)
        decreases !done, |left|, if Left(|dest|) <= HEADER then 1 else 0
      {
        var length := AddFragment(left, begin);
        left, begin, done := left[length..], false, length == |left|;
      }
    }
  }
}
