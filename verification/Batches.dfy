/** Write batches: the record format of the log, built and taken apart (db/write_batch.cc). */
module Batches {
  import opened Common
  import opened Keys
  import opened Coding

  datatype BatchOp = Put(key: Bytes, value: Bytes) | Delete(key: Bytes)

  datatype Reason = TooSmall | BadPut | BadDelete | UnknownTag | WrongCount

  const BATCH_HEADER: nat := 12

  // ------------------------------------------------------------------ the format

  function EncodeOp(op: BatchOp): (r: Bytes)
    ensures r != []
  {
    match op
    case Put(key, value) => [1] + LengthPrefixed(key) + LengthPrefixed(value)
    case Delete(key) => [0] + LengthPrefixed(key)
  }

  function EncodeOps(ops: seq<BatchOp>): Bytes {
    if ops == [] then [] else EncodeOp(ops[0]) + EncodeOps(ops[1..])
  }

  function Encode(first: Long, ops: seq<BatchOp>): Bytes
    requires OpsFit(ops)
  {
    Framed(first, |ops|, EncodeOps(ops))
  }

  function Framed(first: Long, count: Word, body: Bytes): (r: Bytes)
    ensures |r| == BATCH_HEADER + |body|
  {
    Fixed64(first) + Fixed32(count) + body
  }

  /** Lengths are stored in 32 bits, and the count is read back as a signed number. */
  predicate OpsFit(ops: seq<BatchOp>) {
    && |ops| < 0x8000_0000
    && forall i :: 0 <= i < |ops| ==> |ops[i].key| < 0x1_0000_0000 && (ops[i].Put? ==> |ops[i].value| < 0x1_0000_0000)
  }

  lemma {:induction false} EncodeOpsAppend(a: seq<BatchOp>, b: seq<BatchOp>)
    ensures EncodeOps(a + b) == EncodeOps(a) + EncodeOps(b)
  {
    if a == [] {
      assert a + b == b;
      assert [] + EncodeOps(b) == EncodeOps(b);
    } else {
      EncodeOpsAppend(a[1..], b);
      EncodeOpsHead(a, b, EncodeOps(a[1..] + b));
      AssocHead(EncodeOp(a[0]), EncodeOps(a[1..]), EncodeOps(b), EncodeOps(a[1..] + b));
    }
  }

  lemma EncodeOpsHead(a: seq<BatchOp>, b: seq<BatchOp>, rest: Bytes)
    requires a != [] && rest == EncodeOps(a[1..] + b)
    ensures EncodeOps(a + b) == EncodeOp(a[0]) + rest
  {
    assert (a + b)[0] == a[0] && (a + b)[1..] == a[1..] + b;
  }

  lemma AssocHead(x: Bytes, y: Bytes, z: Bytes, yz: Bytes)
    requires yz == y + z
    ensures x + yz == x + y + z
  {
  }

  // ------------------------------------------------------------------ taking a batch apart

  /** One record of the batch: the operation and the rest of the input, or what is wrong with it. */
  datatype ParsedOp = Parsed(op: BatchOp, rest: Bytes) | Failed(reason: Reason)

  function ParseOp(input: Bytes): (r: ParsedOp)
    requires input != []
    ensures r.Parsed? ==> |r.rest| < |input|
  {
    if input[0] == 1 then
      var key := GetLengthPrefixedSlice(input[1..]);
      if key == None then Failed(BadPut)
      else
        var value := GetLengthPrefixedSlice(key.value.1);
        if value == None then Failed(BadPut) else Parsed(Put(key.value.0, value.value.0), value.value.1)
    else if input[0] == 0 then
      var key := GetLengthPrefixedSlice(input[1..]);
      if key == None then Failed(BadDelete) else Parsed(Delete(key.value.0), key.value.1)
    else Failed(UnknownTag)
  }

  /** The operations handed to the handler, and the error that stopped them if there was one. */
  function ParseOps(input: Bytes): (seq<BatchOp>, Option<Reason>)
    decreases |input|
  {
    if input == [] then ([], None)
    else
      var p := ParseOp(input);
      if p.Failed? then ([], Some(p.reason))
      else
        var rest := ParseOps(p.rest);
        ([p.op] + rest.0, rest.1)
  }

  function Count(rep: Bytes): int
    requires BATCH_HEADER <= |rep|
  {
    var n := DecodeFixed32(rep[8..12]);
    if n < 0x8000_0000 then n else n - 0x1_0000_0000
  }

  function Sequence(rep: Bytes): Long
    requires BATCH_HEADER <= |rep|
  {
    DecodeFixed64(rep[..8])
  }

  function Iterated(rep: Bytes): (seq<BatchOp>, Option<Reason>) {
    if |rep| < BATCH_HEADER then ([], Some(TooSmall))
    else
      var p := ParseOps(rep[BATCH_HEADER..]);
      if p.1 == None && |p.0| != Count(rep) then (p.0, Some(WrongCount)) else p
  }

  lemma TagDropped(tag: Byte, a: Bytes, b: Bytes, tail: Bytes)
    ensures [tag] + a + b + tail != [] && ([tag] + a + b + tail)[0] == tag
    ensures ([tag] + a + b + tail)[1..] == a + (b + tail)
  {
  }

  lemma ParseOpRoundTrip(op: BatchOp, tail: Bytes)
    requires OpsFit([op])
    ensures ParseOp(EncodeOp(op) + tail) == Parsed(op, tail)
  {
    assert [op][0] == op;
    match op
    case Put(key, value) =>
      TagDropped(1, LengthPrefixed(key), LengthPrefixed(value), tail);
      LengthPrefixedRoundTrip(key, LengthPrefixed(value) + tail);
      LengthPrefixedRoundTrip(value, tail);
    case Delete(key) =>
      TagDropped(0, LengthPrefixed(key), [], tail);
      assert [0 as Byte] + LengthPrefixed(key) + [] == [0 as Byte] + LengthPrefixed(key);
      assert [] + tail == tail;
      LengthPrefixedRoundTrip(key, tail);
  }

  lemma {:induction false} ParseOpsRoundTrip(ops: seq<BatchOp>)
    requires OpsFit(ops)
    ensures ParseOps(EncodeOps(ops)) == (ops, None)
    decreases |ops|
  {
    if ops != [] {
      assert OpsFit([ops[0]]);
      ParseOpRoundTrip(ops[0], EncodeOps(ops[1..]));
      ParseOpsRoundTrip(ops[1..]);
      assert ops == [ops[0]] + ops[1..];
    }
  }

  /** A batch read back from the log is the batch that was written: its sequence number, its count and, in order, all
      its operations. */
  lemma BatchRoundTrip(first: Long, ops: seq<BatchOp>)
    requires OpsFit(ops)
    ensures BATCH_HEADER <= |Encode(first, ops)| && Sequence(Encode(first, ops)) == first
    ensures Count(Encode(first, ops)) == |ops| && Iterated(Encode(first, ops)) == (ops, None)
  {
    var rep := Encode(first, ops);
    Header(first, |ops|, EncodeOps(ops));
    Fixed64RoundTrip(first);
    Fixed32RoundTrip(|ops|);
    ParseOpsRoundTrip(ops);
  }

  // ------------------------------------------------------------------ the batch object

  class WriteBatch {
    var rep: Bytes
    ghost var first: Long
    ghost var ops: seq<BatchOp>

    ghost predicate Valid()
      reads this
    {
      OpsFit(ops) && rep == Encode(first, ops)
    }

    constructor ()
      ensures Valid() && first == 0 && ops == []
    {
      rep, first, ops := Fixed64(0) + Fixed32(0), 0, [];
    }

    /** SetCount overwrites four bytes of the header. */
    method SetCount(n: Word)
      requires BATCH_HEADER <= |rep|
      modifies `rep
      ensures rep == old(rep)[..8] + Fixed32(n) + old(rep)[12..]
    {
      rep := rep[..8] + Fixed32(n) + rep[12..];
    }

    method AppendBytes(n: Word, bytes: Bytes)
      requires BATCH_HEADER <= |rep|
      modifies `rep
      ensures rep == old(rep)[..8] + Fixed32(n) + old(rep)[12..] + bytes
    {
      SetCount(n);
      rep := rep + bytes;
    }

    method SetSequence(s: Long)
      requires Valid()
      modifies `rep, `first
      ensures Valid() && first == s
    {
      Resequenced(first, s, |ops|, EncodeOps(ops));
      rep := Fixed64(s) + rep[8..];
      first := s;
    }

    method Put(key: Bytes, value: Bytes)
      requires Valid() && OpsFit(ops + [BatchOp.Put(key, value)])
      modifies this
      ensures Valid() && ops == old(ops) + [BatchOp.Put(key, value)] && first == old(first)
    {
      AddOp(BatchOp.Put(key, value));
    }

    method Delete(key: Bytes)
      requires Valid() && OpsFit(ops + [BatchOp.Delete(key)])
      modifies this
      ensures Valid() && ops == old(ops) + [BatchOp.Delete(key)] && first == old(first)
    {
      AddOp(BatchOp.Delete(key));
    }

    /** What Put and Delete share: count one more operation and append its bytes. */
    method AddOp(op: BatchOp)
      requires Valid() && OpsFit(ops + [op])
      modifies this
      ensures Valid() && ops == old(ops) + [op] && first == old(first)
    {
      BatchRoundTrip(first, ops);
      OneOp(op);
      var n := Count(rep) + 1;
      Extended(first, ops, [op], n);
      AppendBytes(n, EncodeOp(op));
      ops := ops + [op];
    }

    /** Append: group commit puts the operations of another batch behind this one's. */
    method Append(source: WriteBatch)
      requires Valid() && source.Valid() && source != this && OpsFit(ops + source.ops)
      modifies this
      ensures Valid() && ops == old(ops) + source.ops && first == old(first)
    {
      BatchRoundTrip(first, ops);
      BatchRoundTrip(source.first, source.ops);
      var n := Count(rep) + Count(source.rep);
      AppendedRep(first, ops, source.first, source.ops, n);
      AppendBytes(n, source.rep[BATCH_HEADER..]);
      ops := ops + source.ops;
    }

    /** Iterate, with the handler replaced by the list of calls it gets. */
    method Iterate() returns (calls: seq<BatchOp>, error: Option<Reason>)
      ensures (calls, error) == Iterated(rep)
    {
      if |rep| < BATCH_HEADER {
        return [], Some(TooSmall);
      }
      var input := rep[BATCH_HEADER..];
      calls := [];
      assert calls + ParseOps(input).0 == ParseOps(input).0;
      while input != []
        invariant ParseOps(rep[BATCH_HEADER..]) == (calls + ParseOps(input).0, ParseOps(input).1)
        decreases |input|
      {
        var p := ParseOp(input);
        if p.Failed? {
          assert calls + [] == calls;
          return calls, Some(p.reason);
        }
        AssocOps(calls, p.op, ParseOps(p.rest).0);
        calls, input := calls + [p.op], p.rest;
      }
      assert calls + [] == calls;
      if |calls| != Count(rep) {
        return calls, Some(WrongCount);
      }
      return calls, None;
    }
  }

  lemma AssocOps(a: seq<BatchOp>, op: BatchOp, b: seq<BatchOp>)
    ensures a + ([op] + b) == a + [op] + b
  {
  }

  lemma Header(first: Long, count: Word, body: Bytes)
    ensures var rep := Framed(first, count, body);
            rep[..8] == Fixed64(first) && rep[8..12] == Fixed32(count) && rep[12..] == body
  {
  }

  lemma Resequenced(first: Long, s: Long, n: Word, body: Bytes)
    ensures Fixed64(s) + Framed(first, n, body)[8..] == Framed(s, n, body)
  {
    assert Framed(first, n, body)[8..] == Fixed32(n) + body;
    ConcatAssoc(Fixed64(s), Fixed32(n), body);
  }

  lemma FramedAppend(first: Long, n: Word, body: Bytes, m: Word, more: Bytes)
    ensures var rep := Framed(first, n, body);
            rep[..8] + Fixed32(m) + rep[12..] + more == Framed(first, m, body + more)
  {
    Header(first, n, body);
    ConcatAssoc(Fixed64(first) + Fixed32(m), body, more);
  }

  lemma Extended(first: Long, ops: seq<BatchOp>, more: seq<BatchOp>, n: Word)
    requires OpsFit(ops) && OpsFit(ops + more) && n == |ops| + |more|
    ensures var rep := Encode(first, ops);
            rep[..8] + Fixed32(n) + rep[12..] + EncodeOps(more) == Encode(first, ops + more)
  {
    EncodeOpsAppend(ops, more);
    FramedAppend(first, |ops|, EncodeOps(ops), n, EncodeOps(more));
    assert |ops + more| == n;
  }

  lemma AppendedRep(first: Long, ops: seq<BatchOp>, second: Long, more: seq<BatchOp>, n: Word)
    requires OpsFit(ops) && OpsFit(more) && OpsFit(ops + more) && n == |ops| + |more|
    ensures var rep, source := Encode(first, ops), Encode(second, more);
            && rep[..8] + Fixed32(n) + rep[12..] + source[BATCH_HEADER..] == Encode(first, ops + more)
  {
    Header(second, |more|, EncodeOps(more));
    Extended(first, ops, more, n);
  }

  lemma OneOp(op: BatchOp)
    ensures EncodeOps([op]) == EncodeOp(op)
  {
    assert EncodeOp(op) + [] == EncodeOp(op);
  }
}
