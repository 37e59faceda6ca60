/** The reader: what it answers for any file at all, and that it undoes the writer even when the file was cut short
    (db/log_reader.cc). */
module LogReader {
  import opened Common
  import opened Keys
  import opened Coding
  import opened Log

  datatype Reason = BadLength | ChecksumMismatch | PartialRecord | MissingStart | ErrorInMiddle | UnknownType

  datatype Report = Report(bytes: nat, reason: Reason)

  datatype Fragment = Fragment(kind: Byte, data: Bytes, next: nat, reports: seq<Report>)

  datatype Got = Got(record: Option<Bytes>, next: nat, reports: seq<Report>)

  // ------------------------------------------------------------------ the reader as a function of the file

  /** Where the block around `pos` ends in this file. */
  function BlockEnd(file: Bytes, pos: nat): nat {
    Min(|file|, pos + Left(pos))
  }

  /** The block was read in full, so the file may go on after it. */
  predicate FullBlock(file: Bytes, pos: nat) {
    BlockEnd(file, pos) == pos + Left(pos)
  }

  function LengthAt(file: Bytes, pos: nat): nat
    requires pos + HEADER <= |file|
  {
    file[pos + 4] as int + file[pos + 5] as int * 256
  }

  predicate ChecksumOk(crc: Checksum, file: Bytes, pos: nat, length: nat)
    requires pos + HEADER + length <= |file|
  {
    Unmask(DecodeFixed32(file[pos..pos + 4])) == crc(file[pos + 6..pos + HEADER + length])
  }

  /** The fragment whose header is at `pos`. */
  function FragmentAt(crc: Checksum, checksum: bool, file: Bytes, pos: nat): (r: Fragment)
    requires pos + HEADER <= BlockEnd(file, pos)
    ensures pos < r.next <= |file|
  {
    var end, kind, length := BlockEnd(file, pos), file[pos + 6], LengthAt(file, pos);
    if HEADER + length > end - pos then
      if FullBlock(file, pos) then Fragment(BAD_RECORD, [], end, [Report(end - pos, BadLength)])
      else Fragment(EOF, [], |file|, [])
    else if kind == ZERO_TYPE && length == 0 then
      Fragment(BAD_RECORD, [], end, [])
    else if checksum && !ChecksumOk(crc, file, pos, length) then
      Fragment(BAD_RECORD, [], end, [Report(end - pos, ChecksumMismatch)])
    else
      Fragment(kind, file[pos + HEADER..pos + HEADER + length], pos + HEADER + length, [])
  }

  function NextFragment(crc: Checksum, checksum: bool, file: Bytes, pos: nat): (r: Fragment)
    requires pos <= |file|
    ensures pos <= r.next <= |file| && (r.kind != EOF ==> pos < r.next)
    decreases |file| - pos
  {
    var end := BlockEnd(file, pos);
    if pos + HEADER <= end then FragmentAt(crc, checksum, file, pos)
    else if FullBlock(file, pos) then NextFragment(crc, checksum, file, end)
    else Fragment(EOF, [], |file|, [])
  }

  /** What one fragment does to the record being put together: the finished record, the unfinished one, the reports. */
  datatype Progress = Done(record: Bytes, reports: seq<Report>) | Going(partial: Option<Bytes>, reports: seq<Report>)

  function Assemble(partial: Option<Bytes>, kind: Byte, data: Bytes): Progress {
    var unfinished := if partial.Some? && partial.value != [] then [Report(|partial.value|, PartialRecord)] else [];
    if kind == FULL then Done(data, unfinished)
    else if kind == FIRST then Going(Some(data), unfinished)
    else if kind == MIDDLE then
      if partial == None then Going(None, [Report(|data|, MissingStart)]) else Going(Some(partial.value + data), [])
    else if kind == LAST then
      if partial == None then Going(None, [Report(|data|, MissingStart)]) else Done(partial.value + data, [])
    else if kind == BAD_RECORD then
      Going(None, if partial.Some? then [Report(|partial.value|, ErrorInMiddle)] else [])
    else
      Going(None, [Report(|data| + if partial.Some? then |partial.value| else 0, UnknownType)])
  }

  function NextRecord(crc: Checksum, checksum: bool, file: Bytes, pos: nat, partial: Option<Bytes>): (r: Got)
    requires pos <= |file|
    ensures pos <= r.next <= |file| && (r.record.Some? ==> pos < r.next)
    decreases |file| - pos
  {
    var f := NextFragment(crc, checksum, file, pos);
    if f.kind == EOF then Got(None, f.next, f.reports)
    else
      var p := Assemble(partial, f.kind, f.data);
      if p.Done? then Got(Some(p.record), f.next, f.reports + p.reports)
      else
        var g := NextRecord(crc, checksum, file, f.next, p.partial);
        Got(g.record, g.next, f.reports + p.reports + g.reports)
  }

  /** Everything a reader gets out of a file from `pos` on. */
  function ReadAll(crc: Checksum, checksum: bool, file: Bytes, pos: nat): (r: (seq<Bytes>, seq<Report>))
    requires pos <= |file|
    decreases |file| - pos
  {
    var g := NextRecord(crc, checksum, file, pos, None);
    if g.record == None then ([], g.reports)
    else
      var rest := ReadAll(crc, checksum, file, g.next);
      ([g.record.value] + rest.0, g.reports + rest.1)
  }

  // ------------------------------------------------------------------ reading back what was written, cut anywhere

  /** `file` and `whole` agree as far as both go. */
  predicate Agree(file: Bytes, whole: Bytes) {
    file <= whole || whole <= file
  }

  lemma AgreeAt(file: Bytes, whole: Bytes, i: nat)
    requires Agree(file, whole) && i < |file| && i < |whole|
    ensures file[i] == whole[i]
  {
  }

  lemma HeaderRead(crc: Checksum, file: Bytes, before: Bytes, kind: Byte, payload: Bytes)
    requires |payload| < 0x1_0000 && Agree(file, before + Physical(crc, kind, payload))
    requires |before| + HEADER <= |file|
    ensures file[|before| + 6] == kind && LengthAt(file, |before|) == |payload|
    ensures file[|before|..|before| + 4] == Fixed32(Mask(crc([kind] + payload)))
  {
    var physical := Physical(crc, kind, payload);
    var whole, pos := before + physical, |before|;
    forall i | 0 <= i < HEADER ensures file[pos + i] == physical[i] {
      AgreeAt(file, whole, pos + i);
    }
  }

  lemma PayloadRead(crc: Checksum, file: Bytes, before: Bytes, kind: Byte, payload: Bytes)
    requires |payload| < 0x1_0000 && before + Physical(crc, kind, payload) <= file
    ensures file[|before| + 6..|before| + HEADER + |payload|] == [kind] + payload
    ensures file[|before| + HEADER..|before| + HEADER + |payload|] == payload
  {
    var physical := Physical(crc, kind, payload);
    var whole, pos := before + physical, |before|;
    forall i | pos + 6 <= i < |whole| ensures file[i] == ([kind] + payload)[i - pos - 6] {
      AgreeAt(file, whole, i);
    }
  }

  /** A fragment is read back when it is there in full, and reads as the end of the file when it was cut short. */
  lemma PhysicalRead(crc: Checksum, checksum: bool, file: Bytes, before: Bytes, kind: Byte, payload: Bytes, after: Bytes)
    requires before <= file && HEADER + |payload| <= Left(|before|) && after == before + Physical(crc, kind, payload)
    requires Agree(file, after) && FULL <= kind <= LAST
    ensures var f := NextFragment(crc, checksum, file, |before|);
            f == if |after| <= |file| then Fragment(kind, payload, |after|, []) else Fragment(EOF, [], |file|, [])
  {
    if |before| + HEADER <= |file| {
      HeaderRead(crc, file, before, kind, payload);
      if |before| + HEADER + |payload| <= |file| {
        PayloadRead(crc, file, before, kind, payload);
        Fixed32RoundTrip(Mask(crc([kind] + payload)));
        MaskRoundTrip(crc([kind] + payload));
      }
    }
  }

  lemma TrailerSkipped(crc: Checksum, checksum: bool, file: Bytes, pos: nat, at: nat)
    requires pos <= |file| && at == pos + |Trailer(pos)|
    ensures at <= |file| ==> NextFragment(crc, checksum, file, pos) == NextFragment(crc, checksum, file, at)
    ensures at > |file| ==> NextFragment(crc, checksum, file, pos) == Fragment(EOF, [], |file|, [])
  {
    if Left(pos) < HEADER {
      assert at == pos + Left(pos) && BlockEnd(file, pos) == Min(|file|, at);
    }
  }

  /** Of two files that agree, the shorter is a prefix of the longer. */
  lemma ShorterIsPrefix(file: Bytes, whole: Bytes)
    requires Agree(file, whole)
    ensures whole <= file <==> |whole| <= |file|
  {
  }

  /** A fragment leaves no byte over the end of its block. */
  lemma TakenFits(pos: nat, start: nat, rest: Bytes)
    requires start == pos + |Trailer(pos)|
    ensures HEADER + Take(pos, rest) <= Left(start)
  {
  }

  lemma FragmentRead(crc: Checksum, checksum: bool, file: Bytes, dest: Bytes, rest: Bytes, begin: bool)
    requires dest <= file && Agree(file, AfterFragment(crc, dest, rest, begin))
    ensures var f, n, next := NextFragment(crc, checksum, file, |dest|), Take(|dest|, rest), |AfterFragment(crc, dest, rest, begin)|;
            f == if next <= |file| then Fragment(FragmentKind(begin, n == |rest|), rest[..n], next, [])
                 else Fragment(EOF, [], |file|, [])
  {
    var before, n, after := dest + Trailer(|dest|), Take(|dest|, rest), AfterFragment(crc, dest, rest, begin);
    TrailerSkipped(crc, checksum, file, |dest|, |before|);
    if |before| <= |file| {
      var kind := FragmentKind(begin, n == |rest|);
      BothPrefixes(file, before, Physical(crc, kind, rest[..n]), after);
      TakenFits(|dest|, |before|, rest);
      PhysicalRead(crc, checksum, file, before, kind, rest[..n], after);
    }
  }

  lemma BothPrefixes(file: Bytes, before: Bytes, physical: Bytes, after: Bytes)
    requires after == before + physical && Agree(file, after) && |before| <= |file|
    ensures before <= file
  {
  }

  /** What the reader makes of an undamaged fragment. */
  lemma AssembleOwn(partial: Option<Bytes>, rest: Bytes, n: nat)
    requires n <= |rest|
    ensures var p := Assemble(partial, FragmentKind(partial == None, n == |rest|), rest[..n]);
            var sofar := if partial == None then rest[..n] else partial.value + rest[..n];
            p == if n == |rest| then Done(Joined(partial, rest), []) else Going(Some(sofar), [])
  {
    assert n == |rest| ==> rest[..n] == rest;
  }

  function Joined(partial: Option<Bytes>, rest: Bytes): Bytes {
    if partial == None then rest else partial.value + rest
  }

  lemma JoinedLater(partial: Option<Bytes>, rest: Bytes, n: nat)
    requires n <= |rest|
    ensures Joined(Some(Joined(partial, rest[..n])), rest[n..]) == Joined(partial, rest)
  {
    assert rest == rest[..n] + rest[n..];
    if partial.Some? {
      assert partial.value + rest[..n] + rest[n..] == partial.value + rest;
    }
  }

  lemma AgreePrefix(file: Bytes, next: Bytes, whole: Bytes)
    requires Agree(file, whole) && next <= whole
    ensures Agree(file, next) && (whole <= file ==> next <= file)
  {
  }

  /** A record is read back when all of it is there; a record that was cut short reads as the end of the file. */
  lemma {:induction false} RecordRead(crc: Checksum, checksum: bool, file: Bytes, dest: Bytes, rest: Bytes, partial: Option<Bytes>)
    requires dest <= file && Agree(file, AfterRecord(crc, dest, rest, partial == None))
    ensures var g, end := NextRecord(crc, checksum, file, |dest|, partial), |AfterRecord(crc, dest, rest, partial == None)|;
            g == if end <= |file| then Got(Some(Joined(partial, rest)), end, []) else Got(None, |file|, [])
    decreases |rest|, if Left(|dest|) <= HEADER then 1 else 0
  {
    var begin, n := partial == None, Take(|dest|, rest);
    var next, whole := AfterFragment(crc, dest, rest, begin), AfterRecord(crc, dest, rest, begin);
    AgreePrefix(file, next, whole);
    ShorterIsPrefix(file, next);
    FragmentRead(crc, checksum, file, dest, rest, begin);
    AssembleOwn(partial, rest, n);
    if |next| > |file| {
      RecordIsCut(crc, checksum, file, |dest|, partial);
    } else if n == |rest| {
      RecordEnds(crc, checksum, file, |dest|, partial, rest, |next|);
    } else {
      var sofar := Joined(partial, rest[..n]);
      assert whole == AfterRecord(crc, next, rest[n..], false);
      RecordRead(crc, checksum, file, next, rest[n..], Some(sofar));
      JoinedLater(partial, rest, n);
      RecordGoesOn(crc, checksum, file, |dest|, partial, sofar, |next|);
    }
  }

  lemma RecordIsCut(crc: Checksum, checksum: bool, file: Bytes, pos: nat, partial: Option<Bytes>)
    requires pos <= |file| && NextFragment(crc, checksum, file, pos) == Fragment(EOF, [], |file|, [])
    ensures NextRecord(crc, checksum, file, pos, partial) == Got(None, |file|, [])
  {
  }

  lemma RecordEnds(crc: Checksum, checksum: bool, file: Bytes, pos: nat, partial: Option<Bytes>, rest: Bytes, next: nat)
    requires pos <= |file|
    requires var f := NextFragment(crc, checksum, file, pos);
             && f.kind != EOF && f.next == next && f.reports == []
             && Assemble(partial, f.kind, f.data) == Done(Joined(partial, rest), [])
    ensures NextRecord(crc, checksum, file, pos, partial) == Got(Some(Joined(partial, rest)), next, [])
  {
  }

  lemma RecordGoesOn(crc: Checksum, checksum: bool, file: Bytes, pos: nat, partial: Option<Bytes>, sofar: Bytes, next: nat)
    requires pos <= |file|
    requires var f := NextFragment(crc, checksum, file, pos);
             && f.kind != EOF && f.next == next && f.reports == [] && Assemble(partial, f.kind, f.data) == Going(Some(sofar), [])
    ensures NextRecord(crc, checksum, file, pos, partial) == NextRecord(crc, checksum, file, next, Some(sofar))
  {
    var g := NextRecord(crc, checksum, file, next, Some(sofar));
    assert [] + [] + g.reports == g.reports;
  }

  // ------------------------------------------------------------------ whole logs

  lemma LogGrows(crc: Checksum, records: seq<Bytes>)
    requires records != []
    ensures var before := LogFile(crc, records[..|records| - 1]);
            LogFile(crc, records) == AfterRecord(crc, before, records[|records| - 1], true)
            && before <= LogFile(crc, records) && |before| < |LogFile(crc, records)|
  {
  }

  lemma PrefixChain(a: Bytes, b: Bytes, c: Bytes)
    requires a <= b <= c
    ensures a <= c && |a| <= |b| <= |c|
  {
  }

  lemma {:induction false} LogPrefix(crc: Checksum, records: seq<Bytes>, k: nat)
    requires k <= |records|
    ensures LogFile(crc, records[..k]) <= LogFile(crc, records)
    ensures k < |records| ==> |LogFile(crc, records[..k])| < |LogFile(crc, records)|
    decreases |records| - k
  {
    if k < |records| {
      var front := records[..|records| - 1];
      LogGrows(crc, records);
      LogPrefix(crc, front, k);
      assert front[..k] == records[..k];
      PrefixChain(LogFile(crc, records[..k]), LogFile(crc, front), LogFile(crc, records));
    } else {
      assert records[..k] == records;
    }
  }

  /** The first `m` records, and no more, lie entirely within the first `cut` bytes. */
  ghost predicate Intact(crc: Checksum, records: seq<Bytes>, cut: nat, m: nat) {
    && m <= |records| && |LogFile(crc, records[..m])| <= cut
    && (m < |records| ==> cut < |LogFile(crc, records[..m + 1])|)
  }

  /** Every cut leaves some number of records intact. */
  lemma {:induction false} SomeIntact(crc: Checksum, records: seq<Bytes>, cut: nat, upto: nat) returns (m: nat)
    requires upto <= |records| && (upto < |records| ==> cut < |LogFile(crc, records[..upto + 1])|)
    ensures Intact(crc, records, cut, m)
  {
    if |LogFile(crc, records[..upto])| <= cut {
      m := upto;
    } else {
      m := SomeIntact(crc, records, cut, upto - 1);
    }
  }

  lemma ShorterLog(crc: Checksum, records: seq<Bytes>, k: nat, m: nat)
    requires k <= m <= |records|
    ensures |LogFile(crc, records[..k])| <= |LogFile(crc, records[..m])|
  {
    LogPrefix(crc, records[..m], k);
    assert records[..m][..k] == records[..k];
  }

  lemma CutAgrees(whole: Bytes, cut: nat, dest: Bytes, next: Bytes)
    requires cut <= |whole| && dest <= whole && |dest| <= cut && next <= whole
    ensures dest <= whole[..cut] && Agree(whole[..cut], next)
  {
  }

  /** One ReadRecord from a record boundary of a log that was cut. */
  lemma NextOrEnd(crc: Checksum, checksum: bool, records: seq<Bytes>, cut: nat, k: nat)
    requires cut <= |LogFile(crc, records)| && k < |records| && |LogFile(crc, records[..k])| <= cut
    ensures var g := NextRecord(crc, checksum, LogFile(crc, records)[..cut], |LogFile(crc, records[..k])|, None);
            if |LogFile(crc, records[..k + 1])| <= cut then g == Got(Some(records[k]), |LogFile(crc, records[..k + 1])|, [])
            else g == Got(None, cut, [])
  {
    var whole, dest, next := LogFile(crc, records), LogFile(crc, records[..k]), LogFile(crc, records[..k + 1]);
    LogPrefix(crc, records, k);
    LogPrefix(crc, records, k + 1);
    LogGrows(crc, records[..k + 1]);
    assert records[..k + 1][..k] == records[..k];
    NextOfCut(crc, checksum, whole, cut, dest, records[k], next);
  }

  lemma NextOfCut(crc: Checksum, checksum: bool, whole: Bytes, cut: nat, dest: Bytes, record: Bytes, next: Bytes)
    requires cut <= |whole| && dest <= whole && |dest| <= cut && next <= whole && next == AfterRecord(crc, dest, record, true)
    ensures NextRecord(crc, checksum, whole[..cut], |dest|, None) ==
              if |next| <= cut then Got(Some(record), |next|, []) else Got(None, cut, [])
  {
    CutAgrees(whole, cut, dest, next);
    RecordRead(crc, checksum, whole[..cut], dest, record, None);
  }

  lemma ReadMore(crc: Checksum, checksum: bool, file: Bytes, pos: nat, record: Bytes, next: nat, rest: seq<Bytes>)
    requires pos <= |file| && NextRecord(crc, checksum, file, pos, None) == Got(Some(record), next, [])
    requires ReadAll(crc, checksum, file, next) == (rest, [])
    ensures ReadAll(crc, checksum, file, pos) == ([record] + rest, [])
  {
  }

  lemma ReadStops(crc: Checksum, checksum: bool, records: seq<Bytes>, cut: nat, m: nat)
    requires cut <= |LogFile(crc, records)| && Intact(crc, records, cut, m)
    ensures ReadAll(crc, checksum, LogFile(crc, records)[..cut], |LogFile(crc, records[..m])|) == ([], [])
  {
    if m < |records| {
      NextOrEnd(crc, checksum, records, cut, m);
    } else {
      assert records[..m] == records;
      NothingLeft(crc, checksum, LogFile(crc, records)[..cut], LogFile(crc, records));
    }
  }

  lemma {:induction false} ReadFrom(crc: Checksum, checksum: bool, records: seq<Bytes>, cut: nat, k: nat, m: nat)
    requires cut <= |LogFile(crc, records)| && k <= m && Intact(crc, records, cut, m)
    ensures |LogFile(crc, records[..k])| <= cut
    ensures ReadAll(crc, checksum, LogFile(crc, records)[..cut], |LogFile(crc, records[..k])|) == (records[k..m], [])
    decreases m - k
  {
    var file, pos := LogFile(crc, records)[..cut], |LogFile(crc, records[..k])|;
    ShorterLog(crc, records, k, m);
    if k < m {
      ShorterLog(crc, records, k + 1, m);
      NextOrEnd(crc, checksum, records, cut, k);
      ReadFrom(crc, checksum, records, cut, k + 1, m);
      ReadMore(crc, checksum, file, pos, records[k], |LogFile(crc, records[..k + 1])|, records[k + 1..m]);
      SliceHead(records, k, m);
    } else {
      ReadStops(crc, checksum, records, cut, m);
      assert records[k..m] == [];
    }
  }

  lemma SliceHead(records: seq<Bytes>, k: nat, m: nat)
    requires k < m <= |records|
    ensures records[k..m] == [records[k]] + records[k + 1..m]
  {
  }

  lemma NothingLeft(crc: Checksum, checksum: bool, file: Bytes, dest: Bytes)
    requires file == dest
    ensures NextRecord(crc, checksum, file, |dest|, None) == Got(None, |file|, [])
  {
  }

  /** Torn tail: however a log is cut, reading it gives exactly the records whose last byte is there, and no
      corruption is reported. */
  lemma TornTail(crc: Checksum, checksum: bool, records: seq<Bytes>, cut: nat, m: nat)
    requires cut <= |LogFile(crc, records)| && Intact(crc, records, cut, m)
    ensures ReadAll(crc, checksum, LogFile(crc, records)[..cut], 0) == (records[..m], [])
  {
    ReadFrom(crc, checksum, records, cut, 0, m);
    assert records[..0] == [];
  }

  /** The log round trip. */
  lemma LogRoundTrip(crc: Checksum, checksum: bool, records: seq<Bytes>)
    ensures ReadAll(crc, checksum, LogFile(crc, records), 0) == (records, [])
  {
    var whole := LogFile(crc, records);
    assert whole[..|whole|] == whole && records[..|records|] == records;
    TornTail(crc, checksum, records, |whole|, |records|);
  }

  // ------------------------------------------------------------------ the reader as it is written

  /** The outcome `g`, reported after `reports`. */
  function After(reports: seq<Report>, g: Got): Got {
    Got(g.record, g.next, reports + g.reports)
  }

  /** One turn of ReadRecord's loop. */
  lemma NextRecordStep(crc: Checksum, checksum: bool, file: Bytes, pos: nat, partial: Option<Bytes>, reports: seq<Report>)
    requires pos <= |file|
    ensures var f := NextFragment(crc, checksum, file, pos);
            After(reports, NextRecord(crc, checksum, file, pos, partial)) ==
              if f.kind == EOF then Got(None, f.next, reports + f.reports)
              else
                var p := Assemble(partial, f.kind, f.data);
                if p.Done? then Got(Some(p.record), f.next, reports + f.reports + p.reports)
                else After(reports + f.reports + p.reports, NextRecord(crc, checksum, file, f.next, p.partial))
  {
    var f := NextFragment(crc, checksum, file, pos);
    if f.kind != EOF {
      var p := Assemble(partial, f.kind, f.data);
      if p.Done? {
        ConcatAssoc(reports, f.reports, p.reports);
      } else {
        ConcatAssoc(reports, f.reports, p.reports);
        ConcatAssoc(reports, f.reports + p.reports, NextRecord(crc, checksum, file, f.next, p.partial).reports);
      }
    }
  }

  /** The buffer is what is left of the block read last; `eof` says that block was short. */
  ghost predicate BufferOk(file: Bytes, filePos: nat, buffer: Bytes, eof: bool) {
    && filePos <= |file| && |buffer| <= filePos && buffer == file[filePos - |buffer|..filePos]
    && (buffer == [] ==> filePos == |file| || (!eof && filePos % BLOCK == 0))
    && (buffer != [] ==> filePos == BlockEnd(file, filePos - |buffer|) && (eof <==> !FullBlock(file, filePos - |buffer|)))
    && (eof ==> filePos == |file|)
  }

  /** The fragment at the front of a buffer that starts at `pos`. */
  function FragmentOf(crc: Checksum, checksum: bool, buffer: Bytes, eof: bool, pos: nat): Fragment
    requires HEADER <= |buffer|
  {
    var size, kind, length := |buffer|, buffer[6], buffer[4] as int + buffer[5] as int * 256;
    if HEADER + length > size then
      if eof then Fragment(EOF, [], pos + size, []) else Fragment(BAD_RECORD, [], pos + size, [Report(size, BadLength)])
    else if kind == ZERO_TYPE && length == 0 then
      Fragment(BAD_RECORD, [], pos + size, [])
    else if checksum && Unmask(DecodeFixed32(buffer[..4])) != crc(buffer[6..HEADER + length]) then
      Fragment(BAD_RECORD, [], pos + size, [Report(size, ChecksumMismatch)])
    else
      Fragment(kind, buffer[HEADER..HEADER + length], pos + HEADER + length, [])
  }

  lemma BufferByte(file: Bytes, filePos: nat, buffer: Bytes, pos: nat, i: nat)
    requires filePos <= |file| && |buffer| <= filePos && buffer == file[filePos - |buffer|..filePos] && pos == filePos - |buffer|
    requires i < |buffer|
    ensures buffer[i] == file[pos + i]
  {
  }

  lemma SameFragment(crc: Checksum, checksum: bool, file: Bytes, buffer: Bytes, eof: bool, pos: nat, end: nat, length: nat)
    requires pos + HEADER <= end == BlockEnd(file, pos) && end == pos + |buffer| && (eof <==> !FullBlock(file, pos))
    requires eof ==> end == |file|
    requires length == LengthAt(file, pos) == buffer[4] as int + buffer[5] as int * 256 && file[pos + 6] == buffer[6]
    requires HEADER + length <= |buffer| ==>
               && buffer[HEADER..HEADER + length] == file[pos + HEADER..pos + HEADER + length]
               && (ChecksumOk(crc, file, pos, length) <==> Unmask(DecodeFixed32(buffer[..4])) == crc(buffer[6..HEADER + length]))
    ensures FragmentAt(crc, checksum, file, pos) == FragmentOf(crc, checksum, buffer, eof, pos)
  {
  }

  lemma FragmentOfBuffer(crc: Checksum, checksum: bool, file: Bytes, filePos: nat, buffer: Bytes, eof: bool, pos: nat)
    requires BufferOk(file, filePos, buffer, eof) && HEADER <= |buffer| && pos == filePos - |buffer|
    ensures pos + HEADER <= BlockEnd(file, pos)
    ensures FragmentAt(crc, checksum, file, pos) == FragmentOf(crc, checksum, buffer, eof, pos)
  {
    BufferByte(file, filePos, buffer, pos, 4);
    BufferByte(file, filePos, buffer, pos, 5);
    BufferByte(file, filePos, buffer, pos, 6);
    var length := LengthAt(file, pos);
    if HEADER + length <= |buffer| {
      HeaderOfBuffer(crc, file, pos, filePos, length);
    }
    SameFragment(crc, checksum, file, buffer, eof, pos, filePos, length);
  }

  class Reader {
    const crc: Checksum
    const checksum: bool
    const file: Bytes
    var filePos: nat
    var buffer: Bytes
    var eof: bool
    var reports: seq<Report>

    ghost predicate Valid()
      reads this
    {
      BufferOk(file, filePos, buffer, eof)
    }

    ghost function Pos(): nat
      reads this
    {
      if |buffer| <= filePos then filePos - |buffer| else 0
    }

    constructor (crc: Checksum, checksum: bool, file: Bytes)
      ensures Valid() && Pos() == 0 && reports == []
      ensures this.crc == crc && this.checksum == checksum && this.file == file
    {
      this.crc, this.checksum, this.file := crc, checksum, file;
      filePos, buffer, eof, reports := 0, [], false, [];
    }

    /** Read the next block into the empty buffer; a short read means the end of the file. */
    method Refill()
      requires Valid() && !eof && |buffer| < HEADER
      modifies `filePos, `buffer, `eof
      ensures Valid()
      ensures Pos() == old(filePos)
      ensures eof || |buffer| == BLOCK
    {
      var n := Min(BLOCK, |file| - filePos);
      buffer := file[filePos..filePos + n];
      filePos := filePos + n;
      if n < BLOCK {
        eof := true;
      }
    }

    /** Blocks are read until a header is at hand or the file ends. */
    method FillHeader() returns (more: bool)
      requires Valid()
      modifies `filePos, `buffer, `eof
      ensures Valid()
      ensures NextFragment(crc, checksum, file, Pos()) == NextFragment(crc, checksum, file, old(Pos()))
      ensures if more then HEADER <= |buffer|
              else Pos() == |file| && NextFragment(crc, checksum, file, old(Pos())) == Fragment(EOF, [], |file|, [])
    {
      while |buffer| < HEADER
        invariant Valid()
        invariant NextFragment(crc, checksum, file, Pos()) == NextFragment(crc, checksum, file, old(Pos()))
        decreases |file| - filePos, !eof
      {
        if !eof {
          Refill();
        } else {
          assert NextFragment(crc, checksum, file, Pos()) == Fragment(EOF, [], |file|, []);
          buffer := [];
          return false;
        }
      }
      return true;
    }

    /** Drop the first `n` bytes of the buffer. */
    method Consume(n: nat)
      requires Valid() && n <= |buffer|
      modifies `buffer
      ensures Valid() && Pos() == old(Pos()) + n
    {
      ghost var pos := Pos();
      buffer := buffer[n..];
      if n < filePos - pos { SameBlock(file, pos, n); }
    }

    /** The header and payload at the front of the buffer. */
    method ParseFragment() returns (kind: Byte, fragment: Bytes)
      requires Valid() && HEADER <= |buffer|
      modifies `buffer, `reports
      ensures Valid()
      ensures var f := FragmentAt(crc, checksum, file, old(Pos()));
              kind == f.kind && fragment == f.data && Pos() == f.next && reports == old(reports) + f.reports
    {
      FragmentOfBuffer(crc, checksum, file, filePos, buffer, eof, Pos());
      var size := |buffer|;
      kind, fragment := buffer[6], [];
      var length := buffer[4] as int + buffer[5] as int * 256;
      if HEADER + length > size {
        Consume(size);
        if !eof {
          reports := reports + [Report(size, BadLength)];
          kind := BAD_RECORD;
        } else {
          kind := EOF;
        }
      } else if kind == ZERO_TYPE && length == 0 {
        Consume(size);
        kind := BAD_RECORD;
      } else {
        if checksum && Unmask(DecodeFixed32(buffer[..4])) != crc(buffer[6..HEADER + length]) {
          Consume(size);
          reports := reports + [Report(size, ChecksumMismatch)];
          kind := BAD_RECORD;
        } else {
          fragment := buffer[HEADER..HEADER + length];
          Consume(HEADER + length);
        }
      }
    }

    method ReadPhysicalRecord() returns (kind: Byte, fragment: Bytes)
      requires Valid()
      modifies this
      ensures Valid()
      ensures var f := NextFragment(crc, checksum, file, old(Pos()));
              kind == f.kind && fragment == f.data && Pos() == f.next && reports == old(reports) + f.reports
    {
      var more := FillHeader();
      if !more {
        return EOF, [];
      }
      kind, fragment := ParseFragment();
    }

    /** ReadRecord: put fragments together until one finishes a record. */
    method ReadRecord() returns (record: Option<Bytes>)
      requires Valid()
      modifies this
      ensures Valid()
      ensures Got(record, Pos(), reports) == After(old(reports), NextRecord(crc, checksum, file, old(Pos()), None))
    {
      var scratch: Option<Bytes> := None;
      ghost var goal := After(reports, NextRecord(crc, checksum, file, Pos(), None));
      while true
        invariant Valid() && Pos() <= |file|
        invariant goal == After(reports, NextRecord(crc, checksum, file, Pos(), scratch))
        decreases |file| - Pos()
      {
        NextRecordStep(crc, checksum, file, Pos(), scratch, reports);
        var kind, fragment := ReadPhysicalRecord();
        if kind == EOF {
          return None;
        }
        var step := Assemble(scratch, kind, fragment);
        reports := reports + step.reports;
        if step.Done? {
          return Some(step.record);
        }
        scratch := step.partial;
      }
    }
  }

  lemma SameBlock(file: Bytes, pos: nat, n: nat)
    requires pos + n < BlockEnd(file, pos)
    ensures BlockEnd(file, pos + n) == BlockEnd(file, pos) && (FullBlock(file, pos + n) <==> FullBlock(file, pos))
  {
  }

  lemma HeaderOfBuffer(crc: Checksum, file: Bytes, pos: nat, end: nat, length: nat)
    requires pos + HEADER + length <= end <= |file|
    ensures var buffer := file[pos..end];
            && buffer[HEADER..HEADER + length] == file[pos + HEADER..pos + HEADER + length]
            && (ChecksumOk(crc, file, pos, length) <==>
                  Unmask(DecodeFixed32(buffer[..4])) == crc(buffer[6..HEADER + length]))
  {
    BufferSlice(file, pos, end, 0, 4);
    BufferSlice(file, pos, end, 6, HEADER + length);
    BufferSlice(file, pos, end, HEADER, HEADER + length);
  }

  lemma BufferSlice(file: Bytes, lo: nat, hi: nat, i: nat, j: nat)
    requires lo <= hi <= |file| && i <= j <= hi - lo
    ensures file[lo..hi][i..j] == file[lo + i..lo + j]
  {
    var slice := file[lo..hi];
    forall k | 0 <= k < j - i ensures slice[i..j][k] == file[lo + i..lo + j][k] {
      assert slice[i + k] == file[lo + (i + k)];
    }
  }
}
