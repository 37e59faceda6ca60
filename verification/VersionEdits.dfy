/** The encoding of version edits (db/version_edit.h, db/version_edit.cc). */
module VersionEdits {
  import opened Coding
  import opened Common
  import opened Keys
  import Version

  /** FileMetaData; the ends are encoded internal keys. */
  datatype FileMeta = FileMeta(number: nat, size: nat, smallest: Bytes, largest: Bytes)

  /** What a VersionEdit says; `deletedFiles` lists a std::set in its order. */
  datatype EditRecord = EditRecord(comparator: Option<Bytes>, logNumber: Option<nat>, prevLogNumber: Option<nat>,
                                   nextFile: Option<nat>, lastSequence: Option<nat>, compactPointers: seq<(nat, Bytes)>,
                                   deletedFiles: seq<(nat, nat)>, newFiles: seq<(nat, FileMeta)>)

  const NOTHING := EditRecord(None, None, None, None, None, [], [], [])

  /** One tagged field of an encoded edit. */
  datatype Field =
    | Comparator(name: Bytes)
    | LogNumber(n: nat)
    | NextFileNumber(n: nat)
    | LastSequence(n: nat)
    | CompactPointer(level: nat, key: Bytes)
    | DeletedFile(level: nat, n: nat)
    | NewFile(level: nat, f: FileMeta)
    | PrevLogNumber(n: nat)

  // ------------------------------------------------------------------ numbers and slices

  function GetVarint64(input: Bytes): (r: Option<(nat, Bytes)>)
    ensures r.Some? ==> |r.value.1| < |input|
  {
    GetVarintConsumes(input, 1, 10, 0x1_0000_0000_0000_0000, 0);
    GetVarint(input, 1, 10, 0x1_0000_0000_0000_0000, 0)
  }

  lemma PowerStep(n: nat, p: nat)
    requires Power(n) == p
    ensures Power(n + 1) == 128 * p
  {
  }

  lemma PowerOfTen(n: nat)
    requires n == 10
    ensures Power(n) == 0x40_0000_0000_0000_0000
  {
    assert Power(0) == 1;
    PowerStep(0, 1);
    PowerStep(1, 0x80);
    PowerStep(2, 0x4000);
    PowerStep(3, 0x20_0000);
    PowerStep(4, 0x1000_0000);
    PowerStep(5, 0x8_0000_0000);
    PowerStep(6, 0x400_0000_0000);
    PowerStep(7, 0x2_0000_0000_0000);
    PowerStep(8, 0x100_0000_0000_0000);
    PowerStep(9, 0x8000_0000_0000_0000);
  }

  lemma LongVarint(v: nat, tail: Bytes, groups: nat, modulus: nat)
    requires groups == 10 && modulus == 0x1_0000_0000_0000_0000 && v < modulus
    ensures GetVarint(Varint(v) + tail, 1, groups, modulus, 0) == Some((v, tail))
  {
    PowerOfTen(groups);
    var p := Power(groups);
    assert v < p;
    VarintRoundTrip(v, tail, 1, groups, modulus, 0, v);
  }

  lemma Varint64RoundTrip(v: nat, tail: Bytes)
    requires v < 0x1_0000_0000_0000_0000
    ensures GetVarint64(Varint(v) + tail) == Some((v, tail))
  {
    LongVarint(v, tail, 10, 0x1_0000_0000_0000_0000);
  }

  /** std::pair's order. */
  predicate PairLess(a: (nat, nat), b: (nat, nat)) {
    a.0 < b.0 || (a.0 == b.0 && a.1 < b.1)
  }

  predicate Ascending(s: seq<(nat, nat)>) {
    forall i, j :: 0 <= i < j < |s| ==> PairLess(s[i], s[j])
  }

  /** std::set::insert. */
  function InsertPair(s: seq<(nat, nat)>, p: (nat, nat)): seq<(nat, nat)> {
    if s == [] || PairLess(p, s[0]) then [p] + s
    else if s[0] == p then s
    else [s[0]] + InsertPair(s[1..], p)
  }

  lemma {:induction false} InsertLast(s: seq<(nat, nat)>, p: (nat, nat))
    requires forall i :: 0 <= i < |s| ==> PairLess(s[i], p)
    ensures InsertPair(s, p) == s + [p]
  {
    if s != [] {
      InsertLast(s[1..], p);
      assert s == [s[0]] + s[1..];
    }
  }

  /** The set stays in order, and gains the pair. */
  lemma {:induction false} InsertKeepsOrder(s: seq<(nat, nat)>, p: (nat, nat))
    requires Ascending(s)
    ensures Ascending(InsertPair(s, p)) && forall q :: q in InsertPair(s, p) <==> q in s || q == p
  {
    if s != [] && !PairLess(p, s[0]) && s[0] != p {
      InsertKeepsOrder(s[1..], p);
      var rest := InsertPair(s[1..], p);
      assert s == [s[0]] + s[1..];
      forall i | 0 <= i < |rest| ensures PairLess(s[0], rest[i]) {
        assert rest[i] in rest;
      }
    }
  }

  lemma {:induction false} ListPairs(pairs: set<(nat, nat)>) returns (s: seq<(nat, nat)>)
    ensures Ascending(s) && forall q :: q in s <==> q in pairs
  {
    if pairs == {} {
      s := [];
    } else {
      var p :| p in pairs;
      var rest := ListPairs(pairs - {p});
      InsertKeepsOrder(rest, p);
      s := InsertPair(rest, p);
    }
  }

  // ------------------------------------------------------------------ one field

  function WithTag(tag: Word, body: Bytes): Bytes {
    Varint(tag) + body
  }

  function EncodeMeta(f: FileMeta): Bytes {
    Varint(f.number) + (Varint(f.size) + (LengthPrefixed(f.smallest) + LengthPrefixed(f.largest)))
  }

  function EncodeField(f: Field): Bytes {
    match f
    case Comparator(name) => WithTag(1, LengthPrefixed(name))
    case LogNumber(n) => WithTag(2, Varint(n))
    case NextFileNumber(n) => WithTag(3, Varint(n))
    case LastSequence(n) => WithTag(4, Varint(n))
    case CompactPointer(level, key) => WithTag(5, Varint(level) + LengthPrefixed(key))
    case DeletedFile(level, n) => WithTag(6, Varint(level) + Varint(n))
    case NewFile(level, meta) => WithTag(7, Varint(level) + EncodeMeta(meta))
    case PrevLogNumber(n) => WithTag(9, Varint(n))
  }

  datatype Message = BadComparator | BadLogNumber | BadPrevLogNumber | BadNextFile | BadLastSequence | BadCompactPointer
                   | BadDeletedFile | BadNewFile | UnknownTag | InvalidTag

  /** The next field and what follows it, what is wrong with it, or no tag at all. */
  datatype ParsedField = Parsed(field: Field, rest: Bytes) | Failed(message: Message) | NoTag

  function GetLevel(input: Bytes): (r: Option<(nat, Bytes)>)
    ensures r.Some? ==> r.value.0 < Version.NUM_LEVELS && |r.value.1| < |input|
  {
    GetVarintConsumes(input, 1, 5, 0x1_0000_0000, 0);
    var v := GetVarint32(input);
    if v.Some? && v.value.0 < Version.NUM_LEVELS then v else None
  }

  function ParseNumber(input: Bytes, field: nat -> Field, message: Message): (r: ParsedField)
    ensures !r.NoTag? && (r.Parsed? ==> |r.rest| < |input|)
  {
    var n := GetVarint64(input);
    if n.Some? then Parsed(field(n.value.0), n.value.1) else Failed(message)
  }

  function ParseComparator(input: Bytes): (r: ParsedField)
    ensures !r.NoTag? && (r.Parsed? ==> |r.rest| < |input|)
  {
    var name := GetLengthPrefixedSlice(input);
    if name.Some? then Parsed(Comparator(name.value.0), name.value.1) else Failed(BadComparator)
  }

  function ParsePointer(input: Bytes): (r: ParsedField)
    ensures !r.NoTag? && (r.Parsed? ==> |r.rest| < |input|)
  {
    var level := GetLevel(input);
    if level == None then Failed(BadCompactPointer)
    else
      var key := GetLengthPrefixedSlice(level.value.1);
      if key == None then Failed(BadCompactPointer) else Parsed(CompactPointer(level.value.0, key.value.0), key.value.1)
  }

  function ParseDeleted(input: Bytes): (r: ParsedField)
    ensures !r.NoTag? && (r.Parsed? ==> |r.rest| < |input|)
  {
    var level := GetLevel(input);
    if level == None then Failed(BadDeletedFile)
    else
      var n := GetVarint64(level.value.1);
      if n == None then Failed(BadDeletedFile) else Parsed(DeletedFile(level.value.0, n.value.0), n.value.1)
  }

  function ParseMeta(input: Bytes): (r: Option<(FileMeta, Bytes)>)
    ensures r.Some? ==> |r.value.1| < |input|
  {
    var number := GetVarint64(input);
    if number == None then None
    else
      var size := GetVarint64(number.value.1);
      if size == None then None
      else
        var smallest := GetLengthPrefixedSlice(size.value.1);
        if smallest == None then None
        else
          var largest := GetLengthPrefixedSlice(smallest.value.1);
          if largest == None then None
          else Some((FileMeta(number.value.0, size.value.0, smallest.value.0, largest.value.0), largest.value.1))
  }

  function ParseNew(input: Bytes): (r: ParsedField)
    ensures !r.NoTag? && (r.Parsed? ==> |r.rest| < |input|)
  {
    var level := GetLevel(input);
    if level == None then Failed(BadNewFile)
    else
      var f := ParseMeta(level.value.1);
      if f == None then Failed(BadNewFile) else Parsed(NewFile(level.value.0, f.value.0), f.value.1)
  }

  function ParseBody(tag: nat, input: Bytes): (r: ParsedField)
    ensures !r.NoTag? && (r.Parsed? ==> |r.rest| < |input|)
  {
    if tag == 1 then ParseComparator(input)
    else if tag == 2 then ParseNumber(input, (n: nat) => LogNumber(n), BadLogNumber)
    else if tag == 3 then ParseNumber(input, (n: nat) => NextFileNumber(n), BadNextFile)
    else if tag == 4 then ParseNumber(input, (n: nat) => LastSequence(n), BadLastSequence)
    else if tag == 5 then ParsePointer(input)
    else if tag == 6 then ParseDeleted(input)
    else if tag == 7 then ParseNew(input)
    else if tag == 9 then ParseNumber(input, (n: nat) => PrevLogNumber(n), BadPrevLogNumber)
    else Failed(UnknownTag)
  }

  function ParseField(input: Bytes): (r: ParsedField)
    ensures r.Parsed? ==> |r.rest| < |input|
  {
    GetVarintConsumes(input, 1, 5, 0x1_0000_0000, 0);
    var tag := GetVarint32(input);
    if tag == None then NoTag else ParseBody(tag.value.0, tag.value.1)
  }

  predicate NumberFits(n: nat) {
    n < 0x1_0000_0000_0000_0000
  }

  predicate MetaFits(f: FileMeta) {
    NumberFits(f.number) && NumberFits(f.size) && |f.smallest| < 0x1_0000_0000 && |f.largest| < 0x1_0000_0000
  }

  /** What the source's 64-bit numbers, 32-bit lengths and levels can express. */
  predicate FieldFits(f: Field) {
    match f
    case Comparator(name) => |name| < 0x1_0000_0000
    case CompactPointer(level, key) => level < Version.NUM_LEVELS && |key| < 0x1_0000_0000
    case DeletedFile(level, n) => level < Version.NUM_LEVELS && NumberFits(n)
    case NewFile(level, meta) => level < Version.NUM_LEVELS && MetaFits(meta)
    case LogNumber(n) => NumberFits(n)
    case NextFileNumber(n) => NumberFits(n)
    case LastSequence(n) => NumberFits(n)
    case PrevLogNumber(n) => NumberFits(n)
  }

  lemma LevelRoundTrip(level: nat, tail: Bytes)
    requires level < Version.NUM_LEVELS
    ensures GetLevel(Varint(level) + tail) == Some((level, tail))
  {
    Varint32RoundTrip(level, tail);
  }

  lemma MetaRoundTrip(f: FileMeta, tail: Bytes)
    requires MetaFits(f)
    ensures ParseMeta(EncodeMeta(f) + tail) == Some((f, tail))
  {
    var c := LengthPrefixed(f.largest) + tail;
    var b := LengthPrefixed(f.smallest) + c;
    var a := Varint(f.size) + b;
    ConcatThree(Varint(f.number), Varint(f.size), LengthPrefixed(f.smallest), LengthPrefixed(f.largest), tail, c, b, a);
    Varint64RoundTrip(f.number, a);
    Varint64RoundTrip(f.size, b);
    LengthPrefixedRoundTrip(f.smallest, c);
    LengthPrefixedRoundTrip(f.largest, tail);
  }

  lemma ConcatThree(w: Bytes, x: Bytes, y: Bytes, z: Bytes, tail: Bytes, c: Bytes, b: Bytes, a: Bytes)
    requires c == z + tail && b == y + c && a == x + b
    ensures w + (x + (y + z)) + tail == w + a
  {
    assert y + z + tail == b;
    assert x + (y + z) + tail == x + (y + z + tail);
    assert w + (x + (y + z)) + tail == w + (x + (y + z) + tail);
  }

  lemma TagRoundTrip(tag: Word, body: Bytes, tail: Bytes)
    ensures ParseField(WithTag(tag, body) + tail) == ParseBody(tag, body + tail)
  {
    assert WithTag(tag, body) + tail == Varint(tag) + (body + tail);
    Varint32RoundTrip(tag, body + tail);
  }

  lemma PairDropped(a: Bytes, b: Bytes, tail: Bytes)
    ensures a + b + tail == a + (b + tail)
  {
  }

  /** One field. */
  lemma FieldRoundTrip(f: Field, tail: Bytes)
    requires FieldFits(f)
    ensures ParseField(EncodeField(f) + tail) == Parsed(f, tail)
  {
    match f
    case Comparator(name) =>
      TagRoundTrip(1, LengthPrefixed(name), tail);
      LengthPrefixedRoundTrip(name, tail);
    case LogNumber(n) => TagRoundTrip(2, Varint(n), tail); Varint64RoundTrip(n, tail);
    case NextFileNumber(n) => TagRoundTrip(3, Varint(n), tail); Varint64RoundTrip(n, tail);
    case LastSequence(n) => TagRoundTrip(4, Varint(n), tail); Varint64RoundTrip(n, tail);
    case CompactPointer(level, key) =>
      TagRoundTrip(5, Varint(level) + LengthPrefixed(key), tail);
      PairDropped(Varint(level), LengthPrefixed(key), tail);
      LevelRoundTrip(level, LengthPrefixed(key) + tail);
      LengthPrefixedRoundTrip(key, tail);
    case DeletedFile(level, n) =>
      TagRoundTrip(6, Varint(level) + Varint(n), tail);
      PairDropped(Varint(level), Varint(n), tail);
      LevelRoundTrip(level, Varint(n) + tail);
      Varint64RoundTrip(n, tail);
    case NewFile(level, meta) =>
      TagRoundTrip(7, Varint(level) + EncodeMeta(meta), tail);
      PairDropped(Varint(level), EncodeMeta(meta), tail);
      LevelRoundTrip(level, EncodeMeta(meta) + tail);
      MetaRoundTrip(meta, tail);
    case PrevLogNumber(n) => TagRoundTrip(9, Varint(n), tail); Varint64RoundTrip(n, tail);
  }

  // ------------------------------------------------------------------ a whole edit

  function EncodeFields(fs: seq<Field>): Bytes {
    if fs == [] then [] else EncodeField(fs[0]) + EncodeFields(fs[1..])
  }

  /** The fields of an encoded edit, and what stopped the parse if something did. */
  function ParseFields(input: Bytes): (seq<Field>, Option<Message>)
    decreases |input|
  {
    var p := ParseField(input);
    match p
    case NoTag => ([], if input == [] then None else Some(InvalidTag))
    case Failed(message) => ([], Some(message))
    case Parsed(f, rest) => var more := ParseFields(rest); ([f] + more.0, more.1)
  }

  lemma {:induction false} FieldsRoundTrip(fs: seq<Field>)
    requires forall i :: 0 <= i < |fs| ==> FieldFits(fs[i])
    ensures ParseFields(EncodeFields(fs)) == (fs, None)
  {
    if fs != [] {
      FieldsRoundTrip(fs[1..]);
      FieldRoundTrip(fs[0], EncodeFields(fs[1..]));
      assert fs == [fs[0]] + fs[1..];
    }
  }

  /** What a field says, added to an edit. */
  function With(e: EditRecord, f: Field): EditRecord {
    match f
    case Comparator(name) => e.(comparator := Some(name))
    case LogNumber(n) => e.(logNumber := Some(n))
    case NextFileNumber(n) => e.(nextFile := Some(n))
    case LastSequence(n) => e.(lastSequence := Some(n))
    case CompactPointer(level, key) => e.(compactPointers := e.compactPointers + [(level, key)])
    case DeletedFile(level, n) => e.(deletedFiles := InsertPair(e.deletedFiles, (level, n)))
    case NewFile(level, meta) => e.(newFiles := e.newFiles + [(level, meta)])
    case PrevLogNumber(n) => e.(prevLogNumber := Some(n))
  }

  function WithAll(e: EditRecord, fs: seq<Field>): EditRecord
    decreases fs
  {
    if fs == [] then e else WithAll(With(e, fs[0]), fs[1..])
  }

  function Present<T>(x: Option<T>, f: T -> Field): seq<Field> {
    if x.Some? then [f(x.value)] else []
  }

  function PointerFields(s: seq<(nat, Bytes)>): seq<Field> {
    if s == [] then [] else PointerFields(s[..|s| - 1]) + [CompactPointer(s[|s| - 1].0, s[|s| - 1].1)]
  }

  function DeletedFields(s: seq<(nat, nat)>): seq<Field> {
    if s == [] then [] else DeletedFields(s[..|s| - 1]) + [DeletedFile(s[|s| - 1].0, s[|s| - 1].1)]
  }

  function NewFields(s: seq<(nat, FileMeta)>): seq<Field> {
    if s == [] then [] else NewFields(s[..|s| - 1]) + [NewFile(s[|s| - 1].0, s[|s| - 1].1)]
  }

  function NumberFields(e: EditRecord): seq<Field> {
    Present(e.comparator, (x: Bytes) => Comparator(x)) + Present(e.logNumber, (x: nat) => LogNumber(x))
    + Present(e.prevLogNumber, (x: nat) => PrevLogNumber(x)) + Present(e.nextFile, (x: nat) => NextFileNumber(x))
    + Present(e.lastSequence, (x: nat) => LastSequence(x))
  }

  /** The fields in the order in which they are written. */
  function FieldsOf(e: EditRecord): seq<Field> {
    NumberFields(e) + PointerFields(e.compactPointers) + DeletedFields(e.deletedFiles) + NewFields(e.newFiles)
  }

  function Encoded(e: EditRecord): Bytes {
    EncodeFields(FieldsOf(e))
  }

  /** What decoding `src` makes of an edit that said `e`, and what went wrong. */
  function Decoded(e: EditRecord, src: Bytes): (EditRecord, Option<Message>) {
    var p := ParseFields(src);
    (WithAll(e, p.0), p.1)
  }

  lemma {:induction false} WithAllAppend(e: EditRecord, a: seq<Field>, b: seq<Field>)
    ensures WithAll(e, a + b) == WithAll(WithAll(e, a), b)
    decreases a
  {
    if a == [] {
      assert a + b == b;
    } else {
      assert (a + b)[0] == a[0] && (a + b)[1..] == a[1..] + b;
      WithAllAppend(With(e, a[0]), a[1..], b);
    }
  }

  lemma WithOneMore(e: EditRecord, a: seq<Field>, f: Field)
    ensures WithAll(e, a + [f]) == With(WithAll(e, a), f)
  {
    WithAllAppend(e, a, [f]);
    assert [f][1..] == [];
    assert WithAll(WithAll(e, a), [f]) == WithAll(With(WithAll(e, a), f), []);
  }

  lemma {:induction false} WithPointers(e: EditRecord, s: seq<(nat, Bytes)>)
    requires e.compactPointers == []
    ensures WithAll(e, PointerFields(s)) == e.(compactPointers := s)
  {
    if s == [] {
      assert WithAll(e, []) == e;
    } else {
      var n := |s| - 1;
      WithPointers(e, s[..n]);
      WithOneMore(e, PointerFields(s[..n]), CompactPointer(s[n].0, s[n].1));
      assert s[..n] + [s[n]] == s;
    }
  }

  lemma {:induction false} WithDeleted(e: EditRecord, s: seq<(nat, nat)>)
    requires e.deletedFiles == [] && Ascending(s)
    ensures WithAll(e, DeletedFields(s)) == e.(deletedFiles := s)
  {
    if s == [] {
      assert WithAll(e, []) == e;
    } else {
      var n := |s| - 1;
      WithDeleted(e, s[..n]);
      WithOneMore(e, DeletedFields(s[..n]), DeletedFile(s[n].0, s[n].1));
      InsertLast(s[..n], s[n]);
      assert s[..n] + [s[n]] == s;
    }
  }

  lemma {:induction false} WithNew(e: EditRecord, s: seq<(nat, FileMeta)>)
    requires e.newFiles == []
    ensures WithAll(e, NewFields(s)) == e.(newFiles := s)
  {
    if s == [] {
      assert WithAll(e, []) == e;
    } else {
      var n := |s| - 1;
      WithNew(e, s[..n]);
      WithOneMore(e, NewFields(s[..n]), NewFile(s[n].0, s[n].1));
      assert s[..n] + [s[n]] == s;
    }
  }

  lemma WithPresent<T>(e: EditRecord, x: Option<T>, f: T -> Field)
    ensures WithAll(e, Present(x, f)) == if x.Some? then With(e, f(x.value)) else e
  {
    if x.Some? {
      assert [f(x.value)][1..] == [];
      assert WithAll(e, Present(x, f)) == WithAll(With(e, f(x.value)), []);
    }
  }

  lemma WithNumbers(e: EditRecord)
    ensures WithAll(NOTHING, NumberFields(e)) ==
              EditRecord(e.comparator, e.logNumber, e.prevLogNumber, e.nextFile, e.lastSequence, [], [], [])
  {
    var a, b := Present(e.comparator, (x: Bytes) => Comparator(x)), Present(e.logNumber, (x: nat) => LogNumber(x));
    var c, d := Present(e.prevLogNumber, (x: nat) => PrevLogNumber(x)), Present(e.nextFile, (x: nat) => NextFileNumber(x));
    var l := Present(e.lastSequence, (x: nat) => LastSequence(x));
    WithAllAppend(NOTHING, a + b + c + d, l);
    WithAllAppend(NOTHING, a + b + c, d);
    WithAllAppend(NOTHING, a + b, c);
    WithAllAppend(NOTHING, a, b);
    var ea := NOTHING.(comparator := e.comparator);
    var eb := ea.(logNumber := e.logNumber);
    var ec := eb.(prevLogNumber := e.prevLogNumber);
    var ed := ec.(nextFile := e.nextFile);
    WithPresent(NOTHING, e.comparator, (x: Bytes) => Comparator(x));
    WithPresent(ea, e.logNumber, (x: nat) => LogNumber(x));
    WithPresent(eb, e.prevLogNumber, (x: nat) => PrevLogNumber(x));
    WithPresent(ec, e.nextFile, (x: nat) => NextFileNumber(x));
    WithPresent(ed, e.lastSequence, (x: nat) => LastSequence(x));
  }

  lemma FieldsRebuild(e: EditRecord)
    requires Ascending(e.deletedFiles)
    ensures WithAll(NOTHING, FieldsOf(e)) == e
  {
    var p, d, n := PointerFields(e.compactPointers), DeletedFields(e.deletedFiles), NewFields(e.newFiles);
    WithAllAppend(NOTHING, NumberFields(e) + p + d, n);
    WithAllAppend(NOTHING, NumberFields(e) + p, d);
    WithAllAppend(NOTHING, NumberFields(e), p);
    WithNumbers(e);
    var e1 := WithAll(NOTHING, NumberFields(e));
    WithPointers(e1, e.compactPointers);
    var e2 := e1.(compactPointers := e.compactPointers);
    WithDeleted(e2, e.deletedFiles);
    WithNew(e2.(deletedFiles := e.deletedFiles), e.newFiles);
  }

  /** What the source's types and the order of its set give: every field can be expressed. */
  predicate RecordFits(e: EditRecord) {
    && Ascending(e.deletedFiles) && forall f :: f in FieldsOf(e) ==> FieldFits(f)
  }

  /** Decoding an encoded edit gives it back, without error. */
  lemma EditRoundTrip(e: EditRecord)
    requires RecordFits(e)
    ensures Decoded(NOTHING, Encoded(e)) == (e, None)
  {
    FieldsRoundTrip(FieldsOf(e));
    FieldsRebuild(e);
  }

  // ------------------------------------------------------------------ the code

  lemma {:induction false} EncodeFieldsAppend(a: seq<Field>, b: seq<Field>)
    ensures EncodeFields(a + b) == EncodeFields(a) + EncodeFields(b)
  {
    if a == [] {
      assert a + b == b;
    } else {
      assert (a + b)[0] == a[0] && (a + b)[1..] == a[1..] + b;
      EncodeFieldsAppend(a[1..], b);
      ConcatAssoc(EncodeField(a[0]), EncodeFields(a[1..]), EncodeFields(b));
    }
  }

  lemma EncodeOneMore(a: seq<Field>, f: Field)
    ensures EncodeFields(a + [f]) == EncodeFields(a) + EncodeField(f)
  {
    EncodeFieldsAppend(a, [f]);
    assert [f][1..] == [] && EncodeField(f) + [] == EncodeField(f);
  }

  class VersionEdit {
    var comparator: Option<Bytes>
    var logNumber: Option<nat>
    var prevLogNumber: Option<nat>
    var nextFile: Option<nat>
    var lastSequence: Option<nat>
    var compactPointers: seq<(nat, Bytes)>
    var deletedFiles: seq<(nat, nat)>
    var newFiles: seq<(nat, FileMeta)>

    function Record(): EditRecord
      reads this
    {
      EditRecord(comparator, logNumber, prevLogNumber, nextFile, lastSequence, compactPointers, deletedFiles, newFiles)
    }

    constructor ()
      ensures Record() == NOTHING
    {
      comparator, logNumber, prevLogNumber, nextFile, lastSequence := None, None, None, None, None;
      compactPointers, deletedFiles, newFiles := [], [], [];
    }

    /** Clear leaves the compaction pointers. */
    method Clear()
      modifies this
      ensures Record() == NOTHING.(compactPointers := old(compactPointers))
    {
      comparator, logNumber, prevLogNumber, nextFile, lastSequence := None, None, None, None, None;
      deletedFiles, newFiles := [], [];
    }

    static method Put(start: Bytes, f: Field, ghost fs: seq<Field>) returns (dst: Bytes, ghost done: seq<Field>)
      requires start == EncodeFields(fs)
      ensures done == fs + [f] && dst == EncodeFields(done)
    {
      EncodeOneMore(fs, f);
      dst, done := start + EncodeField(f), fs + [f];
    }

    static method PutPresent<T>(start: Bytes, x: Option<T>, f: T -> Field, ghost fs: seq<Field>) returns (dst: Bytes, ghost done: seq<Field>)
      requires start == EncodeFields(fs)
      ensures done == fs + Present(x, f) && dst == EncodeFields(done)
    {
      dst, done := start, fs;
      if x.Some? {
        dst, done := Put(start, f(x.value), fs);
      }
    }

    method EncodeNumbers() returns (dst: Bytes)
      ensures dst == EncodeFields(NumberFields(Record()))
    {
      ghost var fs: seq<Field>;
      dst, fs := PutPresent([], comparator, (x: Bytes) => Comparator(x), []);
      dst, fs := PutPresent(dst, logNumber, (x: nat) => LogNumber(x), fs);
      dst, fs := PutPresent(dst, prevLogNumber, (x: nat) => PrevLogNumber(x), fs);
      dst, fs := PutPresent(dst, nextFile, (x: nat) => NextFileNumber(x), fs);
      dst, fs := PutPresent(dst, lastSequence, (x: nat) => LastSequence(x), fs);
      assert fs == NumberFields(Record());
    }

    method EncodePointers(start: Bytes, ghost fs: seq<Field>) returns (dst: Bytes)
      requires start == EncodeFields(fs)
      ensures dst == EncodeFields(fs + PointerFields(compactPointers))
    {
      dst := start;
      ghost var done := fs;
      assert fs + [] == fs;
      for i := 0 to |compactPointers|
        invariant dst == EncodeFields(done) && done == fs + PointerFields(compactPointers[..i])
      {
        assert compactPointers[..i + 1][..i] == compactPointers[..i];
        ConcatAssoc(fs, PointerFields(compactPointers[..i]), [CompactPointer(compactPointers[i].0, compactPointers[i].1)]);
        dst, done := Put(dst, CompactPointer(compactPointers[i].0, compactPointers[i].1), done);
      }
      assert compactPointers[..|compactPointers|] == compactPointers;
    }

    method EncodeDeleted(start: Bytes, ghost fs: seq<Field>) returns (dst: Bytes)
      requires start == EncodeFields(fs)
      ensures dst == EncodeFields(fs + DeletedFields(deletedFiles))
    {
      dst := start;
      ghost var done := fs;
      assert fs + [] == fs;
      for i := 0 to |deletedFiles|
        invariant dst == EncodeFields(done) && done == fs + DeletedFields(deletedFiles[..i])
      {
        assert deletedFiles[..i + 1][..i] == deletedFiles[..i];
        ConcatAssoc(fs, DeletedFields(deletedFiles[..i]), [DeletedFile(deletedFiles[i].0, deletedFiles[i].1)]);
        dst, done := Put(dst, DeletedFile(deletedFiles[i].0, deletedFiles[i].1), done);
      }
      assert deletedFiles[..|deletedFiles|] == deletedFiles;
    }

    method EncodeNew(start: Bytes, ghost fs: seq<Field>) returns (dst: Bytes)
      requires start == EncodeFields(fs)
      ensures dst == EncodeFields(fs + NewFields(newFiles))
    {
      dst := start;
      ghost var done := fs;
      assert fs + [] == fs;
      for i := 0 to |newFiles|
        invariant dst == EncodeFields(done) && done == fs + NewFields(newFiles[..i])
      {
        assert newFiles[..i + 1][..i] == newFiles[..i];
        ConcatAssoc(fs, NewFields(newFiles[..i]), [NewFile(newFiles[i].0, newFiles[i].1)]);
        dst, done := Put(dst, NewFile(newFiles[i].0, newFiles[i].1), done);
      }
      assert newFiles[..|newFiles|] == newFiles;
    }

    method EncodeTo() returns (dst: Bytes)
      ensures dst == Encoded(Record())
    {
      dst := EncodeNumbers();
      dst := EncodePointers(dst, NumberFields(Record()));
      dst := EncodeDeleted(dst, NumberFields(Record()) + PointerFields(compactPointers));
      dst := EncodeNew(dst, NumberFields(Record()) + PointerFields(compactPointers) + DeletedFields(deletedFiles));
    }

    /** The assignments of one case of the switch in DecodeFrom. */
    method Set(f: Field)
      modifies this
      ensures Record() == With(old(Record()), f)
    {
      match f
      case Comparator(name) => comparator := Some(name);
      case LogNumber(n) => logNumber := Some(n);
      case NextFileNumber(n) => nextFile := Some(n);
      case LastSequence(n) => lastSequence := Some(n);
      case CompactPointer(level, key) => compactPointers := compactPointers + [(level, key)];
      case DeletedFile(level, n) => deletedFiles := InsertPair(deletedFiles, (level, n));
      case NewFile(level, meta) => newFiles := newFiles + [(level, meta)];
      case PrevLogNumber(n) => prevLogNumber := Some(n);
    }

    method DecodeFrom(src: Bytes) returns (message: Option<Message>)
      modifies this
      ensures (Record(), message) == Decoded(NOTHING.(compactPointers := old(compactPointers)), src)
    {
      Clear();
      var input := src;
      ghost var goal := Decoded(Record(), src);
      message := None;
      while true
        invariant goal == Decoded(Record(), input)
        decreases |input|
      {
        var p := ParseField(input);
        match p
        case NoTag => return if input == [] then None else Some(InvalidTag);
        case Failed(m) => return Some(m);
        case Parsed(f, rest) =>
          Set(f);
          assert ([f] + ParseFields(rest).0)[1..] == ParseFields(rest).0;
          input := rest;
      }
    }
  }
}
