/**
 soroban.go: parseWASMMetadata, the scan of a WebAssembly module's sections.

 Offsets are Go ints of 64 bits: offset + sectionSize wraps around, and a slice whose end comes
 out before its start panics.
 */
module Wasm {
  import opened Wrappers
  import opened Leb128

  datatype WASMMetadata = WASMMetadata(
    nInstructions: Option<int>,
    nFunctions: Option<int>,
    nGlobals: Option<int>,
    nTableEntries: Option<int>,
    nTypes: Option<int>,
    nDataSegments: Option<int>,
    nElemSegments: Option<int>,
    nImports: Option<int>,
    nExports: Option<int>,
    nDataSegmentBytes: Option<int>)

  /** A metadata with every field absent. */
  const EMPTY := WASMMetadata(None, None, None, None, None, None, None, None, None, None)

  /** A section the scan reached: its id and the bytes it sliced out. */
  datatype Visit = Visit(id: Byte, body: seq<Byte>)

  /** The count read from a section's first bytes. */
  ghost function Count(body: seq<Byte>): int {
    Decode(body).0
  }

  /** countWASMElements. */
  method CountWASMElements(data: seq<Byte>) returns (count: int)
    ensures count == Count(data)
  {
    if |data| == 0 {
      return 0;
    }
    var bytesRead;
    count, bytesRead := DecodeLEB128(data);
  }

  // What the fields should hold: each from the last section with its id.

  ghost predicate Accepts(counted: bool, body: seq<Byte>) {
    counted ==> Count(body) > 0
  }

  /** The last visit of a section with this id; with `counted`, of one whose count is positive. */
  ghost function LastBody(visits: seq<Visit>, id: Byte, counted: bool): Option<seq<Byte>> {
    if visits == [] then None else
      var v := visits[|visits| - 1];
      if v.id == id && Accepts(counted, v.body) then Some(v.body) else LastBody(visits[..|visits| - 1], id, counted)
  }

  ghost function LastCount(visits: seq<Visit>, id: Byte): Option<int> {
    match LastBody(visits, id, false) case Some(body) => Some(Count(body)) case None => None
  }

  ghost function LastLength(visits: seq<Visit>, id: Byte, counted: bool): Option<int> {
    match LastBody(visits, id, counted) case Some(body) => Some(|body|) case None => None
  }

  /**
   Per section id, the last occurrence's count; for the code section, the byte length of the last
   one whose count is positive; for the data section, its byte length too.
   */
  ghost function Summary(visits: seq<Visit>): WASMMetadata {
    WASMMetadata(
      LastLength(visits, 10, true),
      LastCount(visits, 3),
      LastCount(visits, 6),
      LastCount(visits, 4),
      LastCount(visits, 1),
      LastCount(visits, 11),
      LastCount(visits, 9),
      LastCount(visits, 2),
      LastCount(visits, 7),
      LastLength(visits, 11, false))
  }

  /** The sections the scan reaches from the bytes that remain. */
  ghost function Scan(rest: seq<Byte>): (visits: seq<Visit>)
    ensures 2 * |visits| <= |rest|
    decreases |rest|
  {
    if |rest| < 2 then [] else
      var (size, n) := Decode(rest[1..]);
      if size < 0 || 1 + n + size > |rest| then [] else
        [Visit(rest[0], rest[1 + n..1 + n + size])] + Scan(rest[1 + n + size..])
  }

  /** The bytes on which the scan stops. */
  ghost function Unvisited(rest: seq<Byte>): (r: seq<Byte>)
    ensures |r| <= |rest|
    decreases |rest|
  {
    if |rest| < 2 then rest else
      var (size, n) := Decode(rest[1..]);
      if size < 0 || 1 + n + size > |rest| then rest else Unvisited(rest[1 + n + size..])
  }

  predicate HasMagic(wasm: seq<Byte>) {
    |wasm| >= 8 && wasm[0] == 0x00 && wasm[1] == 0x61 && wasm[2] == 0x73 && wasm[3] == 0x6D
  }

  ghost function Visited(wasm: seq<Byte>): seq<Visit> {
    if HasMagic(wasm) then Scan(wasm[8..]) else []
  }

  /** Go's int addition. */
  function AddInt64(a: int, b: int): int {
    AsInt64((a + b) % TWO64)
  }

  /** The size on which the scan stops takes the offset past 2^63 - 1. */
  ghost predicate Overruns(wasm: seq<Byte>) {
    HasMagic(wasm) &&
    var rest := Unvisited(wasm[8..]);
    |rest| >= 2 &&
    var (size, n) := Decode(rest[1..]);
    size > TWO63 - 1 - (|wasm| - |rest| + 1 + n)
  }

  /** Past the bounds test, the slice is in bounds exactly when the sum did not wrap. */
  lemma BoundsTest(offset: int, size: int, length: int)
    requires 0 <= offset <= length < TWO63 && 0 <= size < TWO63
    ensures var end := AddInt64(offset, size);
            && (end > length <==> size <= TWO63 - 1 - offset && offset + size > length)
            && (end <= length ==> (offset <= end <==> size <= TWO63 - 1 - offset))
            && (offset <= end <= length ==> end == offset + size)
  {
  }

  /** The switch on the section type. */
  method RecordSection(before: WASMMetadata, v: Visit, ghost visits: seq<Visit>) returns (metadata: WASMMetadata)
    requires before == Summary(visits)
    ensures metadata == Summary(visits + [v])
  {
    metadata := before;
    var count := CountWASMElements(v.body);
    ghost var all := visits + [v];
    assert all[|all| - 1] == v && all[..|all| - 1] == visits;
    match v.id {
      case 1 => metadata := metadata.(nTypes := Some(count));
      case 2 => metadata := metadata.(nImports := Some(count));
      case 3 => metadata := metadata.(nFunctions := Some(count));
      case 4 => metadata := metadata.(nTableEntries := Some(count));
      case 6 => metadata := metadata.(nGlobals := Some(count));
      case 7 => metadata := metadata.(nExports := Some(count));
      case 9 => metadata := metadata.(nElemSegments := Some(count));
      case 10 =>
        if count > 0 {
          metadata := metadata.(nInstructions := Some(|v.body|));
        }
      case 11 =>
        metadata := metadata.(nDataSegments := Some(count));
        metadata := metadata.(nDataSegmentBytes := Some(|v.body|));
      case _ =>
    }
  }

  lemma ScanUnfolds(rest: seq<Byte>)
    requires |rest| >= 2
    ensures var (size, n) := Decode(rest[1..]);
            Scan(rest) == if size < 0 || 1 + n + size > |rest| then [] else
                            [Visit(rest[0], rest[1 + n..1 + n + size])] + Scan(rest[1 + n + size..])
  {
  }

  /** One section further. */
  lemma ScanAt(w: seq<Byte>, start: nat)
    requires start + 1 < |w|
    ensures var (size, n) := Decode(w[start + 1..]);
            var body := start + 1 + n;
            body >= start + 2 && body <= |w| &&
            Scan(w[start..]) == if size < 0 || body + size > |w| then []
                                else [Visit(w[start], w[body..body + size])] + Scan(w[body + size..])
  {
    ScanUnfolds(w[start..]);
    hide Decode, Scan;
    var rest := w[start..];
    assert rest[1..] == w[start + 1..];
    var (size, n) := Decode(w[start + 1..]);
    var body := start + 1 + n;
    if size >= 0 && body + size <= |w| {
      assert rest[1 + n..1 + n + size] == w[body..body + size];
      assert rest[1 + n + size..] == w[body + size..];
    }
  }

  lemma UnvisitedAt(w: seq<Byte>, start: nat)
    requires start + 1 < |w|
    ensures var (size, n) := Decode(w[start + 1..]);
            var body := start + 1 + n;
            Unvisited(w[start..]) == if size < 0 || body + size > |w| then w[start..] else Unvisited(w[body + size..])
  {
    hide Decode;
    var rest := w[start..];
    assert rest[1..] == w[start + 1..];
    var (size, n) := Decode(w[start + 1..]);
    if size >= 0 && start + 1 + n + size <= |w| {
      assert rest[1 + n + size..] == w[start + 1 + n + size..];
    }
  }

  lemma ScanEnd(rest: seq<Byte>)
    requires |rest| < 2
    ensures Scan(rest) == [] && Unvisited(rest) == rest
  {
  }

  /**
   parseWASMMetadata, on every byte string a Go slice can hold; Err stands for a slice out of
   bounds, which happens exactly when the size it stops on wraps the sum.
   */
  method ParseWASMMetadata(wasm: seq<Byte>) returns (r: Result<WASMMetadata, string>)
    requires |wasm| < TWO63
    ensures r.Err? <==> Overruns(wasm)
    ensures r.Ok? ==> r.value == Summary(Visited(wasm))
    ensures |wasm| < 8 || wasm[..4] != [0x00, 0x61, 0x73, 0x6D] ==> r == Ok(EMPTY)
  {
    hide Decode, Scan, Unvisited, AddInt64, Summary;
    var metadata := EMPTY;
    EmptySummary();
    assert |wasm| >= 8 && wasm[..4] != [0x00, 0x61, 0x73, 0x6D] ==> !HasMagic(wasm) by {
      MagicBytes(wasm);
    }
    if |wasm| < 8 {
      return Ok(metadata);
    }
    if wasm[0] != 0x00 || wasm[1] != 0x61 || wasm[2] != 0x73 || wasm[3] != 0x6D {
      return Ok(metadata);
    }
    var offset := 8;
    ghost var visits: seq<Visit> := [];
    while offset < |wasm|
      invariant 8 <= offset <= |wasm|
      invariant metadata == Summary(visits) && Visited(wasm) == visits + Scan(wasm[offset..])
      invariant Unvisited(wasm[8..]) == Unvisited(wasm[offset..])
      decreases |wasm| - offset
    {
      ghost var start := offset;
      if offset + 1 >= |wasm| {
        ScanEnd(wasm[offset..]);
        assert visits + [] == visits;
        return Ok(metadata);
      }
      ScanAt(wasm, offset);
      UnvisitedAt(wasm, offset);
      var sectionType := wasm[offset];
      offset := offset + 1;
      DecodeIsInt64(wasm[offset..]);
      assert wasm[start..][1..] == wasm[offset..];
      var sectionSize, bytesRead := DecodeLEB128(wasm[offset..]);
      offset := offset + bytesRead;
      if sectionSize >= 0 {
        BoundsTest(offset, sectionSize, |wasm|);
      }
      if sectionSize < 0 || AddInt64(offset, sectionSize) > |wasm| {
        assert visits + [] == visits;
        return Ok(metadata);
      }
      if AddInt64(offset, sectionSize) < offset {
        return Err("slice bounds out of range");
      }
      var sectionData := wasm[offset..AddInt64(offset, sectionSize)];
      offset := offset + sectionSize;
      var v := Visit(sectionType, sectionData);
      assert visits + ([v] + Scan(wasm[offset..])) == visits + [v] + Scan(wasm[offset..]);
      metadata := RecordSection(metadata, v, visits);
      visits := visits + [v];
    }
    ScanEnd(wasm[offset..]);
    assert visits + [] == visits;
    return Ok(metadata);
  }

  lemma MagicBytes(wasm: seq<Byte>)
    ensures HasMagic(wasm) <==> |wasm| >= 8 && wasm[..4] == [0x00, 0x61, 0x73, 0x6D]
  {
    if |wasm| >= 8 {
      assert wasm[..4] == [wasm[0], wasm[1], wasm[2], wasm[3]];
    }
  }

  lemma EmptySummary()
    ensures EMPTY == Summary([])
  {
  }

  // Well-formed modules (WebAssembly Core Specification, sections 5.2.2 and 5.5.2).

  /** A section as encoded: id, unsigned LEB128 size, that many bytes. */
  datatype Section = Section(id: Byte, size: seq<Byte>, body: seq<Byte>)

  ghost predicate ValidSection(s: Section) {
    IsUnsigned(s.size, |s.body|)
  }

  function Encode(sections: seq<Section>): seq<Byte> {
    if sections == [] then [] else
      [sections[0].id] + sections[0].size + sections[0].body + Encode(sections[1..])
  }

  function VisitsOf(sections: seq<Section>): seq<Visit> {
    if sections == [] then [] else [Visit(sections[0].id, sections[0].body)] + VisitsOf(sections[1..])
  }

  /** The size's top 7-bit group is below 64, so the signed decoder reads it right. */
  predicate SizeReadsRight(s: Section) {
    s.size != [] && s.size[|s.size| - 1] < 64
  }

  /** The sections before the first whose size the signed decoder reads as negative. */
  function ReadablePrefix(sections: seq<Section>): seq<Section> {
    if sections == [] || !SizeReadsRight(sections[0]) then [] else
      [sections[0]] + ReadablePrefix(sections[1..])
  }

  lemma SizeDecodes(s: Section, suffix: seq<Byte>)
    requires ValidSection(s)
    ensures SizeReadsRight(s) ==> Decode(s.size + suffix) == (|s.body|, |s.size|)
    ensures !SizeReadsRight(s) ==> Decode(s.size + suffix).0 < 0
  {
    UnsignedReading(s.size, |s.body|, suffix);
    TopGroupIsTopBit(s.size, |s.size|);
  }

  /** On every well-formed section sequence the scan visits exactly the sections of the readable prefix. */
  lemma {:induction false} ScanVisitsReadablePrefix(sections: seq<Section>)
    requires forall s | s in sections :: ValidSection(s)
    ensures Scan(Encode(sections)) == VisitsOf(ReadablePrefix(sections))
  {
    if sections != [] {
      var s, tail := sections[0], Encode(sections[1..]);
      var rest := Encode(sections);
      assert rest[1..] == s.size + (s.body + tail);
      SizeDecodes(s, s.body + tail);
      if SizeReadsRight(s) {
        var n := |s.size|;
        assert rest[1 + n..1 + n + |s.body|] == s.body;
        assert rest[1 + n + |s.body|..] == tail;
        ScanVisitsReadablePrefix(sections[1..]);
      }
    }
  }

  lemma {:induction false} StopsWithoutOverrun(sections: seq<Section>)
    requires forall s | s in sections :: ValidSection(s)
    ensures var rest := Unvisited(Encode(sections)); |rest| < 2 || Decode(rest[1..]).0 < 0
  {
    if sections != [] {
      var s, tail := sections[0], Encode(sections[1..]);
      var rest := Encode(sections);
      assert rest[1..] == s.size + (s.body + tail);
      SizeDecodes(s, s.body + tail);
      if SizeReadsRight(s) {
        assert rest[1 + |s.size| + |s.body|..] == tail;
        StopsWithoutOverrun(sections[1..]);
      }
    }
  }

  lemma {:induction false} VisitsOfPrefix(sections: seq<Section>)
    ensures |VisitsOf(sections)| == |sections|
    ensures |ReadablePrefix(sections)| <= |sections|
    ensures ReadablePrefix(sections) == sections <==> forall s | s in sections :: SizeReadsRight(s)
    ensures |ReadablePrefix(sections)| == |sections| ==> ReadablePrefix(sections) == sections
  {
    if sections != [] {
      VisitsOfPrefix(sections[1..]);
      assert sections == [sections[0]] + sections[1..];
    }
  }

  lemma {:induction false} VisitsOfLength(sections: seq<Section>)
    ensures |VisitsOf(sections)| == |sections|
  {
    if sections != [] {
      VisitsOfLength(sections[1..]);
    }
  }

  /** A well-formed module: magic, any version, sections. */
  function Module(version: seq<Byte>, sections: seq<Section>): seq<Byte> {
    [0x00, 0x61, 0x73, 0x6D] + version + Encode(sections)
  }

  /**
   Exactly when every section of a well-formed module is visited: each size encoding ends in a
   7-bit group below 64. The metadata is then the summary of all sections; in general it is the
   summary of those before the first size that is misread.
   */
  lemma AllSectionsVisited(version: seq<Byte>, sections: seq<Section>)
    requires |version| == 4 && forall s | s in sections :: ValidSection(s)
    ensures Visited(Module(version, sections)) == VisitsOf(ReadablePrefix(sections))
    ensures Visited(Module(version, sections)) == VisitsOf(sections) <==> forall s | s in sections :: SizeReadsRight(s)
  {
    hide Scan, Encode, ReadablePrefix, VisitsOf, Decode;
    assert Module(version, sections)[8..] == Encode(sections);
    ScanVisitsReadablePrefix(sections);
    VisitsOfPrefix(sections);
    VisitsOfLength(ReadablePrefix(sections));
  }

  /** On a well-formed module the scan never leaves the bounds, misread sizes or not. */
  lemma WellFormedStaysInBounds(version: seq<Byte>, sections: seq<Section>)
    requires |version| == 4 && |Module(version, sections)| < TWO63 && forall s | s in sections :: ValidSection(s)
    ensures !Overruns(Module(version, sections))
  {
    hide Unvisited, Encode, Decode;
    var w := Module(version, sections);
    assert w[8..] == Encode(sections);
    StopsWithoutOverrun(sections);
  }

  /** A size of 2^63 - 1 does leave them: the sum wraps, so the test passes and the slice does not exist. */
  lemma HugeSizeOverruns(version: seq<Byte>, id: Byte, tail: seq<Byte>)
    requires |version| == 4 && |tail| < TWO63 - 1
    ensures Overruns([0x00, 0x61, 0x73, 0x6D] + version + ([id] + EncodeSigned(TWO63 - 1) + tail))
  {
    hide Decode, EncodeSigned;
    var e, rest := EncodeSigned(TWO63 - 1), [id] + EncodeSigned(TWO63 - 1) + tail;
    var w: seq<Byte> := [0x00, 0x61, 0x73, 0x6D] + version + rest;
    SignedRoundTrip(TWO63 - 1, tail);
    assert rest[1..] == e + tail && w[8..] == rest;
  }

  /** A section's declared count is reported exactly when its own top group is below 64, else it comes out negative. */
  lemma CountReadsUnsigned(e: seq<Byte>, n: nat, items: seq<Byte>)
    requires IsUnsigned(e, n)
    ensures Count(e + items) == n <==> e[|e| - 1] < 64
    ensures Count(e + items) < 0 <==> e[|e| - 1] >= 64
  {
    hide Decode, Pow2, Groups, Weight;
    UnsignedReading(e, n, items);
    TopGroupIsTopBit(e, |e|);
  }

  // What the metadata says of a well-formed module.

  lemma {:induction false} VisitsOfAt(sections: seq<Section>, i: nat)
    requires i < |sections|
    ensures |VisitsOf(sections)| == |sections| && VisitsOf(sections)[i] == Visit(sections[i].id, sections[i].body)
  {
    VisitsOfLength(sections);
    if i > 0 {
      VisitsOfAt(sections[1..], i - 1);
    }
  }

  lemma {:induction false} LastBodyAt(visits: seq<Visit>, id: Byte, counted: bool, i: nat)
    requires i < |visits| && visits[i].id == id && Accepts(counted, visits[i].body)
    requires forall j | i < j < |visits| :: visits[j].id != id
    ensures LastBody(visits, id, counted) == Some(visits[i].body)
  {
    if i < |visits| - 1 {
      LastBodyAt(visits[..|visits| - 1], id, counted, i);
    }
  }

  /** Section `i` is the last of its id. */
  ghost predicate IsLast(sections: seq<Section>, i: nat)
    requires i < |sections|
  {
    forall j | i < j < |sections| :: sections[j].id != sections[i].id
  }

  lemma LastSectionSeen(sections: seq<Section>, i: nat, counted: bool)
    requires i < |sections| && IsLast(sections, i) && Accepts(counted, sections[i].body)
    ensures LastBody(VisitsOf(sections), sections[i].id, counted) == Some(sections[i].body)
  {
    var visits := VisitsOf(sections);
    forall j | i <= j < |sections| ensures |visits| == |sections| && visits[j] == Visit(sections[j].id, sections[j].body) {
      VisitsOfAt(sections, j);
    }
    LastBodyAt(visits, sections[i].id, counted, i);
  }

  const COUNTED: set<Byte> := {1, 2, 3, 4, 6, 7, 9, 11}

  /** The metadata's count for a section id. */
  function CountField(m: WASMMetadata, id: Byte): Option<int>
    requires id in COUNTED
  {
    match id
    case 1 => m.nTypes
    case 2 => m.nImports
    case 3 => m.nFunctions
    case 4 => m.nTableEntries
    case 6 => m.nGlobals
    case 7 => m.nExports
    case 9 => m.nElemSegments
    case _ => m.nDataSegments
  }

  lemma {:induction false} LastBodyAbsent(visits: seq<Visit>, id: Byte, counted: bool)
    ensures LastBody(visits, id, counted) == None <==>
            forall v | v in visits :: v.id != id || (counted && Count(v.body) <= 0)
  {
    hide Count;
    if visits != [] {
      LastBodyAbsent(visits[..|visits| - 1], id, counted);
      assert visits == visits[..|visits| - 1] + [visits[|visits| - 1]];
    }
  }

  /** A field is absent if and only if no visited section could fill it. */
  lemma FieldsAbsent(visits: seq<Visit>, id: Byte)
    ensures id in COUNTED ==> (CountField(Summary(visits), id) == None <==> forall v | v in visits :: v.id != id)
    ensures Summary(visits).nDataSegmentBytes == None <==> forall v | v in visits :: v.id != 11
    ensures Summary(visits).nInstructions == None <==> forall v | v in visits :: v.id != 10 || Count(v.body) <= 0
  {
    hide LastBody, Count;
    LastBodyAbsent(visits, id, false);
    LastBodyAbsent(visits, 11, false);
    LastBodyAbsent(visits, 10, true);
  }

  /**
   For every module whose size encodings read right, and the last section of each id: its field
   holds the number of elements the section declares if and only if the declaration's top group
   is below 64; a data section's byte length is that of its body. The code section's has its own
   lemma.
   */
  lemma MetadataReportsLastSections(version: seq<Byte>, sections: seq<Section>, i: nat, e: seq<Byte>, n: nat, items: seq<Byte>)
    requires |version| == 4 && (forall s | s in sections :: ValidSection(s) && SizeReadsRight(s))
    requires i < |sections| && IsLast(sections, i)
    requires sections[i].body == e + items && IsUnsigned(e, n)
    ensures var m, id := Summary(Visited(Module(version, sections))), sections[i].id;
            && (id in COUNTED ==> (CountField(m, id) == Some(n) <==> e[|e| - 1] < 64))
            && (id == 11 ==> m.nDataSegmentBytes == Some(|sections[i].body|))
  {
    hide Visited, Module, VisitsOf, IsUnsigned, IsLast, Decode;
    AllSectionsVisited(version, sections);
    CountReadsUnsigned(e, n, items);
    LastSectionSeen(sections, i, false);
  }

  /** What the test rejects, or another id, leaves the earlier answer standing. */
  lemma {:induction false} LastBodyBefore(visits: seq<Visit>, id: Byte, counted: bool, i: nat)
    requires i <= |visits| && forall j | i <= j < |visits| :: visits[j].id != id || !Accepts(counted, visits[j].body)
    ensures LastBody(visits, id, counted) == LastBody(visits[..i], id, counted)
    decreases |visits|
  {
    if i == |visits| {
      assert visits[..i] == visits;
    } else {
      LastBodyBefore(visits[..|visits| - 1], id, counted, i);
      assert visits[..|visits| - 1][..i] == visits[..i];
    }
  }

  lemma VisitsOfTake(sections: seq<Section>, i: nat)
    requires i <= |sections|
    ensures |VisitsOf(sections)| == |sections| && VisitsOf(sections)[..i] == VisitsOf(sections[..i])
    ensures forall j | 0 <= j < |sections| :: VisitsOf(sections)[j] == Visit(sections[j].id, sections[j].body)
  {
    VisitsOfLength(sections);
    VisitsOfLength(sections[..i]);
    forall j | 0 <= j < |sections| ensures VisitsOf(sections)[j] == Visit(sections[j].id, sections[j].body) {
      VisitsOfAt(sections, j);
    }
    forall j | 0 <= j < i ensures VisitsOf(sections[..i])[j] == VisitsOf(sections)[j] {
      VisitsOfAt(sections[..i], j);
    }
  }

  /**
   The code section's byte length, for every module whose size encodings read right: the last code
   section's when it declares a positive number of functions in an encoding whose top group is
   below 64, and else whatever the sections before it gave; with one code section, nothing.
   */
  lemma CodeLengthExactly(version: seq<Byte>, sections: seq<Section>, i: nat, e: seq<Byte>, n: nat, items: seq<Byte>)
    requires |version| == 4 && (forall s | s in sections :: ValidSection(s) && SizeReadsRight(s))
    requires i < |sections| && IsLast(sections, i) && sections[i].id == 10
    requires sections[i].body == e + items && IsUnsigned(e, n)
    ensures Summary(Visited(Module(version, sections))).nInstructions ==
            if n > 0 && e[|e| - 1] < 64 then Some(|sections[i].body|)
            else Summary(Visited(Module(version, sections[..i]))).nInstructions
    ensures (forall j | 0 <= j < i :: sections[j].id != 10) ==>
            Summary(Visited(Module(version, sections))).nInstructions ==
            if n > 0 && e[|e| - 1] < 64 then Some(|sections[i].body|) else None
  {
    hide Visited, Module, VisitsOf, IsUnsigned, Decode, Count, LastBody;
    AllSectionsVisited(version, sections);
    AllSectionsVisited(version, sections[..i]);
    CountReadsUnsigned(e, n, items);
    CodeLength(sections, i);
    if forall j | 0 <= j < i :: sections[j].id != 10 {
      NoCodeNoLength(sections[..i]);
    }
  }

  lemma {:induction false} CodeLength(sections: seq<Section>, i: nat)
    requires i < |sections| && IsLast(sections, i) && sections[i].id == 10
    ensures Summary(VisitsOf(sections)).nInstructions ==
            if Count(sections[i].body) > 0 then Some(|sections[i].body|)
            else Summary(VisitsOf(sections[..i])).nInstructions
  {
    hide VisitsOf, Count, LastBody;
    if Count(sections[i].body) > 0 {
      LastSectionSeen(sections, i, true);
    } else {
      VisitsOfTake(sections, i);
      LastBodyBefore(VisitsOf(sections), 10, true, i);
    }
  }

  lemma NoCodeNoLength(sections: seq<Section>)
    requires forall s | s in sections :: s.id != 10
    ensures Summary(VisitsOf(sections)).nInstructions == None
  {
    hide VisitsOf, Count;
    VisitsOfTake(sections, 0);
    LastBodyBefore(VisitsOf(sections), 10, true, 0);
  }

  /** A module whose one code section declares 64 functions reports no code length. */
  lemma SixtyFourFunctionsUnreported(version: seq<Byte>, size: seq<Byte>, items: seq<Byte>)
    requires |version| == 4 && IsUnsigned(size, 1 + |items|) && size[|size| - 1] < 64
    ensures Summary(Visited(Module(version, [Section(10, size, [64] + items)]))).nInstructions == None
  {
    hide Summary, Visited, Module;
    SixtyFourIsMisread();
    assert EncodeUnsigned(64) == [64];
    CodeLengthExactly(version, [Section(10, size, [64] + items)], 0, [64], 64, items);
  }
}
