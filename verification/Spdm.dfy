/**
 The opaque fields of an SPDM measurement report (section 10.11 of DMTF DSP0274
 version 1.1): a measurement record, a nonce, a length-prefixed list of typed
 values, a signature.

 Source: tinfoil/boot/topology.go, parseSPDMOpaqueFields.
 */
module Spdm {
  import opened Bytes
  import opened Options

  const REQUEST_LENGTH: nat := 37
  const HEADER_LENGTH: nat := 8
  const NONCE_LENGTH: nat := 32

  type Fields = map<nat, seq<Byte>>
  datatype Parsed = Ok(fields: Fields) | TooShort | NoOpaqueLength | OpaqueTruncated | FieldOverflow

  // ---------- The layout ----------

  datatype Field = Field(kind: nat, value: seq<Byte>)

  predicate ValidField(field: Field) {
    field.kind < 0x1_0000 && |field.value| < 0x1_0000
  }

  function EncodeField(field: Field): seq<Byte> {
    ToLe(field.kind, 2) + ToLe(|field.value|, 2) + field.value
  }

  function EncodeFields(fields: seq<Field>): seq<Byte> {
    if fields == [] then [] else EncodeField(fields[0]) + EncodeFields(fields[1..])
  }

  /** The last value of each kind. */
  function LastValues(fields: seq<Field>): Fields {
    if fields == [] then map[]
    else LastValues(fields[..|fields| - 1])[fields[|fields| - 1].kind := fields[|fields| - 1].value]
  }

  ghost predicate IsLastOfKind(fields: seq<Field>, k: int) {
    0 <= k < |fields| && forall j :: k < j < |fields| ==> fields[j].kind != fields[k].kind
  }

  /** Of several values of a kind the last one counts. */
  lemma {:induction false} LastValuesAreLast(fields: seq<Field>, kind: nat, value: seq<Byte>)
    ensures (kind in LastValues(fields) && LastValues(fields)[kind] == value) <==>
              exists k :: IsLastOfKind(fields, k) && fields[k] == Field(kind, value)
  {
    if fields != [] {
      var last := |fields| - 1;
      var front := fields[..last];
      LastValuesAreLast(front, kind, value);
      if fields[last].kind == kind {
        assert IsLastOfKind(fields, last);
      } else {
        forall k
          ensures IsLastOfKind(fields, k) && fields[k] == Field(kind, value) <==> IsLastOfKind(front, k) && front[k] == Field(kind, value)
        {
          StaysLast(fields, k, kind);
        }
        if exists k :: IsLastOfKind(front, k) && front[k] == Field(kind, value) {
          var k :| IsLastOfKind(front, k) && front[k] == Field(kind, value);
          assert IsLastOfKind(fields, k) && fields[k] == Field(kind, value);
        }
      }
    }
  }

  lemma StaysLast(fields: seq<Field>, k: int, kind: nat)
    requires fields != [] && fields[|fields| - 1].kind != kind
    ensures IsLastOfKind(fields, k) && fields[k].kind == kind <==>
            IsLastOfKind(fields[..|fields| - 1], k) && fields[..|fields| - 1][k].kind == kind
  {
    var front := fields[..|fields| - 1];
    assert forall j :: 0 <= j < |front| ==> front[j] == fields[j];
  }

  // head: the request and the first five bytes of the response. padding: opaque
  // bytes after the last field, too few to hold another.
  datatype Report = Report(
    head: seq<Byte>, record: seq<Byte>, nonce: seq<Byte>, fields: seq<Field>, padding: seq<Byte>, signature: seq<Byte>)

  function Opaque(report: Report): seq<Byte> { EncodeFields(report.fields) + report.padding }

  predicate ValidReport(report: Report) {
    && |report.head| == 37 + 5
    && |report.record| < 0x100_0000
    && |report.nonce| == 32
    && (forall field :: field in report.fields ==> ValidField(field))
    && |report.padding| < 4
    && |Opaque(report)| < 0x1_0000
  }

  function Layout(report: Report): seq<Byte> {
    report.head + ToLe(|report.record|, 3) + report.record + report.nonce
    + ToLe(|Opaque(report)|, 2) + Opaque(report) + report.signature
  }

  // ---------- The parser ----------

  /** Reads fields as long as four bytes are left; None when a value overruns. */
  function ScanFields(data: seq<Byte>): Option<seq<Field>>
    decreases |data|
  {
    if |data| < 4 then Some([])
    else
      var size := FromLe(data[2..4]);
      if 4 + size > |data| then None
      else
        var rest := ScanFields(data[4 + size..]);
        if rest.None? then None
        else Some([Field(FromLe(data[..2]), data[4..4 + size])] + rest.value)
  }

  function RecordLength(bytes: seq<Byte>): nat
    requires |bytes| > REQUEST_LENGTH + HEADER_LENGTH
  {
    FromLe(bytes[REQUEST_LENGTH + 5..REQUEST_LENGTH + 8])
  }

  function OpaqueLengthAt(bytes: seq<Byte>): nat
    requires |bytes| > REQUEST_LENGTH + HEADER_LENGTH
  {
    REQUEST_LENGTH + HEADER_LENGTH + RecordLength(bytes) + NONCE_LENGTH
  }

  function Parse(bytes: seq<Byte>): Parsed {
    if |bytes| <= REQUEST_LENGTH + HEADER_LENGTH then TooShort
    else
      var at := OpaqueLengthAt(bytes);
      if at + 2 > |bytes| then NoOpaqueLength
      else
        var length := FromLe(bytes[at..at + 2]);
        if |bytes| - (at + 2) < length then OpaqueTruncated
        else
          var fields := ScanFields(bytes[at + 2..at + 2 + length]);
          if fields.None? then FieldOverflow else Ok(LastValues(fields.value))
  }

  function Prepend(read: seq<Field>, rest: Option<seq<Field>>): Option<seq<Field>> {
    if rest.None? then None else Some(read + rest.value)
  }

  // One entry of the scan, at an offset.
  lemma ScanStep(data: seq<Byte>, offset: nat)
    requires offset + 4 <= |data|
    ensures var size := FromLe(data[offset + 2..offset + 4]);
            ScanFields(data[offset..]) ==
            if offset + 4 + size > |data| then None
            else Prepend([Field(FromLe(data[offset..offset + 2]), data[offset + 4..offset + 4 + size])],
                         ScanFields(data[offset + 4 + size..]))
  {
    var rest := data[offset..];
    assert rest[..2] == data[offset..offset + 2] && rest[2..4] == data[offset + 2..offset + 4];
    var size := FromLe(rest[2..4]);
    if offset + 4 + size <= |data| {
      assert rest[4..4 + size] == data[offset + 4..offset + 4 + size];
      assert rest[4 + size..] == data[offset + 4 + size..];
    }
  }

  lemma PrependTwice(read: seq<Field>, field: Field, rest: Option<seq<Field>>)
    ensures Prepend(read, Prepend([field], rest)) == Prepend(read + [field], rest)
  {
    if rest.Some? {
      assert read + ([field] + rest.value) == (read + [field]) + rest.value;
    }
  }

  /** The scan of the opaque data: an offset that advances over the entries and a
      map that later entries overwrite. */
  method ScanOpaque(data: seq<Byte>) returns (result: Option<Fields>)
    ensures result == if ScanFields(data).None? then None else Some(LastValues(ScanFields(data).value))
  {
    var fields: Fields := map[];
    var offset := 0;
    ghost var read: seq<Field> := [];
    assert data[0..] == data;
    assert ScanFields(data).Some? ==> [] + ScanFields(data).value == ScanFields(data).value;
    while offset + 4 <= |data|
      invariant 0 <= offset <= |data|
      invariant fields == LastValues(read)
      invariant ScanFields(data) == Prepend(read, ScanFields(data[offset..]))
      decreases |data| - offset
    {
      ScanStep(data, offset);
      var kind := FromLe(data[offset..offset + 2]);
      var size := FromLe(data[offset + 2..offset + 4]);
      offset := offset + 4;
      if offset + size > |data| {
        return None;
      }
      fields := fields[kind := data[offset..offset + size]];
      ghost var field := Field(kind, data[offset..offset + size]);
      assert (read + [field])[..|read + [field]| - 1] == read;
      offset := offset + size;
      PrependTwice(read, field, ScanFields(data[offset..]));
      read := read + [field];
    }
    assert read + [] == read;
    return Some(fields);
  }

  /** parseSPDMOpaqueFields. */
  method ParseSpdmOpaqueFields(report: seq<Byte>) returns (result: Parsed)
    ensures result == Parse(report)
  {
    if |report| <= REQUEST_LENGTH + HEADER_LENGTH {
      return TooShort;
    }
    var response := report[REQUEST_LENGTH..];
    var measurements := FromLe(response[5..8]);
    var opaqueLengthAt := HEADER_LENGTH + measurements + NONCE_LENGTH;
    assert response[5..8] == report[REQUEST_LENGTH + 5..REQUEST_LENGTH + 8];
    if opaqueLengthAt + 2 > |response| {
      return NoOpaqueLength;
    }
    var opaqueLength := FromLe(response[opaqueLengthAt..opaqueLengthAt + 2]);
    assert response[opaqueLengthAt..opaqueLengthAt + 2]
        == report[OpaqueLengthAt(report)..OpaqueLengthAt(report) + 2];
    var data := response[opaqueLengthAt + 2..];
    if |data| < opaqueLength {
      return OpaqueTruncated;
    }
    data := data[..opaqueLength];
    assert data == report[OpaqueLengthAt(report) + 2..OpaqueLengthAt(report) + 2 + opaqueLength];
    var fields := ScanOpaque(data);
    if fields.None? {
      return FieldOverflow;
    }
    return Ok(fields.value);
  }

  // ---------- The parser inverts the layout ----------

  lemma ScanOne(field: Field, rest: seq<Byte>)
    requires ValidField(field)
    ensures ScanFields(EncodeField(field) + rest) == Prepend([field], ScanFields(rest))
  {
    var data := EncodeField(field) + rest;
    assert data[0..] == data;
    assert data[0..2] == ToLe(field.kind, 2);
    assert data[2..4] == ToLe(|field.value|, 2);
    TwoBytes(field.kind);
    TwoBytes(|field.value|);
    assert data[4..4 + |field.value|] == field.value;
    assert data[4 + |field.value|..] == rest;
    ScanStep(data, 0);
  }

  lemma {:induction false} ScanInvertsEncode(fields: seq<Field>, padding: seq<Byte>)
    requires forall field :: field in fields ==> ValidField(field)
    requires |padding| < 4
    ensures ScanFields(EncodeFields(fields) + padding) == Some(fields)
  {
    if fields == [] {
      assert EncodeFields(fields) + padding == padding;
    } else {
      var rest := EncodeFields(fields[1..]) + padding;
      assert EncodeFields(fields) + padding == EncodeField(fields[0]) + rest;
      ScanInvertsEncode(fields[1..], padding);
      ScanOne(fields[0], rest);
      assert fields == [fields[0]] + fields[1..];
    }
  }

  lemma TwoBytes(n: nat)
    requires n < 0x1_0000
    ensures FromLe(ToLe(n, 2)) == n
  {
    assert Pow256(2) == 0x1_0000;
    FromToLe(n, 2);
  }

  lemma ThreeBytes(n: nat)
    requires n < 0x100_0000
    ensures FromLe(ToLe(n, 3)) == n
  {
    assert Pow256(3) == 0x100_0000;
    FromToLe(n, 3);
  }

  lemma Middle(before: seq<Byte>, middle: seq<Byte>, after: seq<Byte>)
    ensures (before + middle + after)[|before|..|before| + |middle|] == middle
    ensures |before + middle + after| == |before| + |middle| + |after|
  {
  }

  lemma LayoutSlices(report: Report)
    requires ValidReport(report)
    ensures var bytes := Layout(report);
            && |bytes| > REQUEST_LENGTH + HEADER_LENGTH
            && bytes[REQUEST_LENGTH + 5..REQUEST_LENGTH + 8] == ToLe(|report.record|, 3)
  {
    var bytes := Layout(report);
    var rest := report.record + report.nonce + ToLe(|Opaque(report)|, 2) + Opaque(report) + report.signature;
    Middle(report.head, ToLe(|report.record|, 3), rest);
    assert bytes == report.head + ToLe(|report.record|, 3) + rest;
  }

  lemma OpaqueSlices(report: Report)
    requires ValidReport(report)
    ensures var bytes := Layout(report);
            var at := REQUEST_LENGTH + HEADER_LENGTH + |report.record| + NONCE_LENGTH;
            && at + 2 + |Opaque(report)| <= |bytes|
            && bytes[at..at + 2] == ToLe(|Opaque(report)|, 2)
            && bytes[at + 2..at + 2 + |Opaque(report)|] == Opaque(report)
  {
    var bytes := Layout(report);
    var before := report.head + ToLe(|report.record|, 3) + report.record + report.nonce;
    var length, data := ToLe(|Opaque(report)|, 2), Opaque(report);
    Middle(before, length, data + report.signature);
    assert bytes == before + length + (data + report.signature);
    Middle(before + length, data, report.signature);
    assert bytes == (before + length) + data + report.signature;
  }

  /** Every well-formed report parses, to the last value of each kind. */
  lemma ParseInvertsLayout(report: Report)
    requires ValidReport(report)
    ensures Parse(Layout(report)) == Ok(LastValues(report.fields))
  {
    ThreeBytes(|report.record|);
    TwoBytes(|Opaque(report)|);
    LayoutSlices(report);
    OpaqueSlices(report);
    ScanInvertsEncode(report.fields, report.padding);
  }

  lemma ReadBack(bytes: seq<Byte>)
    requires |bytes| == 2 || |bytes| == 3
    ensures FromLe(bytes) < if |bytes| == 2 then 0x1_0000 else 0x100_0000
    ensures ToLe(FromLe(bytes), |bytes|) == bytes
  {
    assert Pow256(2) == 0x1_0000;
    assert Pow256(3) == 0x100_0000;
    ToFromLe(bytes);
  }

  // The entry at the front of opaque data is the encoding of the field read from it.
  lemma FieldAtFront(data: seq<Byte>)
    requires |data| >= 4 && 4 + FromLe(data[2..4]) <= |data|
    ensures var size := FromLe(data[2..4]);
            var field := Field(FromLe(data[..2]), data[4..4 + size]);
            && ValidField(field)
            && data == EncodeField(field) + data[4 + size..]
  {
    ReadBack(data[..2]);
    ReadBack(data[2..4]);
  }

  lemma {:induction false} ScanDecomposes(data: seq<Byte>) returns (padding: seq<Byte>)
    requires ScanFields(data).Some?
    ensures |padding| < 4
    ensures forall field :: field in ScanFields(data).value ==> ValidField(field)
    ensures data == EncodeFields(ScanFields(data).value) + padding
    decreases |data|
  {
    if |data| < 4 {
      padding := data;
    } else {
      var size := FromLe(data[2..4]);
      var rest := data[4 + size..];
      padding := ScanDecomposes(rest);
      FieldAtFront(data);
      var field, fields := Field(FromLe(data[..2]), data[4..4 + size]), ScanFields(rest).value;
      assert ScanFields(data).value == [field] + fields;
      assert ([field] + fields)[1..] == fields;
      assert EncodeField(field) + (EncodeFields(fields) + padding) == EncodeFields([field] + fields) + padding;
    }
  }

  // A sequence is its six cuts put together.
  lemma Cuts(bytes: seq<Byte>, a: nat, b: nat, c: nat, d: nat, e: nat, f: nat)
    requires a <= b <= c <= d <= e <= f <= |bytes|
    ensures bytes == bytes[..a] + bytes[a..b] + bytes[b..c] + bytes[c..d] + bytes[d..e] + bytes[e..f] + bytes[f..]
  {
    assert bytes[..a] + bytes[a..b] == bytes[..b];
    assert bytes[..b] + bytes[b..c] == bytes[..c];
    assert bytes[..c] + bytes[c..d] == bytes[..d];
    assert bytes[..d] + bytes[d..e] == bytes[..e];
    assert bytes[..e] + bytes[e..f] == bytes[..f];
    assert bytes[..f] + bytes[f..] == bytes;
  }

  // The report read from a byte sequence that parses.
  function Reading(bytes: seq<Byte>, padding: seq<Byte>): Report
    requires Parse(bytes).Ok?
  {
    var start, at := REQUEST_LENGTH + HEADER_LENGTH, OpaqueLengthAt(bytes);
    var length := FromLe(bytes[at..at + 2]);
    Report(
      bytes[..start - 3], bytes[start..at - NONCE_LENGTH], bytes[at - NONCE_LENGTH..at],
      ScanFields(bytes[at + 2..at + 2 + length]).value, padding, bytes[at + 2 + length..])
  }

  lemma ReadingLaysOut(bytes: seq<Byte>, padding: seq<Byte>)
    requires Parse(bytes).Ok?
    requires var at := OpaqueLengthAt(bytes);
             Opaque(Reading(bytes, padding)) == bytes[at + 2..at + 2 + FromLe(bytes[at..at + 2])]
    ensures Layout(Reading(bytes, padding)) == bytes
  {
    var start, at := REQUEST_LENGTH + HEADER_LENGTH, OpaqueLengthAt(bytes);
    var length := FromLe(bytes[at..at + 2]);
    ReadBack(bytes[at..at + 2]);
    ReadBack(bytes[start - 3..start]);
    Cuts(bytes, start - 3, start, at - NONCE_LENGTH, at, at + 2, at + 2 + length);
    var report := Reading(bytes, padding);
    assert ToLe(|report.record|, 3) == bytes[start - 3..start];
    assert ToLe(|Opaque(report)|, 2) == bytes[at..at + 2];
  }

  /** Every report that parses is a well-formed one, with fewer than four opaque
      bytes after its last field. */
  lemma OnlyLayoutsParse(bytes: seq<Byte>) returns (report: Report)
    requires Parse(bytes).Ok?
    ensures ValidReport(report)
    ensures bytes == Layout(report)
    ensures Parse(bytes).fields == LastValues(report.fields)
  {
    var start, at := REQUEST_LENGTH + HEADER_LENGTH, OpaqueLengthAt(bytes);
    ReadBack(bytes[at..at + 2]);
    ReadBack(bytes[start - 3..start]);
    var padding := ScanDecomposes(bytes[at + 2..at + 2 + FromLe(bytes[at..at + 2])]);
    report := Reading(bytes, padding);
    ReadingLaysOut(bytes, padding);
  }
}
