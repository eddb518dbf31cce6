/**
 The fabric check: GPU and switch reports must describe one full mesh.

 Source: tinfoil/boot/topology.go, readFieldAsLittleEndian, parsePDISet,
 setsEqual and validateTopology.
 */
module Topology {
  import opened Bytes
  import opened Options
  import opened Sequences
  import opened Spdm

  const PDI_SIZE: nat := 8
  const FIELD_PDI: nat := 22
  const FIELD_GPU_PDIS: nat := 26

  type Pdi = string

  // ---------- Identifiers ----------

  function HexDigit(v: nat): char
    requires v < 16
  {
    if v < 10 then '0' + v as char else 'a' + (v - 10) as char
  }

  function Hex(bytes: seq<Byte>): (text: string)
    ensures |text| == 2 * |bytes|
  {
    if bytes == [] then ""
    else [HexDigit(bytes[0] / 16), HexDigit(bytes[0] % 16)] + Hex(bytes[1..])
  }

  function Reversed(bytes: seq<Byte>): (r: seq<Byte>)
    ensures |r| == |bytes|
  {
    if bytes == [] then [] else Reversed(bytes[1..]) + [bytes[0]]
  }

  lemma {:induction false} ReversedAt(bytes: seq<Byte>, i: nat)
    requires i < |bytes|
    ensures Reversed(bytes)[|bytes| - 1 - i] == bytes[i]
  {
    if i > 0 {
      ReversedAt(bytes[1..], i - 1);
    }
  }

  predicate AllZero(bytes: seq<Byte>) {
    forall i :: 0 <= i < |bytes| ==> bytes[i] == 0
  }

  predicate ZeroText(text: string) {
    forall i :: 0 <= i < |text| ==> text[i] == '0'
  }

  lemma ZeroTextCons(a: char, b: char, rest: string)
    ensures ZeroText([a, b] + rest) <==> a == '0' && b == '0' && ZeroText(rest)
  {
    var text := [a, b] + rest;
    if ZeroText(text) {
      assert text[0] == a && text[1] == b;
      assert forall i :: 0 <= i < |rest| ==> rest[i] == text[i + 2];
    }
  }

  lemma AllZeroCons(first: Byte, rest: seq<Byte>)
    ensures AllZero([first] + rest) <==> first == 0 && AllZero(rest)
  {
    var bytes := [first] + rest;
    if AllZero(bytes) {
      assert bytes[0] == first;
      assert forall i :: 0 <= i < |rest| ==> rest[i] == bytes[i + 1];
    }
  }

  lemma {:induction false} HexOfZeros(bytes: seq<Byte>)
    ensures ZeroText(Hex(bytes)) <==> AllZero(bytes)
  {
    if bytes != [] {
      HexOfZeros(bytes[1..]);
      ZeroTextCons(HexDigit(bytes[0] / 16), HexDigit(bytes[0] % 16), Hex(bytes[1..]));
      AllZeroCons(bytes[0], bytes[1..]);
      assert bytes == [bytes[0]] + bytes[1..];
    }
  }

  lemma {:induction false} HexIsInjective(a: seq<Byte>, b: seq<Byte>)
    requires Hex(a) == Hex(b)
    ensures a == b
  {
    assert |a| == |b|;
    if a != [] {
      assert Hex(a)[0] == Hex(b)[0] && Hex(a)[1] == Hex(b)[1];
      assert Hex(a)[2..] == Hex(a[1..]) && Hex(b)[2..] == Hex(b[1..]);
      DigitIsInjective(a[0] / 16, b[0] / 16);
      DigitIsInjective(a[0] % 16, b[0] % 16);
      HexIsInjective(a[1..], b[1..]);
      assert a == [a[0]] + a[1..] && b == [b[0]] + b[1..];
    }
  }

  lemma DigitIsInjective(v: nat, w: nat)
    requires v < 16 && w < 16 && HexDigit(v) == HexDigit(w)
    ensures v == w
  {
  }

  const ZERO_PDI: Pdi := "0000000000000000"

  lemma ZeroPdi(bytes: seq<Byte>)
    requires |bytes| == PDI_SIZE
    ensures Hex(bytes) == ZERO_PDI <==> AllZero(bytes)
  {
    HexOfZeros(bytes);
    assert |ZERO_PDI| == 16 && ZeroText(ZERO_PDI);
    SameZeroText(Hex(bytes), ZERO_PDI);
  }

  lemma SameZeroText(a: string, b: string)
    requires |a| == |b| && ZeroText(b)
    ensures a == b <==> ZeroText(a)
  {
  }

  lemma {:induction false} ReversedZeros(bytes: seq<Byte>)
    ensures AllZero(Reversed(bytes)) <==> AllZero(bytes)
  {
    forall i | 0 <= i < |bytes|
      ensures Reversed(bytes)[|bytes| - 1 - i] == bytes[i]
    {
      ReversedAt(bytes, i);
    }
    if AllZero(bytes) {
      forall k | 0 <= k < |bytes| ensures Reversed(bytes)[k] == 0 {
        ReversedAt(bytes, |bytes| - 1 - k);
      }
    }
  }

  // readFieldAsLittleEndian, including its index arithmetic.
  method ReadFieldAsLittleEndian(data: seq<Byte>) returns (text: string)
    ensures text == Hex(Reversed(data))
  {
    var reversed := new Byte[|data|](_ => 0);
    for i := 0 to |data|
      invariant forall k :: 0 <= k < i ==> reversed[|data| - 1 - k] == data[k]
    {
      reversed[|data| - 1 - i] := data[i];
    }
    forall k | 0 <= k < |data| ensures reversed[k] == Reversed(data)[k] {
      ReversedAt(data, |data| - 1 - k);
      assert reversed[|data| - 1 - (|data| - 1 - k)] == data[|data| - 1 - k];
    }
    assert reversed[..] == Reversed(data);
    text := Hex(reversed[..]);
  }

  // ---------- Sets of identifiers ----------

  function Chunk(raw: seq<Byte>, k: nat): seq<Byte>
    requires PDI_SIZE * (k + 1) <= |raw|
  {
    raw[PDI_SIZE * k..PDI_SIZE * (k + 1)]
  }

  function Identifier(chunk: seq<Byte>, littleEndian: bool): Pdi {
    Hex(if littleEndian then Reversed(chunk) else chunk)
  }

  /** The identifiers of the first `count` chunks; a zero chunk is a disabled link. */
  function PdiSet(raw: seq<Byte>, count: nat, littleEndian: bool): set<Pdi>
    requires PDI_SIZE * count <= |raw|
  {
    set k | 0 <= k < count && !AllZero(Chunk(raw, k)) :: Identifier(Chunk(raw, k), littleEndian)
  }

  method ParsePdiSet(raw: seq<Byte>, count: nat, littleEndian: bool) returns (result: Option<set<Pdi>>)
    ensures result == if |raw| < PDI_SIZE * count then None else Some(PdiSet(raw, count, littleEndian))
  {
    var need := count * PDI_SIZE;
    if |raw| < need {
      return None;
    }
    var found: set<Pdi> := {};
    var i := 0;
    ghost var k: nat := 0;
    while i < need
      invariant i == PDI_SIZE * k && k <= count
      invariant found == PdiSet(raw, k, littleEndian)
    {
      var chunk := raw[i..i + PDI_SIZE];
      assert chunk == Chunk(raw, k);
      var name: Pdi;
      if littleEndian {
        name := ReadFieldAsLittleEndian(chunk);
        ZeroPdi(Reversed(chunk));
        ReversedZeros(chunk);
      } else {
        name := Hex(chunk);
        ZeroPdi(chunk);
      }
      if name != ZERO_PDI {
        found := found + {name};
      }
      PdiSetGrows(raw, k, littleEndian);
      i := i + PDI_SIZE;
      k := k + 1;
    }
    return Some(found);
  }

  lemma PdiSetGrows(raw: seq<Byte>, k: nat, littleEndian: bool)
    requires PDI_SIZE * (k + 1) <= |raw|
    ensures PdiSet(raw, k + 1, littleEndian)
         == PdiSet(raw, k, littleEndian) +
            (if AllZero(Chunk(raw, k)) then {} else {Identifier(Chunk(raw, k), littleEndian)})
  {
  }

  method SetsEqual(a: set<Pdi>, b: set<Pdi>) returns (equal: bool)
    ensures equal <==> a == b
  {
    if |a| != |b| {
      return false;
    }
    var rest := a;
    while rest != {}
      invariant rest <= a
      invariant a - rest <= b
      decreases rest
    {
      var k :| k in rest;
      if k !in b {
        return false;
      }
      rest := rest - {k};
    }
    SubsetOfSameSize(a, b);
    return true;
  }

  lemma SubsetOfSameSize(a: set<Pdi>, b: set<Pdi>)
    requires a <= b && |a| == |b|
    ensures a == b
  {
    if a != b {
      var x :| x in b && x !in a;
      assert a <= b - {x};
      SizeMonotone(a, b - {x});
    }
  }

  lemma {:induction false} SizeMonotone(a: set<Pdi>, b: set<Pdi>)
    requires a <= b
    ensures |a| <= |b|
    decreases |a|
  {
    if a != {} {
      var x :| x in a;
      SizeMonotone(a - {x}, b - {x});
    }
  }

  // ---------- What a report says ----------

  function FieldOf(report: seq<Byte>, kind: nat): Option<seq<Byte>> {
    var parsed := Parse(report);
    if parsed.Ok? && kind in parsed.fields then Some(parsed.fields[kind]) else None
  }

  /** The switches a GPU reports. */
  function SwitchesSeen(report: seq<Byte>): Option<set<Pdi>> {
    var raw := FieldOf(report, FIELD_PDI);
    if raw.None? then None else Some(PdiSet(raw.value, |raw.value| / PDI_SIZE, true))
  }

  /** A switch's own identifier. */
  function DevicePdi(report: seq<Byte>): Option<Pdi> {
    var raw := FieldOf(report, FIELD_PDI);
    if raw.None? then None else Some(Hex(raw.value))
  }

  /** The GPUs a switch reports. */
  function GpusSeen(report: seq<Byte>, gpuCount: nat): Option<set<Pdi>> {
    var raw := FieldOf(report, FIELD_GPU_PDIS);
    if raw.None? || |raw.value| < PDI_SIZE * gpuCount then None
    else Some(PdiSet(raw.value, gpuCount, false))
  }

  // What one switch report says of its sender and of its GPUs.
  datatype SwitchView = SwitchView(device: Option<Pdi>, gpus: Option<set<Pdi>>)
  type GpuView = Option<set<Pdi>>

  function ViewSwitch(report: seq<Byte>, gpuCount: nat): SwitchView {
    SwitchView(DevicePdi(report), GpusSeen(report, gpuCount))
  }

  function SwitchViewer(gpuCount: nat): seq<Byte> -> SwitchView {
    report => ViewSwitch(report, gpuCount)
  }

  function GpuViews(reports: seq<seq<Byte>>): seq<GpuView> { Mapped(SwitchesSeen, reports) }

  function SwitchViews(reports: seq<seq<Byte>>, gpuCount: nat): seq<SwitchView> {
    Mapped(SwitchViewer(gpuCount), reports)
  }

  function DeviceOf(view: SwitchView): Option<Pdi> { view.device }

  function Devices(views: seq<SwitchView>): seq<Option<Pdi>> { Mapped(DeviceOf, views) }

  lemma DevicesAt(views: seq<SwitchView>)
    ensures forall i :: 0 <= i < |views| ==> Devices(views)[i] == views[i].device
  {
    forall i | 0 <= i < |views|
      ensures Devices(views)[i] == views[i].device
    {
      MappedAt(DeviceOf, views, i);
    }
  }

  function Present(pdis: set<Pdi>): set<Option<Pdi>> {
    set p | p in pdis :: Some(p)
  }

  // ---------- The mesh ----------

  /** Every GPU sees exactly `switches`; the switch reports come from exactly
      those switches, one each; every switch sees exactly `gpus`. */
  ghost predicate Mesh(gpuViews: seq<GpuView>, switchViews: seq<SwitchView>, switches: set<Pdi>, gpus: set<Pdi>) {
    && (gpuViews != [] ==> |switches| == |switchViews|)
    && (gpuViews == [] ==> switches == {})
    && (switchViews != [] ==> |gpus| == |gpuViews|)
    && (forall v :: v in gpuViews ==> v == Some(switches))
    && multiset(Devices(switchViews)) == multiset(Present(switches))
    && (forall v :: v in switchViews ==> v.gpus == Some(gpus))
  }

  ghost predicate IsMesh(gpuViews: seq<GpuView>, switchViews: seq<SwitchView>) {
    exists switches, gpus :: Mesh(gpuViews, switchViews, switches, gpus)
  }

  ghost predicate ValidMesh(gpuReports: seq<seq<Byte>>, switchReports: seq<seq<Byte>>, gpuCount: int, switchCount: int) {
    && |gpuReports| == gpuCount && |switchReports| == switchCount
    && IsMesh(GpuViews(gpuReports), SwitchViews(switchReports, gpuCount))
  }

  // What the GPU loop establishes of each report.
  ghost predicate GpuAgrees(views: seq<GpuView>, i: nat, switchCount: nat)
    requires i < |views|
  {
    views[i].Some? && |views[i].value| == switchCount && views[i] == views[0]
  }

  ghost predicate GpusAgree(views: seq<GpuView>, switchCount: nat) {
    forall i :: 0 <= i < |views| ==> GpuAgrees(views, i, switchCount)
  }

  // What the switch loop establishes of each report.
  ghost predicate SwitchAgrees(views: seq<SwitchView>, i: nat, expected: set<Pdi>, gpuCount: nat)
    requires i < |views|
  {
    && views[i].device.Some?
    && views[i].device.value in expected
    && (forall k :: 0 <= k < i ==> views[k].device != views[i].device)
    && views[i].gpus.Some?
    && |views[i].gpus.value| == gpuCount
    && views[i].gpus == views[0].gpus
  }

  ghost predicate SwitchesAgree(views: seq<SwitchView>, expected: set<Pdi>, gpuCount: nat) {
    forall i :: 0 <= i < |views| ==> SwitchAgrees(views, i, expected, gpuCount)
  }

  function ExpectedSwitches(views: seq<GpuView>): set<Pdi> {
    if views == [] || views[0].None? then {} else views[0].value
  }

  // The switches one GPU report names, if it has them.
  method ReadGpu(reports: seq<seq<Byte>>, i: nat) returns (view: GpuView)
    requires i < |reports|
    ensures view == GpuViews(reports)[i]
  {
    MappedAt(SwitchesSeen, reports, i);
    var parsed := ParseSpdmOpaqueFields(reports[i]);
    if !parsed.Ok? {
      return None;
    }
    if FIELD_PDI !in parsed.fields {
      return None;
    }
    var raw := parsed.fields[FIELD_PDI];
    view := ParsePdiSet(raw, |raw| / PDI_SIZE, true);
  }

  method CheckGpus(reports: seq<seq<Byte>>, switchCount: nat) returns (ok: bool, expected: GpuView)
    ensures ok <==> GpusAgree(GpuViews(reports), switchCount)
    ensures ok ==> if reports == [] then expected.None? else expected == GpuViews(reports)[0]
  {
    ghost var views := GpuViews(reports);
    expected := None;
    for i := 0 to |reports|
      invariant forall k :: 0 <= k < i ==> GpuAgrees(views, k, switchCount)
      invariant i == 0 ==> expected.None?
      invariant i > 0 ==> expected.Some? && expected == views[0]
    {
      ghost var agrees := GpuAgrees(views, i, switchCount);
      var pdis := ReadGpu(reports, i);
      if pdis.None? {
        return false, expected;
      }
      if |pdis.value| != switchCount {
        return false, expected;
      }
      if expected.None? {
        expected := pdis;
      } else {
        var equal := SetsEqual(expected.value, pdis.value);
        if !equal {
          return false, expected;
        }
      }
    }
    return true, expected;
  }

  // The checks on one switch report; None when one of them fails.
  method ReadSwitch(reports: seq<seq<Byte>>, i: nat, expected: set<Pdi>, seen: set<Pdi>, gpuCount: nat)
    returns (device: Pdi, gpus: Option<set<Pdi>>)
    requires i < |reports|
    ensures var view := SwitchViews(reports, gpuCount)[i];
            && (gpus.Some? ==> view == SwitchView(Some(device), gpus))
            && (gpus.Some? <==>
                && view.device.Some? && view.device.value in expected && view.device.value !in seen
                && view.gpus.Some? && |view.gpus.value| == gpuCount)
  {
    MappedAt(SwitchViewer(gpuCount), reports, i);
    var parsed := ParseSpdmOpaqueFields(reports[i]);
    if !parsed.Ok? {
      return "", None;
    }
    if FIELD_PDI !in parsed.fields {
      return "", None;
    }
    device := Hex(parsed.fields[FIELD_PDI]);
    if device !in expected {
      return device, None;
    }
    if device in seen {
      return device, None;
    }
    if FIELD_GPU_PDIS !in parsed.fields {
      return device, None;
    }
    var pdis := ParsePdiSet(parsed.fields[FIELD_GPU_PDIS], gpuCount, false);
    if pdis.None? {
      return device, None;
    }
    if |pdis.value| != gpuCount {
      return device, None;
    }
    return device, pdis;
  }

  method CheckSwitches(reports: seq<seq<Byte>>, expected: set<Pdi>, gpuCount: nat) returns (ok: bool)
    ensures ok <==> SwitchesAgree(SwitchViews(reports, gpuCount), expected, gpuCount)
  {
    ghost var views := SwitchViews(reports, gpuCount);
    var expectedGpus: Option<set<Pdi>> := None;
    var seen: set<Pdi> := {};
    for i := 0 to |reports|
      invariant forall k :: 0 <= k < i ==> SwitchAgrees(views, k, expected, gpuCount)
      invariant forall p :: p in seen <==> exists k :: 0 <= k < i && views[k].device == Some(p)
      invariant i == 0 ==> expectedGpus.None?
      invariant i > 0 ==> expectedGpus.Some? && expectedGpus == views[0].gpus
    {
      ghost var agrees := SwitchAgrees(views, i, expected, gpuCount);
      var device, pdis := ReadSwitch(reports, i, expected, seen, gpuCount);
      if pdis.None? {
        return false;
      }
      seen := seen + {device};
      if expectedGpus.None? {
        expectedGpus := pdis;
      } else {
        var equal := SetsEqual(expectedGpus.value, pdis.value);
        if !equal {
          return false;
        }
      }
    }
    return true;
  }

  /** validateTopology. Accepts exactly the full meshes. */
  method ValidateTopology(gpuReports: seq<seq<Byte>>, switchReports: seq<seq<Byte>>, gpuCount: int, switchCount: int)
    returns (ok: bool)
    ensures ok <==> ValidMesh(gpuReports, switchReports, gpuCount, switchCount)
  {
    if |gpuReports| != gpuCount {
      return false;
    }
    if |switchReports| != switchCount {
      return false;
    }
    AgreementIsMesh(GpuViews(gpuReports), SwitchViews(switchReports, gpuCount));
    var gpusOk, expected := CheckGpus(gpuReports, switchCount);
    if !gpusOk {
      return false;
    }
    assert gpuReports != [] ==> GpuAgrees(GpuViews(gpuReports), 0, switchCount);
    ok := CheckSwitches(switchReports, if expected.Some? then expected.value else {}, gpuCount);
  }

  // ---------- The loops find exactly the meshes ----------

  // Distinct values from a set as large as their number are all of it.
  lemma {:induction false} PigeonHole(values: seq<Option<Pdi>>, all: set<Option<Pdi>>)
    requires forall v :: v in values ==> v in all
    requires forall i, j :: 0 <= i < j < |values| ==> values[i] != values[j]
    requires |values| == |all|
    ensures multiset(values) == multiset(all)
  {
    if values == [] {
      assert all == {};
    } else {
      var front, last := values[..|values| - 1], values[|values| - 1];
      assert values == front + [last];
      assert last in values;
      forall v | v in front ensures v in all - {last} {
        assert v in values;
      }
      PigeonHole(front, all - {last});
      assert multiset(values) == multiset(front) + multiset{last};
      assert multiset(all) == multiset(all - {last}) + multiset{last};
    }
  }

  lemma PresentSize(pdis: set<Pdi>)
    ensures |Present(pdis)| == |pdis|
    decreases |pdis|
  {
    if pdis == {} {
      assert Present(pdis) == {};
    } else {
      var p :| p in pdis;
      PresentSize(pdis - {p});
      assert Present(pdis) == Present(pdis - {p}) + {Some(p)};
    }
  }

  lemma RepeatedTwice(values: seq<Option<Pdi>>, i: nat, j: nat)
    requires i < j < |values|
    ensures values[i] == values[j] ==> multiset(values)[values[j]] >= 2
  {
    RemoveOne(values, j);
    var rest := values[..j] + values[j + 1..];
    assert rest[i] == values[i];
    assert values[i] in multiset(rest);
  }

  // A sequence whose multiset is that of a set has no duplicates.
  lemma NoDuplicates(values: seq<Option<Pdi>>, all: set<Option<Pdi>>)
    requires multiset(values) == multiset(all)
    ensures forall i, j :: 0 <= i < j < |values| ==> values[i] != values[j]
    ensures forall v :: v in values <==> v in all
    ensures |values| == |all|
  {
    forall i, j | 0 <= i < j < |values|
      ensures values[i] != values[j]
    {
      RepeatedTwice(values, i, j);
      assert multiset(all)[values[j]] <= 1;
    }
    assert forall v :: v in values <==> v in multiset(values);
    assert |multiset(values)| == |values|;
    assert |multiset(all)| == |all|;
  }

  lemma AgreementIsMesh(gpuViews: seq<GpuView>, switchViews: seq<SwitchView>)
    ensures IsMesh(gpuViews, switchViews) <==>
            GpusAgree(gpuViews, |switchViews|) &&
            SwitchesAgree(switchViews, ExpectedSwitches(gpuViews), |gpuViews|)
  {
    if GpusAgree(gpuViews, |switchViews|) && SwitchesAgree(switchViews, ExpectedSwitches(gpuViews), |gpuViews|) {
      AgreementMakesMesh(gpuViews, switchViews);
    }
    if IsMesh(gpuViews, switchViews) {
      var switches, gpus :| Mesh(gpuViews, switchViews, switches, gpus);
      MeshMakesAgreement(gpuViews, switchViews, switches, gpus);
    }
  }

  // The devices of agreeing switches are distinct and expected, so with the
  // right number of them they are all that is expected.
  lemma DevicesAreExpected(views: seq<SwitchView>, expected: set<Pdi>, gpuCount: nat)
    requires SwitchesAgree(views, expected, gpuCount)
    requires |views| == |expected|
    ensures multiset(Devices(views)) == multiset(Present(expected))
  {
    PresentSize(expected);
    var values := Devices(views);
    DevicesAt(views);
    forall v | v in values ensures v in Present(expected) {
      var i :| 0 <= i < |values| && values[i] == v;
      assert SwitchAgrees(views, i, expected, gpuCount);
    }
    forall i, j | 0 <= i < j < |values| ensures values[i] != values[j] {
      assert SwitchAgrees(views, j, expected, gpuCount);
    }
    PigeonHole(values, Present(expected));
  }

  lemma AgreementMakesMesh(gpuViews: seq<GpuView>, switchViews: seq<SwitchView>)
    requires GpusAgree(gpuViews, |switchViews|)
    requires SwitchesAgree(switchViews, ExpectedSwitches(gpuViews), |gpuViews|)
    ensures IsMesh(gpuViews, switchViews)
  {
    var switches := ExpectedSwitches(gpuViews);
    assert switchViews != [] ==> SwitchAgrees(switchViews, 0, switches, |gpuViews|);
    assert gpuViews != [] ==> GpuAgrees(gpuViews, 0, |switchViews|);
    var gpus := if switchViews == [] then {} else switchViews[0].gpus.value;
    DevicesAreExpected(switchViews, switches, |gpuViews|);
    forall v | v in gpuViews ensures v == Some(switches) {
      var i :| 0 <= i < |gpuViews| && gpuViews[i] == v;
      assert GpuAgrees(gpuViews, i, |switchViews|);
    }
    forall v | v in switchViews ensures v.gpus == Some(gpus) {
      var i :| 0 <= i < |switchViews| && switchViews[i] == v;
      assert SwitchAgrees(switchViews, i, switches, |gpuViews|);
    }
    assert Mesh(gpuViews, switchViews, switches, gpus);
  }

  lemma MeshMakesAgreement(gpuViews: seq<GpuView>, switchViews: seq<SwitchView>, switches: set<Pdi>, gpus: set<Pdi>)
    requires Mesh(gpuViews, switchViews, switches, gpus)
    ensures GpusAgree(gpuViews, |switchViews|)
    ensures SwitchesAgree(switchViews, ExpectedSwitches(gpuViews), |gpuViews|)
  {
    var devices := Devices(switchViews);
    DevicesAt(switchViews);
    NoDuplicates(devices, Present(switches));
    assert forall i :: 0 <= i < |gpuViews| ==> gpuViews[i] in gpuViews;
    assert ExpectedSwitches(gpuViews) == switches;
    forall i | 0 <= i < |switchViews|
      ensures SwitchAgrees(switchViews, i, switches, |gpuViews|)
    {
      assert switchViews[i] in switchViews && switchViews[0] in switchViews;
      assert devices[i] in devices;
      forall k | 0 <= k < i ensures switchViews[k].device != switchViews[i].device {
        assert devices[k] != devices[i];
      }
    }
  }

  // ---------- Order does not matter ----------

  /** Acceptance does not depend on the order of either list of reports. */
  lemma OrderDoesNotMatter(gpus: seq<seq<Byte>>, gpus': seq<seq<Byte>>, switches: seq<seq<Byte>>, switches': seq<seq<Byte>>,
                           gpuCount: nat, switchCount: nat)
    requires multiset(gpus) == multiset(gpus') && multiset(switches) == multiset(switches')
    requires ValidMesh(gpus, switches, gpuCount, switchCount)
    ensures ValidMesh(gpus', switches', gpuCount, switchCount)
  {
    SameLength(gpus, gpus');
    SameLength(switches, switches');
    MappedPermutation(SwitchesSeen, gpus, gpus');
    MappedPermutation(SwitchViewer(gpuCount), switches, switches');
    PermutedViews(GpuViews(gpus), GpuViews(gpus'), SwitchViews(switches, gpuCount), SwitchViews(switches', gpuCount));
  }

  lemma PermutedViews(g: seq<GpuView>, g': seq<GpuView>, s: seq<SwitchView>, s': seq<SwitchView>)
    requires multiset(g) == multiset(g') && multiset(s) == multiset(s')
    requires IsMesh(g, s)
    ensures IsMesh(g', s')
  {
    var switches, gpus :| Mesh(g, s, switches, gpus);
    SameLength(g, g');
    SameLength(s, s');
    MappedPermutation(DeviceOf, s, s');
    forall v | v in g' ensures v in g {
      assert v in multiset(g');
    }
    forall v | v in s' ensures v in s {
      assert v in multiset(s');
    }
    assert Mesh(g', s', switches, gpus);
  }
}
