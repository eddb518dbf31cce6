/**
 The fabric check in terms of the bytes of the reports: which bytes of which field
 name a switch or a GPU, and in which order.

 Source: tinfoil/boot/topology.go, parsePDISet and validateTopology.
 */
module FabricBytes {
  import opened Bytes
  import opened Options
  import opened Sequences
  import opened Spdm
  import opened Topology

  // ---------- Identifiers as bytes ----------

  type Id = seq<Byte>

  predicate Nonzero(id: Id) {
    exists i :: 0 <= i < |id| && id[i] != 0
  }

  // The bytes in the opposite order.
  function Flip(id: Id): (flipped: Id)
    ensures |flipped| == |id|
  {
    seq(|id|, i requires 0 <= i < |id| => id[|id| - 1 - i])
  }

  function Eighth(raw: seq<Byte>, k: nat): (id: Id)
    requires 8 * k + 8 <= |raw|
    ensures |id| == 8
  {
    raw[8 * k..8 * k + 8]
  }

  // The nonzero identifiers among the first `count` of a field.
  function Ids(raw: seq<Byte>, count: nat): set<Id>
    requires 8 * count <= |raw|
  {
    set k | 0 <= k < count && Nonzero(Eighth(raw, k)) :: Eighth(raw, k)
  }

  function Flips(ids: set<Id>): set<Id> { set id | id in ids :: Flip(id) }

  // ---------- What the reports hold ----------

  /** The switches a GPU reports: field 22, each identifier least significant byte first. */
  function SwitchesOf(report: seq<Byte>): Option<set<Id>> {
    var parsed := Parse(report);
    if parsed.Ok? && 22 in parsed.fields then Some(Flips(Ids(parsed.fields[22], |parsed.fields[22]| / 8))) else None
  }

  /** A switch's own identifier: field 22 as it stands. */
  function SelfOf(report: seq<Byte>): Option<Id> {
    var parsed := Parse(report);
    if parsed.Ok? && 22 in parsed.fields then Some(parsed.fields[22]) else None
  }

  /** The GPUs a switch reports: the first identifiers of field 26 as they stand. */
  function GpusOf(report: seq<Byte>, count: nat): Option<set<Id>> {
    var parsed := Parse(report);
    if parsed.Ok? && 26 in parsed.fields && 8 * count <= |parsed.fields[26]| then Some(Ids(parsed.fields[26], count)) else None
  }

  /** All GPUs report `switches`; the switch reports come one each from exactly those
      switches; all switches report `gpus`, as many as there are GPU reports. */
  ghost predicate ByteMesh(gpuReports: seq<seq<Byte>>, switchReports: seq<seq<Byte>>, switches: set<Id>, gpus: set<Id>) {
    && (if gpuReports == [] then switches == {} else |switches| == |switchReports|)
    && (switchReports != [] ==> |gpus| == |gpuReports|)
    && (forall i :: 0 <= i < |gpuReports| ==> SwitchesOf(gpuReports[i]) == Some(switches))
    && (forall i :: 0 <= i < |switchReports| ==> SwitchSays(switchReports[i], switches, gpus, |gpuReports|))
    && (forall i, j :: 0 <= i < j < |switchReports| ==> SelfOf(switchReports[i]) != SelfOf(switchReports[j]))
  }

  predicate SwitchSays(report: seq<Byte>, switches: set<Id>, gpus: set<Id>, gpuCount: nat) {
    SelfOf(report).Some? && SelfOf(report).value in switches && GpusOf(report, gpuCount) == Some(gpus)
  }

  // ---------- Bytes and text ----------

  function Texts(ids: set<Id>): set<Pdi> { set id | id in ids :: Hex(id) }

  lemma TextIn(id: Id, ids: set<Id>)
    ensures Hex(id) in Texts(ids) <==> id in ids
  {
    if Hex(id) in Texts(ids) {
      var other :| other in ids && Hex(other) == Hex(id);
      HexIsInjective(id, other);
    }
  }

  lemma TextsAreInjective(a: set<Id>, b: set<Id>)
    ensures Texts(a) == Texts(b) <==> a == b
  {
    if Texts(a) == Texts(b) {
      forall id
        ensures id in a <==> id in b
      {
        TextIn(id, a);
        TextIn(id, b);
      }
    }
  }

  lemma TextsAreAsMany(ids: set<Id>)
    ensures |Texts(ids)| == |ids|
    decreases |ids|
  {
    if ids == {} {
      assert Texts(ids) == {};
    } else {
      var id :| id in ids;
      TextsAreAsMany(ids - {id});
      TextIn(id, ids - {id});
      assert Texts(ids) == Texts(ids - {id}) + {Hex(id)};
    }
  }

  lemma FlipIsReversed(id: Id)
    ensures Flip(id) == Reversed(id)
  {
    forall i | 0 <= i < |id|
      ensures Flip(id)[i] == Reversed(id)[i]
    {
      ReversedAt(id, |id| - 1 - i);
    }
  }

  lemma PdisAreTexts(raw: seq<Byte>, count: nat)
    requires 8 * count <= |raw|
    ensures PdiSet(raw, count, false) == Texts(Ids(raw, count))
    ensures PdiSet(raw, count, true) == Texts(Flips(Ids(raw, count)))
  {
    var plain, flipped := PdiSet(raw, count, false), PdiSet(raw, count, true);
    forall text
      ensures text in plain <==> text in Texts(Ids(raw, count))
    {
      if text in plain {
        var k :| 0 <= k < count && !AllZero(Chunk(raw, k)) && text == Identifier(Chunk(raw, k), false);
        assert Eighth(raw, k) == Chunk(raw, k) && Eighth(raw, k) in Ids(raw, count);
      }
      if text in Texts(Ids(raw, count)) {
        var k :| 0 <= k < count && Nonzero(Eighth(raw, k)) && text == Hex(Eighth(raw, k));
        assert Eighth(raw, k) == Chunk(raw, k);
      }
    }
    forall text
      ensures text in flipped <==> text in Texts(Flips(Ids(raw, count)))
    {
      if text in flipped {
        var k :| 0 <= k < count && !AllZero(Chunk(raw, k)) && text == Identifier(Chunk(raw, k), true);
        assert Eighth(raw, k) == Chunk(raw, k) && Eighth(raw, k) in Ids(raw, count);
        FlipIsReversed(Eighth(raw, k));
        assert Flip(Eighth(raw, k)) in Flips(Ids(raw, count));
      }
      if text in Texts(Flips(Ids(raw, count))) {
        var k :| 0 <= k < count && Nonzero(Eighth(raw, k)) && text == Hex(Flip(Eighth(raw, k)));
        FlipIsReversed(Eighth(raw, k));
        assert Eighth(raw, k) == Chunk(raw, k);
      }
    }
  }

  function AsTexts(ids: Option<set<Id>>): Option<set<Pdi>> {
    if ids.None? then None else Some(Texts(ids.value))
  }

  lemma ViewsAreTexts(report: seq<Byte>, gpuCount: nat)
    ensures SwitchesSeen(report) == AsTexts(SwitchesOf(report))
    ensures ViewSwitch(report, gpuCount).gpus == AsTexts(GpusOf(report, gpuCount))
    ensures ViewSwitch(report, gpuCount).device == if SelfOf(report).None? then None else Some(Hex(SelfOf(report).value))
  {
    var parsed := Parse(report);
    if parsed.Ok? && 22 in parsed.fields {
      PdisAreTexts(parsed.fields[22], |parsed.fields[22]| / 8);
    }
    if parsed.Ok? && 26 in parsed.fields && 8 * gpuCount <= |parsed.fields[26]| {
      PdisAreTexts(parsed.fields[26], gpuCount);
    }
  }

  lemma SameTexts(a: Option<set<Id>>, b: Option<set<Id>>)
    ensures AsTexts(a) == AsTexts(b) <==> a == b
  {
    if a.Some? && b.Some? {
      TextsAreInjective(a.value, b.value);
    }
  }

  // ---------- The equivalence ----------

  lemma GpusAgreeInBytes(reports: seq<seq<Byte>>, switchCount: nat)
    ensures GpusAgree(GpuViews(reports), switchCount) <==>
              forall i :: 0 <= i < |reports| ==> GpuSays(reports[i], SwitchesOf(reports[0]), switchCount)
  {
    var views := GpuViews(reports);
    forall i | 0 <= i < |reports|
      ensures GpuAgrees(views, i, switchCount) <==> GpuSays(reports[i], SwitchesOf(reports[0]), switchCount)
    {
      MappedAt(SwitchesSeen, reports, i);
      MappedAt(SwitchesSeen, reports, 0);
      ViewsAreTexts(reports[i], 0);
      ViewsAreTexts(reports[0], 0);
      SameTexts(SwitchesOf(reports[i]), SwitchesOf(reports[0]));
      if SwitchesOf(reports[i]).Some? {
        TextsAreAsMany(SwitchesOf(reports[i]).value);
      }
    }
  }

  predicate GpuSays(report: seq<Byte>, switches: Option<set<Id>>, switchCount: nat) {
    SwitchesOf(report).Some? && |SwitchesOf(report).value| == switchCount && SwitchesOf(report) == switches
  }

  // What the switch loop establishes of one report, in bytes.
  ghost predicate SwitchFits(reports: seq<seq<Byte>>, i: nat, switches: set<Id>, gpuCount: nat)
    requires i < |reports|
  {
    && SelfOf(reports[i]).Some? && SelfOf(reports[i]).value in switches
    && (forall k :: 0 <= k < i ==> SelfOf(reports[k]) != SelfOf(reports[i]))
    && GpusOf(reports[i], gpuCount).Some? && |GpusOf(reports[i], gpuCount).value| == gpuCount
    && GpusOf(reports[i], gpuCount) == GpusOf(reports[0], gpuCount)
  }

  lemma SwitchesAgreeInBytes(reports: seq<seq<Byte>>, switches: set<Id>, gpuCount: nat)
    ensures SwitchesAgree(SwitchViews(reports, gpuCount), Texts(switches), gpuCount) <==>
              forall i :: 0 <= i < |reports| ==> SwitchFits(reports, i, switches, gpuCount)
  {
    var views := SwitchViews(reports, gpuCount);
    forall i | 0 <= i < |reports|
      ensures SwitchAgrees(views, i, Texts(switches), gpuCount) <==> SwitchFits(reports, i, switches, gpuCount)
    {
      SwitchAgreesInBytes(reports, i, switches, gpuCount);
    }
  }

  lemma ViewAt(reports: seq<seq<Byte>>, i: nat, gpuCount: nat)
    requires i < |reports|
    ensures var view := SwitchViews(reports, gpuCount)[i];
            && view.gpus == AsTexts(GpusOf(reports[i], gpuCount))
            && view.device == if SelfOf(reports[i]).None? then None else Some(Hex(SelfOf(reports[i]).value))
  {
    MappedAt(SwitchViewer(gpuCount), reports, i);
    ViewsAreTexts(reports[i], gpuCount);
  }

  lemma SwitchAgreesInBytes(reports: seq<seq<Byte>>, i: nat, switches: set<Id>, gpuCount: nat)
    requires i < |reports|
    ensures SwitchAgrees(SwitchViews(reports, gpuCount), i, Texts(switches), gpuCount) <==> SwitchFits(reports, i, switches, gpuCount)
  {
    var views := SwitchViews(reports, gpuCount);
    ViewAt(reports, i, gpuCount);
    ViewAt(reports, 0, gpuCount);
    SameTexts(GpusOf(reports[i], gpuCount), GpusOf(reports[0], gpuCount));
    if GpusOf(reports[i], gpuCount).Some? {
      TextsAreAsMany(GpusOf(reports[i], gpuCount).value);
    }
    if SelfOf(reports[i]).Some? {
      TextIn(SelfOf(reports[i]).value, switches);
      forall k | 0 <= k < i
        ensures views[k].device != views[i].device <==> SelfOf(reports[k]) != SelfOf(reports[i])
      {
        ViewAt(reports, k, gpuCount);
        if SelfOf(reports[k]).Some? && views[k].device == views[i].device {
          HexIsInjective(SelfOf(reports[k]).value, SelfOf(reports[i]).value);
        }
      }
    }
  }

  /** validateTopology accepts exactly the meshes of bytes. */
  lemma AcceptedInBytes(gpuReports: seq<seq<Byte>>, switchReports: seq<seq<Byte>>, gpuCount: int, switchCount: int)
    ensures ValidMesh(gpuReports, switchReports, gpuCount, switchCount) <==>
              && |gpuReports| == gpuCount && |switchReports| == switchCount
              && exists switches, gpus :: ByteMesh(gpuReports, switchReports, switches, gpus)
  {
    if |gpuReports| == gpuCount && |switchReports| == switchCount {
      AgreementIsMesh(GpuViews(gpuReports), SwitchViews(switchReports, gpuCount));
      GpusAgreeInBytes(gpuReports, switchCount);
      var switches := Expected(gpuReports);
      ExpectedAreTexts(gpuReports);
      SwitchesAgreeInBytes(switchReports, switches, gpuCount);
      if GpusAgree(GpuViews(gpuReports), switchCount) && SwitchesAgree(SwitchViews(switchReports, gpuCount), Texts(switches), gpuCount) {
        AgreementIsByteMesh(gpuReports, switchReports, switches);
      }
      if exists switches, gpus :: ByteMesh(gpuReports, switchReports, switches, gpus) {
        var all, gpus :| ByteMesh(gpuReports, switchReports, all, gpus);
        ByteMeshIsAgreement(gpuReports, switchReports, all, gpus);
      }
    }
  }

  function Expected(reports: seq<seq<Byte>>): set<Id> {
    if reports == [] || SwitchesOf(reports[0]).None? then {} else SwitchesOf(reports[0]).value
  }

  lemma ExpectedAreTexts(reports: seq<seq<Byte>>)
    ensures ExpectedSwitches(GpuViews(reports)) == Texts(Expected(reports))
  {
    if reports != [] {
      MappedAt(SwitchesSeen, reports, 0);
      ViewsAreTexts(reports[0], 0);
    }
  }

  lemma AgreementIsByteMesh(gpuReports: seq<seq<Byte>>, switchReports: seq<seq<Byte>>, switches: set<Id>)
    requires switches == Expected(gpuReports)
    requires forall i :: 0 <= i < |gpuReports| ==> GpuSays(gpuReports[i], SwitchesOf(gpuReports[0]), |switchReports|)
    requires forall i :: 0 <= i < |switchReports| ==> SwitchFits(switchReports, i, switches, |gpuReports|)
    ensures exists gpus :: ByteMesh(gpuReports, switchReports, switches, gpus)
  {
    assert gpuReports != [] ==> GpuSays(gpuReports[0], SwitchesOf(gpuReports[0]), |switchReports|);
    assert switchReports != [] ==> SwitchFits(switchReports, 0, switches, |gpuReports|);
    var gpus := if switchReports == [] then {} else GpusOf(switchReports[0], |gpuReports|).value;
    forall i, j | 0 <= i < j < |switchReports|
      ensures SelfOf(switchReports[i]) != SelfOf(switchReports[j])
    {
      assert SwitchFits(switchReports, j, switches, |gpuReports|);
    }
    forall i | 0 <= i < |switchReports|
      ensures SwitchSays(switchReports[i], switches, gpus, |gpuReports|)
    {
      assert SwitchFits(switchReports, i, switches, |gpuReports|);
    }
    forall i | 0 <= i < |gpuReports|
      ensures SwitchesOf(gpuReports[i]) == Some(switches)
    {
      assert GpuSays(gpuReports[i], SwitchesOf(gpuReports[0]), |switchReports|);
    }
    assert ByteMesh(gpuReports, switchReports, switches, gpus);
  }

  lemma ByteMeshIsAgreement(gpuReports: seq<seq<Byte>>, switchReports: seq<seq<Byte>>, switches: set<Id>, gpus: set<Id>)
    requires ByteMesh(gpuReports, switchReports, switches, gpus)
    ensures switches == Expected(gpuReports)
    ensures forall i :: 0 <= i < |gpuReports| ==> GpuSays(gpuReports[i], SwitchesOf(gpuReports[0]), |switchReports|)
    ensures forall i :: 0 <= i < |switchReports| ==> SwitchFits(switchReports, i, switches, |gpuReports|)
  {
    forall i | 0 <= i < |switchReports|
      ensures SwitchFits(switchReports, i, switches, |gpuReports|)
    {
      assert SwitchSays(switchReports[i], switches, gpus, |gpuReports|);
      assert SwitchSays(switchReports[0], switches, gpus, |gpuReports|);
    }
  }

  // ---------- What acceptance says, and what is accepted ----------

  /** In an accepted fabric every switch's own bytes, in the opposite order, are one
      of the identifiers in field 22 of every GPU's report. */
  lemma EveryGpuSeesEverySwitch(gpuReports: seq<seq<Byte>>, switchReports: seq<seq<Byte>>, gpuCount: int, switchCount: int, i: nat, j: nat)
    requires ValidMesh(gpuReports, switchReports, gpuCount, switchCount) && i < |gpuReports| && j < |switchReports|
    ensures Parse(gpuReports[i]).Ok? && 22 in Parse(gpuReports[i]).fields
    ensures Parse(switchReports[j]).Ok? && 22 in Parse(switchReports[j]).fields
    ensures var raw := Parse(gpuReports[i]).fields[22];
            exists k :: 0 <= k < |raw| / 8 && Parse(switchReports[j]).fields[22] == Flip(Eighth(raw, k))
  {
    AcceptedInBytes(gpuReports, switchReports, gpuCount, switchCount);
    var switches, gpus :| ByteMesh(gpuReports, switchReports, switches, gpus);
    assert SwitchSays(switchReports[j], switches, gpus, |gpuReports|);
    assert SwitchesOf(gpuReports[i]) == Some(switches);
  }

  function Joined(ids: seq<Id>): seq<Byte> {
    if ids == [] then [] else ids[0] + Joined(ids[1..])
  }

  ghost predicate Wellformed(ids: seq<Id>) {
    && (forall i :: 0 <= i < |ids| ==> |ids[i]| == 8 && Nonzero(ids[i]))
    && (forall i, j :: 0 <= i < j < |ids| ==> ids[i] != ids[j])
  }

  lemma {:induction false} JoinedAt(ids: seq<Id>, tail: seq<Byte>, k: nat)
    requires forall i :: 0 <= i < |ids| ==> |ids[i]| == 8
    requires k < |ids|
    ensures |Joined(ids)| == 8 * |ids|
    ensures Eighth(Joined(ids) + tail, k) == ids[k]
  {
    var rest := ids[1..];
    var raw, later := Joined(ids) + tail, Joined(rest) + tail;
    assert raw == ids[0] + later;
    if rest == [] {
      assert Joined(rest) == [];
    } else {
      JoinedAt(rest, tail, if k == 0 then 0 else k - 1);
    }
    if k > 0 {
      assert Eighth(raw, k) == Eighth(later, k - 1);
    }
  }

  function Members(ids: seq<Id>): set<Id> { set id | id in ids }

  lemma {:induction false} AsManyMembers(ids: seq<Id>)
    requires forall i, j :: 0 <= i < j < |ids| ==> ids[i] != ids[j]
    ensures |Members(ids)| == |ids|
  {
    if ids == [] {
      assert Members(ids) == {};
    } else {
      var front, last := ids[..|ids| - 1], ids[|ids| - 1];
      AsManyMembers(front);
      assert ids == front + [last];
      assert forall i :: 0 <= i < |front| ==> front[i] == ids[i];
      assert Members(ids) == Members(front) + {last} && last !in Members(front);
    }
  }

  lemma IdsOfJoined(ids: seq<Id>, tail: seq<Byte>)
    requires forall i :: 0 <= i < |ids| ==> |ids[i]| == 8 && Nonzero(ids[i])
    ensures |Joined(ids)| == 8 * |ids|
    ensures Ids(Joined(ids) + tail, |ids|) == Members(ids)
  {
    if ids != [] {
      JoinedAt(ids, tail, 0);
    }
    var raw := Joined(ids) + tail;
    forall k | 0 <= k < |ids|
      ensures Eighth(raw, k) == ids[k]
    {
      JoinedAt(ids, tail, k);
    }
    forall id
      ensures id in Ids(raw, |ids|) <==> id in Members(ids)
    {
      if id in Members(ids) {
        var k :| 0 <= k < |ids| && ids[k] == id;
        assert Eighth(raw, k) == id;
      }
    }
  }

  lemma FlipTwice(id: Id)
    ensures Flip(Flip(id)) == id
    ensures Nonzero(Flip(id)) <==> Nonzero(id)
  {
    if Nonzero(id) {
      var i :| 0 <= i < |id| && id[i] != 0;
      assert Flip(id)[|id| - 1 - i] != 0;
    }
    if Nonzero(Flip(id)) {
      var i :| 0 <= i < |id| && Flip(id)[i] != 0;
      assert id[|id| - 1 - i] != 0;
    }
  }

  function FlipAll(ids: seq<Id>): (flipped: seq<Id>)
    ensures |flipped| == |ids|
  {
    seq(|ids|, i requires 0 <= i < |ids| => Flip(ids[i]))
  }

  lemma FlippedMembers(ids: seq<Id>)
    ensures Flips(Members(FlipAll(ids))) == Members(ids)
  {
    forall id
      ensures id in Flips(Members(FlipAll(ids))) <==> id in Members(ids)
    {
      if id in Members(ids) {
        var k :| 0 <= k < |ids| && ids[k] == id;
        assert FlipAll(ids)[k] == Flip(id) && Flip(id) in Members(FlipAll(ids));
        FlipTwice(id);
      }
      if id in Flips(Members(FlipAll(ids))) {
        var k :| 0 <= k < |ids| && Flip(FlipAll(ids)[k]) == id;
        FlipTwice(ids[k]);
        assert ids[k] in ids;
      }
    }
  }

  // A field that lists these identifiers, in any order, each with its bytes in the
  // opposite order.
  ghost predicate ListsFlipped(raw: seq<Byte>, ids: seq<Id>) {
    exists order :: multiset(order) == multiset(ids) && raw == Joined(FlipAll(order))
  }

  // A field that starts with these identifiers, in any order.
  ghost predicate ListsFirst(raw: seq<Byte>, ids: seq<Id>) {
    exists order, rest :: multiset(order) == multiset(ids) && raw == Joined(order) + rest
  }

  lemma SameMembers(order: seq<Id>, ids: seq<Id>)
    requires multiset(order) == multiset(ids) && Wellformed(ids)
    ensures |order| == |ids| && Members(order) == Members(ids)
    ensures forall i :: 0 <= i < |order| ==> |order[i]| == 8 && Nonzero(order[i])
  {
    SameLength(order, ids);
    assert forall id :: id in order <==> id in multiset(order);
    assert forall id :: id in ids <==> id in multiset(ids);
    forall i | 0 <= i < |order|
      ensures |order[i]| == 8 && Nonzero(order[i])
    {
      assert order[i] in order && order[i] in ids;
    }
  }

  lemma FlippedIds(order: seq<Id>)
    requires forall i :: 0 <= i < |order| ==> |order[i]| == 8 && Nonzero(order[i])
    ensures |Joined(FlipAll(order))| == 8 * |order|
    ensures Flips(Ids(Joined(FlipAll(order)), |order|)) == Members(order)
  {
    var flipped := FlipAll(order);
    forall i | 0 <= i < |order|
      ensures |flipped[i]| == 8 && Nonzero(flipped[i])
    {
      FlipTwice(order[i]);
    }
    IdsOfJoined(flipped, []);
    assert Joined(flipped) + [] == Joined(flipped);
    FlippedMembers(order);
  }

  // The report of a GPU that sees these switches.
  ghost predicate GpuReport(report: Report, switches: seq<Id>) {
    && ValidReport(report)
    && 22 in LastValues(report.fields) && ListsFlipped(LastValues(report.fields)[22], switches)
  }

  // The report of the switch `self` that sees these GPUs.
  ghost predicate SwitchReport(report: Report, self: Id, gpus: seq<Id>) {
    && ValidReport(report)
    && 22 in LastValues(report.fields) && LastValues(report.fields)[22] == self
    && 26 in LastValues(report.fields) && ListsFirst(LastValues(report.fields)[26], gpus)
  }

  lemma GpuReportSays(report: Report, switches: seq<Id>)
    requires GpuReport(report, switches) && Wellformed(switches)
    ensures SwitchesOf(Layout(report)) == Some(Members(switches))
  {
    ParseInvertsLayout(report);
    var raw := LastValues(report.fields)[22];
    var order :| multiset(order) == multiset(switches) && raw == Joined(FlipAll(order));
    SameMembers(order, switches);
    FlippedIds(order);
    assert |raw| / 8 == |order|;
  }

  lemma SwitchReportSays(report: Report, self: Id, gpus: seq<Id>)
    requires SwitchReport(report, self, gpus) && Wellformed(gpus)
    ensures SelfOf(Layout(report)) == Some(self) && GpusOf(Layout(report), |gpus|) == Some(Members(gpus))
  {
    ParseInvertsLayout(report);
    var raw := LastValues(report.fields)[26];
    var order, rest :| multiset(order) == multiset(gpus) && raw == Joined(order) + rest;
    SameMembers(order, gpus);
    IdsOfJoined(order, rest);
  }

  /** A genuine fabric is accepted: every GPU lists all switches in field 22, bytes in
      the opposite order; every switch has its own bytes in field 22 and all GPUs at
      the front of field 26. */
  lemma GenuineFabricIsAccepted(gpuReports: seq<Report>, switchReports: seq<Report>, gpus: seq<Id>, switches: seq<Id>)
    requires gpuReports != [] && |gpus| == |gpuReports| && |switches| == |switchReports|
    requires Wellformed(gpus) && Wellformed(switches)
    requires forall i :: 0 <= i < |gpuReports| ==> GpuReport(gpuReports[i], switches)
    requires forall i :: 0 <= i < |switchReports| ==> SwitchReport(switchReports[i], switches[i], gpus)
    ensures ValidMesh(Mapped(Layout, gpuReports), Mapped(Layout, switchReports), |gpus|, |switches|)
  {
    var g, s := Mapped(Layout, gpuReports), Mapped(Layout, switchReports);
    forall i | 0 <= i < |g|
      ensures SwitchesOf(g[i]) == Some(Members(switches))
    {
      MappedAt(Layout, gpuReports, i);
      GpuReportSays(gpuReports[i], switches);
    }
    forall i | 0 <= i < |s|
      ensures SelfOf(s[i]) == Some(switches[i]) && GpusOf(s[i], |gpus|) == Some(Members(gpus))
    {
      MappedAt(Layout, switchReports, i);
      SwitchReportSays(switchReports[i], switches[i], gpus);
    }
    SaidIsMesh(g, s, gpus, switches);
    AcceptedInBytes(g, s, |gpus|, |switches|);
  }

  lemma SaidIsMesh(g: seq<seq<Byte>>, s: seq<seq<Byte>>, gpus: seq<Id>, switches: seq<Id>)
    requires g != [] && |gpus| == |g| && |switches| == |s| && Wellformed(gpus) && Wellformed(switches)
    requires forall i :: 0 <= i < |g| ==> SwitchesOf(g[i]) == Some(Members(switches))
    requires forall i :: 0 <= i < |s| ==> SelfOf(s[i]) == Some(switches[i]) && GpusOf(s[i], |gpus|) == Some(Members(gpus))
    ensures ByteMesh(g, s, Members(switches), Members(gpus))
  {
    AsManyMembers(gpus);
    AsManyMembers(switches);
    forall i | 0 <= i < |s|
      ensures SwitchSays(s[i], Members(switches), Members(gpus), |g|)
    {
      assert switches[i] in Members(switches);
    }
  }
}
