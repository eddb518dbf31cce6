/**
 The bounded walk over a decoded YAML document. The walk keeps an explicit
 stack; what it accepts is defined here by structural recursion on the tree.

 Source: tinfoil/internal/config/bounds.go, validateYAMLTree.
 */
module YamlTree {
  import opened Options

  const MAX_NODES: nat := 16384
  const MAX_DEPTH: nat := 64
  const MAX_BYTES: nat := 0x10_0000

  datatype Kind = Document | Sequence | Mapping | Scalar | Alias

  // hasAlias: the node's alias pointer is set.
  datatype Node = Node(kind: Kind, value: string, tag: string, anchor: string, hasAlias: bool, content: seq<Node>)

  datatype Check = Accepted | MissingDocument | TooManyNodes | TooDeep | AliasUsed | TooManyBytes

  datatype Pending = Pending(node: Node, depth: nat)

  // ---------- What the limits mean, by recursion on the tree ----------

  function Count(node: Node): nat {
    1 + CountAll(node.content)
  }

  function CountAll(nodes: seq<Node>): nat {
    if nodes == [] then 0 else Count(nodes[0]) + CountAll(nodes[1..])
  }

  function Height(node: Node): nat {
    if node.content == [] then 0 else 1 + MaxHeight(node.content)
  }

  function MaxHeight(nodes: seq<Node>): nat {
    if nodes == [] then 0
    else
      var first, rest := Height(nodes[0]), MaxHeight(nodes[1..]);
      if first >= rest then first else rest
  }

  function OwnBytes(node: Node): nat {
    |node.value| + |node.tag| + |node.anchor|
  }

  function Bytes(node: Node): nat {
    OwnBytes(node) + BytesAll(node.content)
  }

  function BytesAll(nodes: seq<Node>): nat {
    if nodes == [] then 0 else Bytes(nodes[0]) + BytesAll(nodes[1..])
  }

  predicate IsAlias(node: Node) {
    node.kind == Alias || node.hasAlias
  }

  predicate AliasFree(node: Node) {
    !IsAlias(node) && forall child | child in node.content :: AliasFree(child)
  }

  predicate WithinLimits(root: Node) {
    && Count(root) <= 16384
    && Height(root) <= 64
    && Bytes(root) <= 0x10_0000
    && AliasFree(root)
  }

  // ---------- The order of the walk ----------

  /** The nodes below and including `node`, parents before children and siblings
      in document order, each with its depth. */
  function Preorder(node: Node, depth: nat): seq<Pending>
    decreases node, 0
  {
    [Pending(node, depth)] + PreorderAll(node.content, depth + 1)
  }

  function PreorderAll(nodes: seq<Node>, depth: nat): seq<Pending>
    decreases nodes, 1
  {
    if nodes == [] then [] else Preorder(nodes[0], depth) + PreorderAll(nodes[1..], depth)
  }

  /** What is still to be visited when `stack` is the walk's stack (top last). */
  function Remaining(stack: seq<Pending>): seq<Pending> {
    if stack == [] then []
    else
      var top := stack[|stack| - 1];
      Preorder(top.node, top.depth) + Remaining(stack[..|stack| - 1])
  }

  /** The first limit broken when `visits` follow `count` nodes and `bytes` bytes. */
  function FirstViolation(visits: seq<Pending>, count: nat, bytes: nat): Check {
    if visits == [] then Accepted
    else
      var visit := visits[0];
      if count + 1 > MAX_NODES then TooManyNodes
      else if visit.depth > MAX_DEPTH then TooDeep
      else if IsAlias(visit.node) then AliasUsed
      else if bytes + OwnBytes(visit.node) > MAX_BYTES then TooManyBytes
      else FirstViolation(visits[1..], count + 1, bytes + OwnBytes(visit.node))
  }

  /** validateYAMLTree. */
  method ValidateYamlTree(root: Option<Node>) returns (result: Check)
    ensures root.None? ==> result == MissingDocument
    ensures root.Some? ==> result == FirstViolation(Preorder(root.value, 0), 0, 0)
    ensures result == Accepted <==> root.Some? && WithinLimits(root.value)
  {
    if root.None? {
      return MissingDocument;
    }
    var stack := [Pending(root.value, 0)];
    var count: nat, valueBytes: nat := 0, 0;
    ghost var verdict := FirstViolation(Preorder(root.value, 0), 0, 0);
    assert stack[..0] == [];
    assert Remaining(stack) == Preorder(root.value, 0);
    AcceptedMeansWithinLimits(root.value);
    while stack != []
      invariant FirstViolation(Remaining(stack), count, valueBytes) == verdict
      decreases |Remaining(stack)|
    {
      var last := |stack| - 1;
      var pending := stack[last];
      ghost var before := Remaining(stack);
      stack := stack[..last];
      assert before[0] == pending;
      assert before[1..] == PreorderAll(pending.node.content, pending.depth + 1) + Remaining(stack);
      count := count + 1;
      if count > MAX_NODES {
        return TooManyNodes;
      }
      if pending.depth > MAX_DEPTH {
        return TooDeep;
      }
      if pending.node.kind == Alias || pending.node.hasAlias {
        return AliasUsed;
      }
      valueBytes := valueBytes + |pending.node.value| + |pending.node.tag| + |pending.node.anchor|;
      if valueBytes > MAX_BYTES {
        return TooManyBytes;
      }
      stack := PushChildren(stack, pending);
    }
    return Accepted;
  }

  // The inner loop of the walk: children are pushed last to first.
  method PushChildren(below: seq<Pending>, pending: Pending) returns (stack: seq<Pending>)
    ensures Remaining(stack) == PreorderAll(pending.node.content, pending.depth + 1) + Remaining(below)
  {
    stack := below;
    var children := pending.node.content;
    for index := |children| downto 0
      invariant Remaining(stack) == PreorderAll(children[index..], pending.depth + 1) + Remaining(below)
    {
      ghost var under := stack;
      stack := stack + [Pending(children[index], pending.depth + 1)];
      assert stack[..|stack| - 1] == under;
      assert children[index..][0] == children[index] && children[index..][1..] == children[index + 1..];
    }
  }

  // ---------- The walk and the recursive limits agree ----------

  function VisitBytes(visits: seq<Pending>): nat {
    if visits == [] then 0 else OwnBytes(visits[0].node) + VisitBytes(visits[1..])
  }

  lemma {:induction false} NoViolation(visits: seq<Pending>, count: nat, bytes: nat)
    requires count <= MAX_NODES && bytes <= MAX_BYTES
    ensures FirstViolation(visits, count, bytes) == Accepted <==>
            && count + |visits| <= MAX_NODES
            && bytes + VisitBytes(visits) <= MAX_BYTES
            && forall visit :: visit in visits ==> visit.depth <= MAX_DEPTH && !IsAlias(visit.node)
  {
    if visits != [] {
      var first, rest := visits[0], visits[1..];
      assert forall visit :: visit in visits <==> visit == first || visit in rest;
      if count + 1 <= MAX_NODES && bytes + OwnBytes(first.node) <= MAX_BYTES {
        NoViolation(rest, count + 1, bytes + OwnBytes(first.node));
      }
    }
  }

  // The limits that the walk finds broken at its `k`th visit, in the order in which
  // it looks.
  ghost predicate Breaks(visits: seq<Pending>, k: nat, reason: Check)
    requires k < |visits|
  {
    match reason
    case TooManyNodes => k >= 16384
    case TooDeep => visits[k].depth > 64
    case AliasUsed => visits[k].node.kind == Alias || visits[k].node.hasAlias
    case TooManyBytes => VisitBytes(visits[..k + 1]) > 0x10_0000
    case _ => false
  }

  ghost predicate BreaksNone(visits: seq<Pending>, k: nat)
    requires k < |visits|
  {
    !Breaks(visits, k, TooManyNodes) && !Breaks(visits, k, TooDeep) && !Breaks(visits, k, AliasUsed) && !Breaks(visits, k, TooManyBytes)
  }

  // Which of the limits broken at a visit is reported.
  ghost predicate IsReported(visits: seq<Pending>, k: nat, reason: Check)
    requires k < |visits|
  {
    && Breaks(visits, k, reason)
    && (reason != TooManyNodes ==> !Breaks(visits, k, TooManyNodes))
    && (reason == AliasUsed || reason == TooManyBytes ==> !Breaks(visits, k, TooDeep))
    && (reason == TooManyBytes ==> !Breaks(visits, k, AliasUsed))
  }

  // The walk from its `k`th visit on.
  function From(visits: seq<Pending>, k: nat): Check
    requires k <= |visits|
  {
    FirstViolation(visits[k..], k, VisitBytes(visits[..k]))
  }

  lemma OneVisit(visits: seq<Pending>, k: nat)
    requires k < |visits|
    ensures BreaksNone(visits, k) ==> From(visits, k) == From(visits, k + 1)
    ensures forall reason :: IsReported(visits, k, reason) ==> From(visits, k) == reason
  {
    VisitBytesConcat(visits[..k], [visits[k]]);
    assert visits[..k] + [visits[k]] == visits[..k + 1];
    assert visits[k..][1..] == visits[k + 1..];
    assert [visits[k]][1..] == [];
  }

  /** What is reported is the first limit broken at the first visit, in document
      order, that breaks one. */
  lemma {:induction false} ReportsTheFirst(root: Node, k: nat, reason: Check)
    requires var visits := Preorder(root, 0);
             k < |visits| && IsReported(visits, k, reason) && forall j :: 0 <= j < k ==> BreaksNone(visits, j)
    ensures FirstViolation(Preorder(root, 0), 0, 0) == reason
  {
    var visits := Preorder(root, 0);
    for j := 0 to k
      invariant From(visits, j) == From(visits, 0)
    {
      assert BreaksNone(visits, j);
      OneVisit(visits, j);
    }
    OneVisit(visits, k);
    assert visits[0..] == visits && visits[..0] == [];
  }

  lemma {:induction false} VisitBytesConcat(a: seq<Pending>, b: seq<Pending>)
    ensures VisitBytes(a + b) == VisitBytes(a) + VisitBytes(b)
  {
    if a == [] {
      assert a + b == b;
    } else {
      VisitBytesConcat(a[1..], b);
      assert (a + b)[1..] == a[1..] + b;
    }
  }

  // Depth and alias conditions on a list of visits.
  predicate Clean(visits: seq<Pending>, limit: int) {
    forall visit :: visit in visits ==> visit.depth <= limit && !IsAlias(visit.node)
  }

  lemma {:induction false} PreorderMeasures(node: Node, depth: nat, limit: nat)
    requires depth <= limit
    ensures |Preorder(node, depth)| == Count(node)
    ensures VisitBytes(Preorder(node, depth)) == Bytes(node)
    ensures Clean(Preorder(node, depth), limit) <==> depth + Height(node) <= limit && AliasFree(node)
    decreases node, 0
  {
    var first, below := [Pending(node, depth)], PreorderAll(node.content, depth + 1);
    VisitBytesConcat(first, below);
    assert first[1..] == [];
    assert forall visit :: visit in Preorder(node, depth) <==> visit == first[0] || visit in below;
    PreorderAllMeasures(node.content, depth + 1, limit);
  }

  lemma {:induction false} PreorderAllMeasures(nodes: seq<Node>, depth: nat, limit: nat)
    requires depth <= limit + 1
    ensures |PreorderAll(nodes, depth)| == CountAll(nodes)
    ensures VisitBytes(PreorderAll(nodes, depth)) == BytesAll(nodes)
    ensures Clean(PreorderAll(nodes, depth), limit) <==>
            (nodes != [] ==> depth + MaxHeight(nodes) <= limit) && forall node | node in nodes :: AliasFree(node)
    decreases nodes, 1
  {
    if nodes != [] {
      var first, rest := Preorder(nodes[0], depth), PreorderAll(nodes[1..], depth);
      VisitBytesConcat(first, rest);
      assert forall visit :: visit in PreorderAll(nodes, depth) <==> visit in first || visit in rest;
      assert Clean(first + rest, limit) <==> Clean(first, limit) && Clean(rest, limit);
      assert forall node :: node in nodes <==> node == nodes[0] || node in nodes[1..];
      PreorderAllMeasures(nodes[1..], depth, limit);
      if depth <= limit {
        PreorderMeasures(nodes[0], depth, limit);
      } else {
        PreorderMeasures(nodes[0], depth, depth);
        assert Pending(nodes[0], depth) in first;
      }
    }
  }

  /** For every finite tree: walking it in document order finds no violation if
      and only if the tree as a whole is within the four limits. */
  lemma AcceptedMeansWithinLimits(root: Node)
    ensures FirstViolation(Preorder(root, 0), 0, 0) == Accepted <==> WithinLimits(root)
  {
    NoViolation(Preorder(root, 0), 0, 0);
    PreorderMeasures(root, 0, MAX_DEPTH);
  }
}
