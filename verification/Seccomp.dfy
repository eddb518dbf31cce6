/**
 The service seccomp filter: a policy compiled into a classic BPF program, the
 machine that runs it, and the proof that the two agree.

 Source: tinfoil/internal/pid1/hardening/seccomp_linux_amd64.go.
 */
module Seccomp {
  import opened Options
  import Sequences

  type Word = bv32
  type Jump8 = j: nat | j < 256   // a jump offset of a BPF instruction

  // struct seccomp_data is 64 bytes, read here as sixteen little-endian words:
  // the system call number, the architecture, the instruction pointer (2 words)
  // and six 64-bit arguments, low word first.
  type Data = words: seq<Word> | |words| == 16 witness seq(16, _ => 0)

  const MAX_INSNS: nat := 4096   // BPF_MAXINSNS

  const NUMBER_OFFSET: nat := 0
  const ARCH_OFFSET: nat := 4
  const ARG0_OFFSET: nat := 16

  const AUDIT_ARCH_X86_64: Word := 0xC000_003E
  const X32_SYSCALL_BIT: Word := 0x4000_0000
  const NAMESPACE_CLONE_FLAGS: Word := 0x7E02_0080
  const SYS_SOCKET: Word := 41
  const SYS_CLONE: Word := 56
  const SYS_CLONE3: Word := 435

  const RET_KILL_PROCESS: Word := 0x8000_0000
  const RET_ERRNO: Word := 0x0005_0000
  const RET_ALLOW: Word := 0x7FFF_0000
  const EPERM: Word := 1
  const ENOSYS: Word := 38
  const EAFNOSUPPORT: Word := 97

  function Number(data: Data): Word { data[NUMBER_OFFSET / 4] }
  function Arch(data: Data): Word { data[ARCH_OFFSET / 4] }
  function Arg0(data: Data): Word { data[ARG0_OFFSET / 4] }

  // ---------- The machine ----------

  datatype Test = Eq | Ge | AnySet

  datatype Insn =
    | Load(offset: nat)
    | Jump(test: Test, k: Word, jt: Jump8, jf: Jump8)
    | Return(k: Word)

  datatype Outcome = Returned(value: Word) | Fault

  predicate Holds(test: Test, acc: Word, k: Word) {
    match test
    case Eq => acc == k
    case Ge => acc >= k
    case AnySet => acc & k != 0
  }

  // How far a jump moves, counted from itself.
  function Taken(jump: Insn, acc: Word): nat
    requires jump.Jump?
  {
    1 + (if Holds(jump.test, acc, jump.k) then jump.jt else jump.jf)
  }

  /** Runs `program` from instruction `pc`. Jumps are relative to the next
      instruction; leaving the program or the data is a fault. */
  function Run(program: seq<Insn>, pc: nat, acc: Word, data: Data): Outcome
    decreases |program| - pc
  {
    if pc >= |program| then Fault
    else match program[pc]
      case Load(offset) =>
        if offset % 4 == 0 && offset < 64 then Run(program, pc + 1, data[offset / 4], data) else Fault
      case Jump(_, _, _, _) => Run(program, pc + Taken(program[pc], acc), acc, data)
      case Return(k) => Returned(k)
  }

  /** The kernel installs a filter of at most BPF_MAXINSNS instructions that is in
      bounds. It is told the number of instructions as a 16-bit value. */
  ghost predicate Installable(program: seq<Insn>) {
    |program| <= MAX_INSNS && InBounds(program)
  }

  function Passed(program: seq<Insn>): seq<Insn> { program[..|program| % 0x1_0000] }

  /** Every load is an aligned word of seccomp_data, both targets of every jump are
      inside the program, and the last instruction returns. */
  ghost predicate InBounds(program: seq<Insn>) {
    && program != []
    && program[|program| - 1].Return?
    && forall i :: 0 <= i < |program| ==> InsnInBounds(program[i], i, |program|)
  }

  predicate InsnInBounds(insn: Insn, pc: nat, length: nat) {
    match insn
    case Load(offset) => offset % 4 == 0 && offset < 64
    case Jump(_, _, jt, jf) => pc + 1 + jt < length && pc + 1 + jf < length
    case Return(_) => true
  }

  // ---------- The policy ----------

  /** What the denied list, the namespace restriction and the optional list of
      socket domains ask for, without reference to instructions. */
  function Verdict(denied: seq<Word>, restrictNamespaces: bool, domains: Option<seq<Word>>, data: Data): Word {
    var number := Number(data);
    if Arch(data) != AUDIT_ARCH_X86_64 then RET_KILL_PROCESS
    else if number >= X32_SYSCALL_BIT then RET_ERRNO | ENOSYS
    else if number in denied then RET_ERRNO | (if number == SYS_CLONE3 then ENOSYS else EPERM)
    else if restrictNamespaces && number == SYS_CLONE && Arg0(data) & NAMESPACE_CLONE_FLAGS != 0 then RET_ERRNO | EPERM
    else if domains.Some? && number == SYS_SOCKET && Arg0(data) !in domains.value then RET_ERRNO | EAFNOSUPPORT
    else RET_ALLOW
  }

  // ---------- The compiler ----------

  const HEADER: seq<Insn> := [
    Load(ARCH_OFFSET),
    Jump(Eq, AUDIT_ARCH_X86_64, 1, 0),
    Return(RET_KILL_PROCESS),
    Load(NUMBER_OFFSET),
    Jump(Ge, X32_SYSCALL_BIT, 0, 1),
    Return(RET_ERRNO | ENOSYS)
  ]

  function DeniedPair(number: Word): seq<Insn> {
    [ Jump(Eq, number, 0, 1), Return(RET_ERRNO | (if number == SYS_CLONE3 then ENOSYS else EPERM)) ]
  }

  function DeniedSegment(denied: seq<Word>): seq<Insn> {
    if denied == [] then []
    else DeniedSegment(denied[..|denied| - 1]) + DeniedPair(denied[|denied| - 1])
  }

  const NAMESPACE_SEGMENT: seq<Insn> := [
    Jump(Eq, SYS_CLONE, 0, 3),
    Load(ARG0_OFFSET),
    Jump(AnySet, NAMESPACE_CLONE_FLAGS, 0, 1),
    Return(RET_ERRNO | EPERM),
    Load(NUMBER_OFFSET)
  ]

  function DomainPair(domain: Word): seq<Insn> {
    [ Jump(Eq, domain, 0, 1), Return(RET_ALLOW) ]
  }

  function DomainPairs(domains: seq<Word>): (pairs: seq<Insn>)
    ensures |pairs| == 2 * |domains|
  {
    if domains == [] then []
    else DomainPairs(domains[..|domains| - 1]) + DomainPair(domains[|domains| - 1])
  }

  // The source converts the distance to uint8, which wraps.
  function SocketJump(domains: seq<Word>): Jump8 { (2 * |domains| + 2) % 256 }

  function SocketHead(domains: seq<Word>): seq<Insn> {
    [ Jump(Eq, SYS_SOCKET, 0, SocketJump(domains)), Load(ARG0_OFFSET) ]
  }

  function DomainSegment(domains: seq<Word>): seq<Insn> {
    SocketHead(domains) + DomainPairs(domains) + [ Return(RET_ERRNO | EAFNOSUPPORT) ]
  }

  function AfterDenied(restrictNamespaces: bool, domains: Option<seq<Word>>): seq<Insn> {
    (if restrictNamespaces then NAMESPACE_SEGMENT else []) +
    ((if domains.Some? then DomainSegment(domains.value) else []) + [ Return(RET_ALLOW) ])
  }

  function Program(denied: seq<Word>, restrictNamespaces: bool, domains: Option<seq<Word>>): seq<Insn> {
    HEADER + (DeniedSegment(denied) + AfterDenied(restrictNamespaces, domains))
  }

  /** serviceSeccompFilters: grows the filter list by appending. */
  method ServiceSeccompFilters(denied: seq<Word>, restrictNamespaces: bool, domains: Option<seq<Word>>)
    returns (filters: seq<Insn>)
    ensures filters == Program(denied, restrictNamespaces, domains)
  {
    filters := HEADER;
    for i := 0 to |denied|
      invariant filters == HEADER + DeniedSegment(denied[..i])
    {
      var errno := EPERM;
      if denied[i] == SYS_CLONE3 {
        errno := ENOSYS;
      }
      filters := filters + [Jump(Eq, denied[i], 0, 1), Return(RET_ERRNO | errno)];
      DeniedSegmentGrows(denied, i);
    }
    assert denied[..|denied|] == denied;
    filters := AppendAfterDenied(filters, restrictNamespaces, domains);
    Sequences.ConcatIsAssociative(HEADER, DeniedSegment(denied), AfterDenied(restrictNamespaces, domains));
  }

  // The rest of it, after the denied list.
  method AppendAfterDenied(before: seq<Insn>, restrictNamespaces: bool, domains: Option<seq<Word>>) returns (filters: seq<Insn>)
    ensures filters == before + AfterDenied(restrictNamespaces, domains)
  {
    filters := before;
    ghost var namespaces, domainsOnly := [], [];
    if restrictNamespaces {
      filters := filters + NAMESPACE_SEGMENT;
      namespaces := NAMESPACE_SEGMENT;
    }
    assert filters == before + namespaces;
    if domains.Some? {
      filters := AppendDomains(filters, domains.value);
      domainsOnly := DomainSegment(domains.value);
    }
    assert filters == (before + namespaces) + domainsOnly;
    filters := filters + [Return(RET_ALLOW)];
    Sequences.ConcatIsAssociative(before + namespaces, domainsOnly, [Return(RET_ALLOW)]);
    Sequences.ConcatIsAssociative(before, namespaces, domainsOnly + [Return(RET_ALLOW)]);
  }

  // The `if domains != nil` block of the same function.
  method AppendDomains(before: seq<Insn>, domains: seq<Word>) returns (filters: seq<Insn>)
    ensures filters == before + DomainSegment(domains)
  {
    filters := before + [Jump(Eq, SYS_SOCKET, 0, (2 * |domains| + 2) % 256), Load(ARG0_OFFSET)];
    for i := 0 to |domains|
      invariant filters == before + SocketHead(domains) + DomainPairs(domains[..i])
    {
      filters := filters + [Jump(Eq, domains[i], 0, 1), Return(RET_ALLOW)];
      DomainPairsGrow(domains, i);
    }
    assert domains[..|domains|] == domains;
    filters := filters + [Return(RET_ERRNO | EAFNOSUPPORT)];
  }

  lemma DeniedSegmentGrows(denied: seq<Word>, i: nat)
    requires i < |denied|
    ensures DeniedSegment(denied[..i + 1]) == DeniedSegment(denied[..i]) + DeniedPair(denied[i])
  {
    assert denied[..i + 1][..i] == denied[..i];
  }

  lemma DomainPairsGrow(domains: seq<Word>, i: nat)
    requires i < |domains|
    ensures DomainPairs(domains[..i + 1]) == DomainPairs(domains[..i]) + DomainPair(domains[i])
  {
    assert domains[..i + 1][..i] == domains[..i];
  }

  // ---------- Running a suffix ----------

  /** The same machine, with the instructions already passed thrown away. */
  function Exec(rest: seq<Insn>, acc: Word, data: Data): Outcome
    decreases |rest|
  {
    if rest == [] then Fault
    else match rest[0]
      case Load(offset) =>
        if offset % 4 == 0 && offset < 64 then Exec(rest[1..], data[offset / 4], data) else Fault
      case Jump(_, _, _, _) =>
        var step := Taken(rest[0], acc);
        if step > |rest| then Fault else Exec(rest[step..], acc, data)
      case Return(k) => Returned(k)
  }

  lemma {:induction false} RunIsExec(program: seq<Insn>, pc: nat, acc: Word, data: Data)
    requires pc <= |program|
    ensures Run(program, pc, acc, data) == Exec(program[pc..], acc, data)
    decreases |program| - pc
  {
    if pc < |program| {
      match program[pc]
      case Load(offset) =>
        if offset % 4 == 0 && offset < 64 {
          RunIsExec(program, pc + 1, data[offset / 4], data);
          SliceOfSlice(program, pc, 1);
        }
      case Jump(_, _, _, _) =>
        var step := Taken(program[pc], acc);
        if pc + step <= |program| {
          RunIsExec(program, pc + step, acc, data);
        }
        JumpIsSame(program, pc, acc, data, step);
      case Return(_) =>
    }
  }

  lemma JumpIsSame(program: seq<Insn>, pc: nat, acc: Word, data: Data, step: nat)
    requires pc < |program| && program[pc].Jump? && step == Taken(program[pc], acc)
    requires pc + step <= |program| ==> Run(program, pc + step, acc, data) == Exec(program[pc + step..], acc, data)
    ensures Run(program, pc, acc, data) == Exec(program[pc..], acc, data)
  {
    var rest := program[pc..];
    assert rest[0] == program[pc];
    if pc + step <= |program| {
      SliceOfSlice(program, pc, step);
    }
  }

  lemma SliceOfSlice<T>(s: seq<T>, i: nat, j: nat)
    requires i + j <= |s|
    ensures s[i..][j..] == s[i + j..]
  {
  }

  lemma ExecPair(k: Word, ret: Word, rest: seq<Insn>, acc: Word, data: Data)
    ensures Exec([Jump(Eq, k, 0, 1), Return(ret)] + rest, acc, data)
         == if acc == k then Returned(ret) else Exec(rest, acc, data)
  {
    var program := [Jump(Eq, k, 0, 1), Return(ret)] + rest;
    assert program[1..] == [Return(ret)] + rest;
    assert program[2..] == rest;
  }

  lemma {:induction false} ExecDenied(denied: seq<Word>, rest: seq<Insn>, acc: Word, data: Data)
    ensures Exec(DeniedSegment(denied) + rest, acc, data)
         == if acc in denied
            then Returned(RET_ERRNO | (if acc == SYS_CLONE3 then ENOSYS else EPERM))
            else Exec(rest, acc, data)
  {
    if denied == [] {
      assert DeniedSegment(denied) + rest == rest;
    } else {
      var front, last := denied[..|denied| - 1], denied[|denied| - 1];
      assert DeniedSegment(denied) + rest == DeniedSegment(front) + (DeniedPair(last) + rest);
      ExecDenied(front, DeniedPair(last) + rest, acc, data);
      ExecPair(last, RET_ERRNO | (if last == SYS_CLONE3 then ENOSYS else EPERM), rest, acc, data);
      assert denied == front + [last];
    }
  }

  lemma {:induction false} ExecDomains(domains: seq<Word>, rest: seq<Insn>, acc: Word, data: Data)
    ensures Exec(DomainPairs(domains) + rest, acc, data)
         == if acc in domains then Returned(RET_ALLOW) else Exec(rest, acc, data)
  {
    if domains == [] {
      assert DomainPairs(domains) + rest == rest;
    } else {
      var front, last := domains[..|domains| - 1], domains[|domains| - 1];
      assert DomainPairs(domains) + rest == DomainPairs(front) + (DomainPair(last) + rest);
      ExecDomains(front, DomainPair(last) + rest, acc, data);
      ExecPair(last, RET_ALLOW, rest, acc, data);
      assert domains == front + [last];
    }
  }

  /** Every odd position of the domain pairs allows: a jump into the list that
      falls short of its end still lands on an allow, unless it falls at once. */
  lemma {:induction false} OddDomainInsnAllows(domains: seq<Word>, i: nat)
    requires i < |domains|
    ensures DomainPairs(domains)[2 * i + 1] == Return(RET_ALLOW)
  {
    if i < |domains| - 1 {
      OddDomainInsnAllows(domains[..|domains| - 1], i);
    }
  }

  /** Where the wrapped jump of a call that is not socket(2) ends up. */
  lemma ExecSocketJump(domains: seq<Word>, number: Word, data: Data)
    requires number != SYS_SOCKET
    ensures Exec(DomainSegment(domains) + [Return(RET_ALLOW)], number, data)
         == if |domains| % 128 != 127 then Returned(RET_ALLOW)
            else Exec([Load(ARG0_OFFSET)] + DomainPairs(domains) + [Return(RET_ERRNO | EAFNOSUPPORT), Return(RET_ALLOW)], number, data)
  {
    var program := DomainSegment(domains) + [Return(RET_ALLOW)];
    var j := SocketJump(domains);
    assert Taken(program[0], number) == 1 + j;
    assert Exec(program, number, data) == Exec(program[1 + j..], number, data);
    if |domains| % 128 == 127 {
      assert program[1..] == [Load(ARG0_OFFSET)] + DomainPairs(domains) + [Return(RET_ERRNO | EAFNOSUPPORT), Return(RET_ALLOW)];
    } else {
      JumpLandsOnAllow(domains);
      assert program[1 + j..][0] == Return(RET_ALLOW);
    }
  }

  lemma JumpLandsOnAllow(domains: seq<Word>)
    requires |domains| % 128 != 127
    ensures (DomainSegment(domains) + [Return(RET_ALLOW)])[1 + SocketJump(domains)] == Return(RET_ALLOW)
  {
    var j := SocketJump(domains);
    assert 2 <= j <= 2 * |domains| + 2 && j % 2 == 0;
    if j < 2 * |domains| + 2 {
      OddDomainInsnAllows(domains, j / 2 - 1);
      assert (DomainSegment(domains) + [Return(RET_ALLOW)])[1 + j] == DomainPairs(domains)[j - 1];
    }
  }

  /** The calls the wrapped jump byte of the source sends astray: anything but
      socket(2) that reaches the domain check, when the list's length is 127
      modulo 128 and the first argument is not a listed domain. */
  predicate JumpFallsThrough(domains: Option<seq<Word>>, data: Data) {
    && domains.Some?
    && |domains.value| % 128 == 127
    && Number(data) != SYS_SOCKET
    && Arg0(data) !in domains.value
  }

  lemma ExecDomainSegment(domains: seq<Word>, data: Data)
    ensures Exec(DomainSegment(domains) + [Return(RET_ALLOW)], Number(data), data)
         == if (Number(data) == SYS_SOCKET && Arg0(data) !in domains) || JumpFallsThrough(Some(domains), data)
            then Returned(RET_ERRNO | EAFNOSUPPORT) else Returned(RET_ALLOW)
  {
    var tail := [Return(RET_ERRNO | EAFNOSUPPORT), Return(RET_ALLOW)];
    var loaded := [Load(ARG0_OFFSET)] + DomainPairs(domains) + tail;
    assert loaded[1..] == DomainPairs(domains) + tail;
    ExecDomains(domains, tail, Arg0(data), data);
    if Number(data) == SYS_SOCKET {
      var program := DomainSegment(domains) + [Return(RET_ALLOW)];
      assert program[1..] == loaded;
      assert Exec(program, Number(data), data) == Exec(program[1..], Number(data), data);
    } else {
      ExecSocketJump(domains, Number(data), data);
    }
  }

  // Executing `insn` and then `rest`.
  function ExecThen(insn: Insn, rest: seq<Insn>, acc: Word, data: Data): Outcome {
    match insn
    case Load(offset) =>
      if offset % 4 == 0 && offset < 64 then Exec(rest, data[offset / 4], data) else Fault
    case Jump(test, k, jt, jf) =>
      var skip := if Holds(test, acc, k) then jt else jf;
      if skip > |rest| then Fault else Exec(rest[skip..], acc, data)
    case Return(k) => Returned(k)
  }

  lemma ExecCons(insn: Insn, rest: seq<Insn>, acc: Word, data: Data)
    ensures Exec([insn] + rest, acc, data) == ExecThen(insn, rest, acc, data)
  {
    var program := [insn] + rest;
    assert program[1..] == rest;
    if insn.Jump? {
      var skip := if Holds(insn.test, acc, insn.k) then insn.jt else insn.jf;
      if skip <= |rest| {
        assert program[1 + skip..] == rest[skip..];
      }
    }
  }

  lemma ExecNamespaces(rest: seq<Insn>, data: Data)
    ensures Exec(NAMESPACE_SEGMENT + rest, Number(data), data)
         == if Number(data) == SYS_CLONE && Arg0(data) & NAMESPACE_CLONE_FLAGS != 0
            then Returned(RET_ERRNO | EPERM) else Exec(rest, Number(data), data)
  {
    var reload := [Load(NUMBER_OFFSET)] + rest;
    var refuse := [Return(RET_ERRNO | EPERM)] + reload;
    var flags := [Jump(AnySet, NAMESPACE_CLONE_FLAGS, 0, 1)] + refuse;
    var load := [Load(ARG0_OFFSET)] + flags;
    assert NAMESPACE_SEGMENT + rest == [Jump(Eq, SYS_CLONE, 0, 3)] + load;
    assert load[0..] == load && load[3..] == reload;
    assert flags[0..] == flags && refuse[0..] == refuse && refuse[1..] == reload;
    ExecCons(Jump(Eq, SYS_CLONE, 0, 3), load, Number(data), data);
    ExecCons(Load(ARG0_OFFSET), flags, Number(data), data);
    ExecCons(Jump(AnySet, NAMESPACE_CLONE_FLAGS, 0, 1), refuse, Arg0(data), data);
    ExecCons(Return(RET_ERRNO | EPERM), reload, Arg0(data), data);
    ExecCons(Load(NUMBER_OFFSET), rest, Arg0(data), data);
    ExecCons(Load(NUMBER_OFFSET), rest, Number(data), data);
  }

  lemma ExecHeader(rest: seq<Insn>, acc: Word, data: Data)
    ensures Exec(HEADER + rest, acc, data)
         == if Arch(data) != AUDIT_ARCH_X86_64 then Returned(RET_KILL_PROCESS)
            else if Number(data) >= X32_SYSCALL_BIT then Returned(RET_ERRNO | ENOSYS)
            else Exec(rest, Number(data), data)
  {
    var x32 := [Return(RET_ERRNO | ENOSYS)] + rest;
    var limit := [Jump(Ge, X32_SYSCALL_BIT, 0, 1)] + x32;
    var number := [Load(NUMBER_OFFSET)] + limit;
    var kill := [Return(RET_KILL_PROCESS)] + number;
    var arch := [Jump(Eq, AUDIT_ARCH_X86_64, 1, 0)] + kill;
    assert HEADER + rest == [Load(ARCH_OFFSET)] + arch;
    assert kill[0..] == kill && kill[1..] == number && x32[0..] == x32 && x32[1..] == rest;
    ExecCons(Load(ARCH_OFFSET), arch, acc, data);
    ExecCons(Jump(Eq, AUDIT_ARCH_X86_64, 1, 0), kill, Arch(data), data);
    ExecCons(Return(RET_KILL_PROCESS), number, Arch(data), data);
    ExecCons(Load(NUMBER_OFFSET), limit, Arch(data), data);
    ExecCons(Jump(Ge, X32_SYSCALL_BIT, 0, 1), x32, Number(data), data);
    ExecCons(Return(RET_ERRNO | ENOSYS), rest, Number(data), data);
  }

  // ---------- Main results ----------

  /** For every policy and every system call: running the compiled program
      returns, and returns the policy's verdict, except on the calls
      JumpFallsThrough names, which get EAFNOSUPPORT. */
  lemma CompiledVerdict(denied: seq<Word>, restrictNamespaces: bool, domains: Option<seq<Word>>, data: Data)
    ensures Run(Program(denied, restrictNamespaces, domains), 0, 0, data)
         == Returned(
              if Verdict(denied, restrictNamespaces, domains, data) == RET_ALLOW && JumpFallsThrough(domains, data)
              then RET_ERRNO | EAFNOSUPPORT
              else Verdict(denied, restrictNamespaces, domains, data))
  {
    var program := Program(denied, restrictNamespaces, domains);
    var tail := (if domains.Some? then DomainSegment(domains.value) else []) + [Return(RET_ALLOW)];
    var after := AfterDenied(restrictNamespaces, domains);
    RunIsExec(program, 0, 0, data);
    assert program[0..] == program;
    ExecHeader(DeniedSegment(denied) + after, 0, data);
    ExecDenied(denied, after, Number(data), data);
    if restrictNamespaces {
      ExecNamespaces(tail, data);
    } else {
      assert after == tail;
    }
    if domains.Some? {
      ExecDomainSegment(domains.value, data);
    } else {
      assert tail == [Return(RET_ALLOW)];
    }
  }

  /** The compiled program computes the policy on a call if and only if the call
      is not one the wrapped jump misroutes; with at most 126 domains it never is. */
  lemma CompilerIsCorrectExactlyWhen(denied: seq<Word>, restrictNamespaces: bool, domains: Option<seq<Word>>, data: Data)
    ensures Run(Program(denied, restrictNamespaces, domains), 0, 0, data) == Returned(Verdict(denied, restrictNamespaces, domains, data))
       <==> !(JumpFallsThrough(domains, data) && Verdict(denied, restrictNamespaces, domains, data) == RET_ALLOW)
    ensures domains.None? || |domains.value| <= 126 ==> !JumpFallsThrough(domains, data)
  {
    CompiledVerdict(denied, restrictNamespaces, domains, data);
  }

  ghost predicate Correct(denied: seq<Word>, restrictNamespaces: bool, domains: Option<seq<Word>>, data: Data) {
    Run(Program(denied, restrictNamespaces, domains), 0, 0, data) == Returned(Verdict(denied, restrictNamespaces, domains, data))
  }

  // A call the policy allows although it is not socket(2) and its first argument
  // is not a listed domain.
  predicate AllowedUnlisted(denied: seq<Word>, restrictNamespaces: bool, domains: seq<Word>, number: Word, arg0: Word) {
    && number < X32_SYSCALL_BIT && number !in denied && number != SYS_SOCKET && arg0 !in domains
    && !(restrictNamespaces && number == SYS_CLONE && arg0 & NAMESPACE_CLONE_FLAGS != 0)
  }

  function CallOf(number: Word, arg0: Word): Data {
    [number, AUDIT_ARCH_X86_64, 0, 0, arg0] + seq(11, _ => 0)
  }

  /** What the compiler's caller can check: the program is correct on every call if
      and only if the length of the list is not 127 modulo 128, or the policy allows
      no call with an unlisted first argument but socket(2). */
  lemma CompilerIsCorrectOnEveryCallExactlyWhen(denied: seq<Word>, restrictNamespaces: bool, domains: Option<seq<Word>>)
    ensures (forall data: Data :: Correct(denied, restrictNamespaces, domains, data)) <==>
              !(&& domains.Some? && |domains.value| % 128 == 127
                && exists number, arg0 :: AllowedUnlisted(denied, restrictNamespaces, domains.value, number, arg0))
  {
    forall data: Data
      ensures Correct(denied, restrictNamespaces, domains, data) <==>
                !(JumpFallsThrough(domains, data) && AllowedUnlisted(denied, restrictNamespaces, domains.value, Number(data), Arg0(data)) && Arch(data) == AUDIT_ARCH_X86_64)
    {
      CorrectExactly(denied, restrictNamespaces, domains, data);
    }
    if domains.Some? && |domains.value| % 128 == 127 {
      forall number, arg0 | AllowedUnlisted(denied, restrictNamespaces, domains.value, number, arg0)
        ensures !Correct(denied, restrictNamespaces, domains, CallOf(number, arg0))
      {
        CorrectExactly(denied, restrictNamespaces, domains, CallOf(number, arg0));
      }
    }
  }

  lemma CorrectExactly(denied: seq<Word>, restrictNamespaces: bool, domains: Option<seq<Word>>, data: Data)
    ensures Correct(denied, restrictNamespaces, domains, data) <==>
              !(JumpFallsThrough(domains, data) && AllowedUnlisted(denied, restrictNamespaces, domains.value, Number(data), Arg0(data)) && Arch(data) == AUDIT_ARCH_X86_64)
  {
    CompilerIsCorrectExactlyWhen(denied, restrictNamespaces, domains, data);
    ErrnoIsNotAllow();
  }

  lemma ErrnoIsNotAllow()
    ensures RET_ERRNO | ENOSYS != RET_ALLOW && RET_ERRNO | EPERM != RET_ALLOW && RET_ERRNO | EAFNOSUPPORT != RET_ALLOW
  {
  }

  /** A policy of 127 domains that answers EAFNOSUPPORT to read(2). */
  lemma WrappedJumpWitness()
    ensures exists domains: seq<Word>, data: Data ::
              |domains| == 127 &&
              Verdict([], false, Some(domains), data) == RET_ALLOW &&
              Run(Program([], false, Some(domains)), 0, 0, data) == Returned(RET_ERRNO | EAFNOSUPPORT)
  {
    var domains: seq<Word> := seq(127, _ => 1);
    var data: Data := [0, AUDIT_ARCH_X86_64] + seq(14, _ => 0);
    assert 0 !in domains;
    CompiledVerdict([], false, Some(domains), data);
  }

  // ---------- Installability ----------

  // Prepending instructions whose jumps reach at most the first instruction
  // after them keeps a program in bounds.
  lemma PrependInBounds(segment: seq<Insn>, rest: seq<Insn>)
    requires InBounds(rest)
    requires forall i :: 0 <= i < |segment| ==> InsnInBounds(segment[i], i, |segment| + 1)
    ensures InBounds(segment + rest)
  {
    var program := segment + rest;
    forall i | 0 <= i < |program|
      ensures InsnInBounds(program[i], i, |program|)
    {
      if i >= |segment| {
        assert InsnInBounds(rest[i - |segment|], i - |segment|, |rest|);
      } else {
        assert InsnInBounds(segment[i], i, |segment| + 1);
      }
    }
  }

  lemma {:induction false} PrependDenied(denied: seq<Word>, rest: seq<Insn>)
    requires InBounds(rest)
    ensures InBounds(DeniedSegment(denied) + rest)
  {
    if denied == [] {
      assert DeniedSegment(denied) + rest == rest;
    } else {
      var front, last := denied[..|denied| - 1], denied[|denied| - 1];
      PrependInBounds(DeniedPair(last), rest);
      PrependDenied(front, DeniedPair(last) + rest);
      assert DeniedSegment(denied) + rest == DeniedSegment(front) + (DeniedPair(last) + rest);
    }
  }

  lemma {:induction false} PrependDomains(domains: seq<Word>, rest: seq<Insn>)
    requires InBounds(rest)
    ensures InBounds(DomainPairs(domains) + rest)
  {
    if domains == [] {
      assert DomainPairs(domains) + rest == rest;
    } else {
      var front, last := domains[..|domains| - 1], domains[|domains| - 1];
      PrependInBounds(DomainPair(last), rest);
      PrependDomains(front, DomainPair(last) + rest);
      assert DomainPairs(domains) + rest == DomainPairs(front) + (DomainPair(last) + rest);
    }
  }

  lemma DomainSegmentInBounds(domains: seq<Word>)
    ensures InBounds(DomainSegment(domains) + [Return(RET_ALLOW)])
  {
    var tail := [Return(RET_ERRNO | EAFNOSUPPORT), Return(RET_ALLOW)];
    var pairs := DomainPairs(domains) + tail;
    PrependDomains(domains, tail);
    PrependInBounds([Load(ARG0_OFFSET)], pairs);
    var loaded := [Load(ARG0_OFFSET)] + pairs;
    var program := [SocketHead(domains)[0]] + loaded;
    assert program == DomainSegment(domains) + [Return(RET_ALLOW)];
    forall i | 0 <= i < |program|
      ensures InsnInBounds(program[i], i, |program|)
    {
      if i > 0 {
        assert InsnInBounds(loaded[i - 1], i - 1, |loaded|);
      }
    }
  }

  /** Whatever the lists, wrapped or not: no jump leaves the program and it ends in
      a return. */
  lemma ProgramIsInBounds(denied: seq<Word>, restrictNamespaces: bool, domains: Option<seq<Word>>)
    ensures InBounds(Program(denied, restrictNamespaces, domains))
  {
    var tail := (if domains.Some? then DomainSegment(domains.value) else []) + [Return(RET_ALLOW)];
    if domains.Some? {
      DomainSegmentInBounds(domains.value);
    }
    var after := AfterDenied(restrictNamespaces, domains);
    if restrictNamespaces {
      PrependInBounds(NAMESPACE_SEGMENT, tail);
    } else {
      assert after == tail;
    }
    PrependDenied(denied, after);
    PrependInBounds(HEADER, DeniedSegment(denied) + after);
  }

  function Length(denied: seq<Word>, restrictNamespaces: bool, domains: Option<seq<Word>>): nat {
    7 + 2 * |denied| + (if restrictNamespaces then 5 else 0) + (if domains.Some? then 2 * |domains.value| + 3 else 0)
  }

  lemma {:induction false} DeniedLength(denied: seq<Word>)
    ensures |DeniedSegment(denied)| == 2 * |denied|
  {
    if denied != [] {
      DeniedLength(denied[..|denied| - 1]);
    }
  }

  /** The kernel is handed the whole program and installs it if and only if the
      lists are short enough for its limit. */
  lemma ProgramIsInstallableExactlyWhen(denied: seq<Word>, restrictNamespaces: bool, domains: Option<seq<Word>>)
    ensures var program := Program(denied, restrictNamespaces, domains);
            Passed(program) == program && Installable(program) <==> Length(denied, restrictNamespaces, domains) <= MAX_INSNS
  {
    var program := Program(denied, restrictNamespaces, domains);
    DeniedLength(denied);
    ProgramIsInBounds(denied, restrictNamespaces, domains);
    assert |program| == Length(denied, restrictNamespaces, domains);
    assert |program| <= MAX_INSNS ==> |program| % 0x1_0000 == |program|;
  }
}
