/**
 Device-mapper ioctl buffers: struct dm_ioctl, one struct dm_target_spec and its
 parameter string, written field by field into a zeroed buffer.

 Source: tinfoil/internal/devicemapper/devicemapper.go.
 */
module DmBuffer {
  import opened Bytes

  const IOCTL_SIZE: nat := 312
  const IOCTL_DATA_OFFSET: nat := 305
  const TARGET_SPEC_SIZE: nat := 40
  const NAME_OFFSET: nat := 48
  const NAME_SIZE: nat := 128
  const TYPE_SIZE: nat := 16
  const TARGET_ALIGN: nat := 8
  const MAX_NAME_LENGTH: nat := 127
  const MAX_IOCTL_SIZE: nat := 16 * 1024
  const VERSION_MAJOR: nat := 4

  const READ_ONLY_FLAG: nat := 0x1
  const EXISTS_FLAG: nat := 0x4

  // ---------- Writes into a buffer ----------

  datatype Write =
    | Number(offset: nat, value: nat, width: nat)
    | Text(offset: nat, text: seq<Byte>)

  function Size(write: Write): nat {
    match write
    case Number(_, _, width) => width
    case Text(_, text) => |text|
  }

  function BytesOf(write: Write): (bytes: seq<Byte>)
    ensures |bytes| == Size(write)
  {
    match write
    case Number(_, value, width) => ToLe(value, width)
    case Text(_, text) => text
  }

  predicate Fits(write: Write, size: nat) {
    write.offset + Size(write) <= size
  }

  predicate Disjoint(a: Write, b: Write) {
    a.offset + Size(a) <= b.offset || b.offset + Size(b) <= a.offset
  }

  function Put(buffer: seq<Byte>, write: Write): (after: seq<Byte>)
    requires Fits(write, |buffer|)
    ensures |after| == |buffer|
  {
    buffer[..write.offset] + BytesOf(write) + buffer[write.offset + Size(write)..]
  }

  predicate AllFit(writes: seq<Write>, size: nat) {
    forall w :: w in writes ==> Fits(w, size)
  }

  function PutAll(buffer: seq<Byte>, writes: seq<Write>): (after: seq<Byte>)
    requires AllFit(writes, |buffer|)
    ensures |after| == |buffer|
  {
    if writes == [] then buffer
    else
      var last := writes[|writes| - 1];
      Put(PutAll(buffer, writes[..|writes| - 1]), last)
  }

  function Get(buffer: seq<Byte>, offset: nat, length: nat): seq<Byte>
    requires offset + length <= |buffer|
  {
    buffer[offset..offset + length]
  }

  lemma PutElsewhere(buffer: seq<Byte>, write: Write, offset: nat, length: nat)
    requires Fits(write, |buffer|) && offset + length <= |buffer|
    requires offset + length <= write.offset || write.offset + Size(write) <= offset
    ensures Get(Put(buffer, write), offset, length) == Get(buffer, offset, length)
  {
  }

  /** A write is read back unless a later one overlaps it. */
  lemma {:induction false} WriteIsReadBack(buffer: seq<Byte>, writes: seq<Write>, k: nat)
    requires AllFit(writes, |buffer|) && k < |writes|
    requires forall j :: k < j < |writes| ==> Disjoint(writes[k], writes[j])
    ensures Fits(writes[k], |buffer|)
    ensures Get(PutAll(buffer, writes), writes[k].offset, Size(writes[k])) == BytesOf(writes[k])
  {
    var last := |writes| - 1;
    var front := writes[..last];
    assert writes[k] in writes && writes[last] in writes;
    if k < last {
      assert front[k] == writes[k];
      WriteIsReadBack(buffer, front, k);
      PutElsewhere(PutAll(buffer, front), writes[last], writes[k].offset, Size(writes[k]));
    }
  }

  // ---------- The buffer of a table load ----------

  // align, which the source only ever calls with TARGET_ALIGN.
  function Align(value: nat): (aligned: nat)
    ensures aligned % TARGET_ALIGN == 0
    ensures value <= aligned < value + TARGET_ALIGN
  {
    (value + TARGET_ALIGN - 1) / TARGET_ALIGN * TARGET_ALIGN
  }

  predicate ValidNameByte(c: Byte) {
    || 'a' as int <= c <= 'z' as int
    || 'A' as int <= c <= 'Z' as int
    || '0' as int <= c <= '9' as int
    || c == '-' as int || c == '_' as int || c == '.' as int || c == '+' as int
  }

  predicate ValidName(name: seq<Byte>) {
    && 0 < |name| <= MAX_NAME_LENGTH
    && forall c :: c in name ==> ValidNameByte(c)
  }

  // What putCString writes into a window of `size` bytes.
  function CStringBytes(value: seq<Byte>, size: nat): seq<Byte>
    requires size > 0
  {
    (if |value| < size then value else value[..size - 1]) + [0]
  }

  function BaseWrites(size: nat, name: seq<Byte>): seq<Write> {
    [ Number(0, VERSION_MAJOR, 4),
      Number(4, 0, 4),
      Number(8, 0, 4),
      Number(12, size, 4),
      Number(16, IOCTL_SIZE, 4),
      Text(NAME_OFFSET, CStringBytes(name, NAME_SIZE)) ]
  }

  function TargetSize(params: seq<Byte>): nat { Align(TARGET_SPEC_SIZE + |params| + 1) }

  const TARGET_HEADER: seq<Write> := [ Number(28, READ_ONLY_FLAG + EXISTS_FLAG, 4), Number(20, 1, 4) ]

  function SpecNumbers(lengthSectors: nat, params: seq<Byte>): seq<Write> {
    [ Number(IOCTL_SIZE, 0, 8),
      Number(IOCTL_SIZE + 8, lengthSectors, 8),
      Number(IOCTL_SIZE + 20, TargetSize(params), 4) ]
  }

  function SpecStrings(kind: seq<Byte>, params: seq<Byte>): seq<Write> {
    [ Text(IOCTL_SIZE + 24, CStringBytes(kind, TYPE_SIZE)),
      Text(IOCTL_SIZE + TARGET_SPEC_SIZE, CStringBytes(params, TargetSize(params) - TARGET_SPEC_SIZE)) ]
  }

  const MAX_PARAMS_SIZE: nat := MAX_IOCTL_SIZE - IOCTL_SIZE - TARGET_SPEC_SIZE - 1

  predicate Loadable(lengthSectors: nat, kind: seq<Byte>, params: seq<Byte>) {
    && lengthSectors != 0
    && 0 < |kind| < TYPE_SIZE && 0 !in kind
    && 0 !in params
    && |params| <= MAX_PARAMS_SIZE
  }

  function TableSize(params: seq<Byte>): nat { IOCTL_SIZE + TargetSize(params) }

  lemma TableFits(name: seq<Byte>, lengthSectors: nat, kind: seq<Byte>, params: seq<Byte>)
    requires |params| <= MAX_PARAMS_SIZE
    ensures AllFit(BaseWrites(TableSize(params), name), TableSize(params))
    ensures AllFit(TARGET_HEADER, TableSize(params))
    ensures AllFit(SpecNumbers(lengthSectors, params), TableSize(params))
    ensures AllFit(SpecStrings(kind, params), TableSize(params))
    ensures TableSize(params) <= MAX_IOCTL_SIZE && TableSize(params) % TARGET_ALIGN == 0
  {
    assert MAX_PARAMS_SIZE == 16031;
  }

  // The buffer tableLoadBufferBytes builds, in its four runs of writes.
  function TableBuffer(name: seq<Byte>, lengthSectors: nat, kind: seq<Byte>, params: seq<Byte>): (buffer: seq<Byte>)
    requires |params| <= MAX_PARAMS_SIZE
    ensures |buffer| == TableSize(params)
  {
    TableFits(name, lengthSectors, kind, params);
    var header := PutAll(PutAll(Zeros(TableSize(params)), BaseWrites(TableSize(params), name)), TARGET_HEADER);
    PutAll(PutAll(header, SpecNumbers(lengthSectors, params)), SpecStrings(kind, params))
  }

  // ---------- Building it in place ----------

  // binary.LittleEndian.PutUint32 and PutUint64.
  method PutLe(buf: array<Byte>, offset: nat, value: nat, width: nat)
    requires offset + width <= buf.Length
    modifies buf
    ensures buf[..] == Put(old(buf[..]), Number(offset, value, width))
  {
    ghost var bytes := ToLe(value, width);
    ghost var before := buf[..];
    var rest := value;
    for i := 0 to width
      invariant ToLe(rest, width - i) == bytes[i..]
      invariant forall k :: 0 <= k < buf.Length ==>
                  buf[k] == if offset <= k < offset + i then bytes[k - offset] else before[k]
    {
      buf[offset + i] := rest % 256;
      ToLeSplits(rest, width - i);
      assert bytes[i..][1..] == bytes[i + 1..];
      rest := rest / 256;
    }
    assert buf[..] == Put(before, Number(offset, value, width));
  }

  // putBytesCString on the window [offset, offset + size).
  method PutBytesCString(buf: array<Byte>, offset: nat, size: nat, value: seq<Byte>)
    requires 0 < size && offset + size <= buf.Length
    modifies buf
    ensures buf[..] == Put(old(buf[..]), Text(offset, CStringBytes(value, size)))
  {
    ghost var before := buf[..];
    var n := if |value| < size - 1 then |value| else size - 1;
    for i := 0 to n
      invariant forall k :: 0 <= k < buf.Length ==>
                  buf[k] == if offset <= k < offset + i then value[k - offset] else before[k]
    {
      buf[offset + i] := value[i];
    }
    buf[offset + n] := 0;
    assert buf[..] == Put(before, Text(offset, CStringBytes(value, size)));
  }

  // A put that continues a list of writes into a blank buffer.
  method EmitLe(buf: array<Byte>, ghost blank: seq<Byte>, ghost writes: seq<Write>, offset: nat, value: nat, width: nat)
    returns (ghost longer: seq<Write>)
    requires |blank| == buf.Length && AllFit(writes, |blank|) && buf[..] == PutAll(blank, writes)
    requires offset + width <= buf.Length
    modifies buf
    ensures longer == writes + [Number(offset, value, width)]
    ensures AllFit(longer, |blank|) && buf[..] == PutAll(blank, longer)
  {
    PutLe(buf, offset, value, width);
    longer := Append(blank, writes, Number(offset, value, width));
  }

  method EmitCString(buf: array<Byte>, ghost blank: seq<Byte>, ghost writes: seq<Write>, offset: nat, size: nat, value: seq<Byte>)
    returns (ghost longer: seq<Write>)
    requires |blank| == buf.Length && AllFit(writes, |blank|) && buf[..] == PutAll(blank, writes)
    requires 0 < size && offset + size <= buf.Length
    modifies buf
    ensures longer == writes + [Text(offset, CStringBytes(value, size))]
    ensures AllFit(longer, |blank|) && buf[..] == PutAll(blank, longer)
  {
    PutBytesCString(buf, offset, size, value);
    longer := Append(blank, writes, Text(offset, CStringBytes(value, size)));
  }

  /** baseBuffer. */
  method BaseBuffer(size: nat, name: seq<Byte>) returns (buf: array?<Byte>)
    ensures buf == null <==> size < IOCTL_SIZE || size > MAX_IOCTL_SIZE || size % TARGET_ALIGN != 0
    ensures buf != null ==> fresh(buf) && buf.Length == size
    ensures buf != null ==> AllFit(BaseWrites(size, name), size) && buf[..] == PutAll(Zeros(size), BaseWrites(size, name))
  {
    if size < IOCTL_SIZE || size > MAX_IOCTL_SIZE || size % TARGET_ALIGN != 0 {
      return null;
    }
    var made := new Byte[size](_ => 0);
    assert made[..] == Zeros(size);
    ghost var blank, writes := made[..], [];
    writes := EmitLe(made, blank, writes, 0, VERSION_MAJOR, 4);
    writes := EmitLe(made, blank, writes, 4, 0, 4);
    writes := EmitLe(made, blank, writes, 8, 0, 4);
    writes := EmitLe(made, blank, writes, 12, made.Length, 4);
    writes := EmitLe(made, blank, writes, 16, IOCTL_SIZE, 4);
    writes := EmitCString(made, blank, writes, NAME_OFFSET, NAME_SIZE, name);
    assert writes == BaseWrites(size, name);
    return made;
  }

  // setFlags.
  method SetFlags(buf: array<Byte>, flags: nat)
    requires 32 <= buf.Length
    modifies buf
    ensures buf[..] == Put(old(buf[..]), Number(28, flags, 4))
  {
    PutLe(buf, 28, flags, 4);
  }

  /** tableLoadBufferBytes: refuses what cannot be loaded and builds TableBuffer. */
  method TableLoadBufferBytes(name: seq<Byte>, lengthSectors: nat, kind: seq<Byte>, params: seq<Byte>)
    returns (buf: array?<Byte>)
    ensures buf == null <==> !Loadable(lengthSectors, kind, params)
    ensures buf != null ==> fresh(buf) && buf[..] == TableBuffer(name, lengthSectors, kind, params)
  {
    if lengthSectors == 0 {
      return null;
    }
    if kind == [] || |kind| >= TYPE_SIZE || 0 in kind {
      return null;
    }
    if 0 in params {
      return null;
    }
    if |params| > MAX_IOCTL_SIZE - IOCTL_SIZE - TARGET_SPEC_SIZE - 1 {
      return null;
    }
    var targetSize := Align(TARGET_SPEC_SIZE + |params| + 1);
    var size := IOCTL_SIZE + targetSize;
    TableFits(name, lengthSectors, kind, params);
    buf := BaseBuffer(size, name);
    FillTarget(buf, lengthSectors, kind, params);
  }

  // The fields of the target, into a buffer that has the header.
  method FillTarget(buf: array<Byte>, lengthSectors: nat, kind: seq<Byte>, params: seq<Byte>)
    requires |params| <= MAX_PARAMS_SIZE && buf.Length == TableSize(params)
    requires AllFit(TARGET_HEADER, buf.Length)
    requires AllFit(SpecNumbers(lengthSectors, params), buf.Length) && AllFit(SpecStrings(kind, params), buf.Length)
    modifies buf
    ensures buf[..] == PutAll(PutAll(PutAll(old(buf[..]), TARGET_HEADER), SpecNumbers(lengthSectors, params)), SpecStrings(kind, params))
  {
    FillHeader(buf);
    FillNumbers(buf, lengthSectors, params);
    FillStrings(buf, kind, params);
  }

  method FillHeader(buf: array<Byte>)
    requires buf.Length >= IOCTL_SIZE && AllFit(TARGET_HEADER, buf.Length)
    modifies buf
    ensures buf[..] == PutAll(old(buf[..]), TARGET_HEADER)
  {
    ghost var blank := buf[..];
    ghost var writes := EmitLe(buf, blank, [], 28, READ_ONLY_FLAG + EXISTS_FLAG, 4);
    writes := EmitLe(buf, blank, writes, 20, 1, 4);
    assert writes == TARGET_HEADER;
  }

  method FillNumbers(buf: array<Byte>, lengthSectors: nat, params: seq<Byte>)
    requires buf.Length == TableSize(params) && AllFit(SpecNumbers(lengthSectors, params), buf.Length)
    modifies buf
    ensures buf[..] == PutAll(old(buf[..]), SpecNumbers(lengthSectors, params))
  {
    ghost var blank := buf[..];
    ghost var writes := EmitLe(buf, blank, [], IOCTL_SIZE, 0, 8);
    writes := EmitLe(buf, blank, writes, IOCTL_SIZE + 8, lengthSectors, 8);
    writes := EmitLe(buf, blank, writes, IOCTL_SIZE + 20, TargetSize(params), 4);
    assert writes == SpecNumbers(lengthSectors, params);
  }

  method FillStrings(buf: array<Byte>, kind: seq<Byte>, params: seq<Byte>)
    requires buf.Length == TableSize(params) && AllFit(SpecStrings(kind, params), buf.Length)
    modifies buf
    ensures buf[..] == PutAll(old(buf[..]), SpecStrings(kind, params))
  {
    ghost var blank := buf[..];
    ghost var writes := EmitCString(buf, blank, [], IOCTL_SIZE + 24, TYPE_SIZE, kind);
    writes := EmitCString(buf, blank, writes, IOCTL_SIZE + TARGET_SPEC_SIZE, TargetSize(params) - TARGET_SPEC_SIZE, params);
    assert writes == SpecStrings(kind, params);
  }

  lemma Append(buffer: seq<Byte>, writes: seq<Write>, write: Write) returns (longer: seq<Write>)
    requires AllFit(writes, |buffer|) && Fits(write, |buffer|)
    ensures longer == writes + [write] && AllFit(longer, |buffer|)
    ensures PutAll(buffer, longer) == Put(PutAll(buffer, writes), write)
  {
    longer := writes + [write];
    assert longer[..|longer| - 1] == writes;
  }

  /** cryptTableBuffer: a crypt table whose parameters hold key material. */
  method CryptTableBuffer(name: seq<Byte>, lengthSectors: nat, params: seq<Byte>, flags: bv32) returns (buf: array?<Byte>)
    ensures buf == null <==> !ValidName(name) || !Loadable(lengthSectors, CRYPT_KIND, params)
    ensures buf != null ==> fresh(buf) && buf[..] == CryptBuffer(name, lengthSectors, params, flags)
  {
    if name == [] || |name| > MAX_NAME_LENGTH {
      return null;
    }
    for i := 0 to |name|
      invariant forall k :: 0 <= k < i ==> ValidNameByte(name[k])
    {
      if !ValidNameByte(name[i]) {
        return null;
      }
    }
    buf := TableLoadBufferBytes(name, lengthSectors, CRYPT_KIND, params);
    if buf == null {
      return null;
    }
    SetFlags(buf, CryptFlags(flags));
  }

  const CRYPT_KIND: seq<Byte> := ['c' as int, 'r' as int, 'y' as int, 'p' as int, 't' as int]

  // flags|existsFlag|secureDataFlag.
  function CryptFlags(flags: bv32): (word: nat)
    ensures word < 0x1_0000_0000
  {
    (flags | 0x4 | 0x8000) as nat
  }

  /** The bits for an existing device and for secure data are set, and the caller's
      are kept. */
  lemma CryptFlagsExactly(flags: bv32) returns (word: bv32)
    ensures CryptFlags(flags) == word as nat
    ensures word & 0x4 == 0x4 && word & 0x8000 == 0x8000
    ensures word & 0xffff_7ffb == flags & 0xffff_7ffb
  {
    word := flags | 0x4 | 0x8000;
  }

  function CryptBuffer(name: seq<Byte>, lengthSectors: nat, params: seq<Byte>, flags: bv32): seq<Byte>
    requires |params| <= MAX_PARAMS_SIZE
  {
    Put(TableBuffer(name, lengthSectors, CRYPT_KIND, params), Number(28, CryptFlags(flags), 4))
  }

  // ---------- Reading it as the kernel does ----------

  // A NUL-terminated string in the window [offset, offset + size).
  function CString(buffer: seq<Byte>, offset: nat, size: nat): seq<Byte>
    requires offset + size <= |buffer|
    decreases size
  {
    if size == 0 || buffer[offset] == 0 then []
    else [buffer[offset]] + CString(buffer, offset + 1, size - 1)
  }

  lemma {:induction false} CStringReadsBack(buffer: seq<Byte>, offset: nat, size: nat, value: seq<Byte>)
    requires offset + size <= |buffer| && |value| < size && 0 !in value
    requires Get(buffer, offset, |value| + 1) == value + [0]
    ensures CString(buffer, offset, size) == value
    decreases size
  {
    assert buffer[offset] == Get(buffer, offset, |value| + 1)[0];
    if value != [] {
      assert value[0] in value;
      assert Get(buffer, offset + 1, |value[1..]| + 1) == value[1..] + [0] by {
        assert Get(buffer, offset, |value| + 1)[1..] == Get(buffer, offset + 1, |value|);
        assert (value + [0])[1..] == value[1..] + [0];
      }
      CStringReadsBack(buffer, offset + 1, size - 1, value[1..]);
    }
  }

  // The fields of struct dm_ioctl and of the one target after it.
  datatype Table = Table(
    versionMajor: nat, dataSize: nat, dataStart: nat, targetCount: nat, flags: nat, name: seq<Byte>,
    sectorStart: nat, lengthSectors: nat, next: nat, kind: seq<Byte>, params: seq<Byte>)

  function U32(buffer: seq<Byte>, offset: nat): nat
    requires offset + 4 <= |buffer|
  {
    FromLe(Get(buffer, offset, 4))
  }

  function U64(buffer: seq<Byte>, offset: nat): nat
    requires offset + 8 <= |buffer|
  {
    FromLe(Get(buffer, offset, 8))
  }

  function ReadTable(buffer: seq<Byte>): Table
    requires |buffer| >= IOCTL_SIZE + TARGET_SPEC_SIZE
  {
    Table(
      U32(buffer, 0), U32(buffer, 12), U32(buffer, 16), U32(buffer, 20), U32(buffer, 28),
      CString(buffer, 48, 128),
      U64(buffer, 312), U64(buffer, 320), U32(buffer, 332),
      CString(buffer, 336, 16), CString(buffer, 352, |buffer| - 352))
  }

  /** validateIOCTLRequest. */
  predicate ValidRequest(buffer: seq<Byte>, maxTargets: nat) {
    && IOCTL_SIZE <= |buffer| <= MAX_IOCTL_SIZE && |buffer| % TARGET_ALIGN == 0
    && IOCTL_DATA_OFFSET <= U32(buffer, 12) <= |buffer|
    && U32(buffer, 16) == IOCTL_SIZE
    && U32(buffer, 20) <= maxTargets
    && U32(buffer, 12) == |buffer|
  }

  // A write that nothing has overwritten.
  predicate Holds(buffer: seq<Byte>, write: Write) {
    Fits(write, |buffer|) && Get(buffer, write.offset, Size(write)) == BytesOf(write)
  }

  lemma U32ReadsBack(buffer: seq<Byte>, offset: nat, value: nat)
    requires value < 0x1_0000_0000 && Holds(buffer, Number(offset, value, 4))
    ensures offset + 4 <= |buffer| && U32(buffer, offset) == value
  {
    assert Pow256(4) == 0x1_0000_0000;
    FromToLe(value, 4);
  }

  lemma U64ReadsBack(buffer: seq<Byte>, offset: nat, value: nat)
    requires value < 0x1_0000_0000_0000_0000 && Holds(buffer, Number(offset, value, 8))
    ensures offset + 8 <= |buffer| && U64(buffer, offset) == value
  {
    assert Pow256(4) == 0x1_0000_0000;
    assert Pow256(8) == 0x1_0000_0000_0000_0000;
    FromToLe(value, 8);
  }

  lemma TextReadsBack(buffer: seq<Byte>, offset: nat, size: nat, value: seq<Byte>)
    requires offset + size <= |buffer| && |value| < size && 0 !in value
    requires Holds(buffer, Text(offset, CStringBytes(value, size)))
    ensures CString(buffer, offset, size) == value
  {
    assert CStringBytes(value, size) == value + [0];
    CStringReadsBack(buffer, offset, size, value);
  }

  predicate HoldsAll(buffer: seq<Byte>, writes: seq<Write>) {
    forall k :: 0 <= k < |writes| ==> Holds(buffer, writes[k])
  }

  predicate PairwiseDisjoint(writes: seq<Write>) {
    forall k, j :: 0 <= k < j < |writes| ==> Disjoint(writes[k], writes[j])
  }

  lemma AllReadBack(blank: seq<Byte>, writes: seq<Write>)
    requires AllFit(writes, |blank|) && PairwiseDisjoint(writes)
    ensures HoldsAll(PutAll(blank, writes), writes)
  {
    forall k | 0 <= k < |writes|
      ensures Holds(PutAll(blank, writes), writes[k])
    {
      WriteIsReadBack(blank, writes, k);
    }
  }

  predicate Apart(older: seq<Write>, newer: seq<Write>) {
    forall k, j :: 0 <= k < |older| && 0 <= j < |newer| ==> Disjoint(older[k], newer[j])
  }

  lemma {:induction false} ApartIsKept(buffer: seq<Byte>, older: seq<Write>, newer: seq<Write>)
    requires HoldsAll(buffer, older) && AllFit(newer, |buffer|) && Apart(older, newer)
    ensures HoldsAll(PutAll(buffer, newer), older)
  {
    if newer != [] {
      var last := |newer| - 1;
      var front := newer[..last];
      ApartIsKept(buffer, older, front);
      assert newer[last] in newer;
      forall k | 0 <= k < |older|
        ensures Holds(PutAll(buffer, newer), older[k])
      {
        assert Holds(PutAll(buffer, front), older[k]);
        PutElsewhere(PutAll(buffer, front), newer[last], older[k].offset, Size(older[k]));
      }
    }
  }

  lemma RunsAreApart(size: nat, name: seq<Byte>, lengthSectors: nat, kind: seq<Byte>, params: seq<Byte>)
    requires |params| <= MAX_PARAMS_SIZE
    ensures PairwiseDisjoint(BaseWrites(size, name)) && PairwiseDisjoint(TARGET_HEADER)
    ensures PairwiseDisjoint(SpecNumbers(lengthSectors, params)) && PairwiseDisjoint(SpecStrings(kind, params))
    ensures Apart(BaseWrites(size, name), TARGET_HEADER)
    ensures Apart(BaseWrites(size, name), SpecNumbers(lengthSectors, params))
    ensures Apart(BaseWrites(size, name), SpecStrings(kind, params))
    ensures Apart(TARGET_HEADER, SpecNumbers(lengthSectors, params))
    ensures Apart(TARGET_HEADER, SpecStrings(kind, params))
    ensures Apart(SpecNumbers(lengthSectors, params), SpecStrings(kind, params))
  {
  }

  // Nothing any run writes is overwritten by another.
  lemma RunsReadBack(blank: seq<Byte>, base: seq<Write>, header: seq<Write>, numbers: seq<Write>, strings: seq<Write>)
    requires AllFit(base, |blank|) && AllFit(header, |blank|) && AllFit(numbers, |blank|) && AllFit(strings, |blank|)
    requires PairwiseDisjoint(base) && PairwiseDisjoint(header) && PairwiseDisjoint(numbers) && PairwiseDisjoint(strings)
    requires Apart(base, header) && Apart(base, numbers) && Apart(base, strings)
    requires Apart(header, numbers) && Apart(header, strings) && Apart(numbers, strings)
    ensures var b := PutAll(PutAll(PutAll(PutAll(blank, base), header), numbers), strings);
            HoldsAll(b, base) && HoldsAll(b, header) && HoldsAll(b, numbers) && HoldsAll(b, strings)
  {
    var one := PutAll(blank, base);
    var two := PutAll(one, header);
    var three := PutAll(two, numbers);
    AllReadBack(blank, base);
    AllReadBack(one, header);
    AllReadBack(two, numbers);
    AllReadBack(three, strings);
    ApartIsKept(one, base, header);
    ApartIsKept(two, base, numbers);
    ApartIsKept(two, header, numbers);
    ApartIsKept(three, base, strings);
    ApartIsKept(three, header, strings);
    ApartIsKept(three, numbers, strings);
  }

  predicate Storable(name: seq<Byte>, lengthSectors: nat, kind: seq<Byte>, params: seq<Byte>) {
    && |name| <= MAX_NAME_LENGTH && 0 !in name
    && lengthSectors < 0x1_0000_0000_0000_0000
    && Loadable(lengthSectors, kind, params)
  }

  lemma HeaderFields(b: seq<Byte>, name: seq<Byte>)
    requires HoldsAll(b, BaseWrites(|b|, name)) && HoldsAll(b, TARGET_HEADER)
    ensures HoldsHeader(b, name)
  {
    var base := BaseWrites(|b|, name);
    assert Holds(b, base[0]) && Holds(b, base[3]) && Holds(b, base[4]) && Holds(b, base[5]);
    assert Holds(b, TARGET_HEADER[0]) && Holds(b, TARGET_HEADER[1]);
  }

  lemma SpecFields(b: seq<Byte>, lengthSectors: nat, kind: seq<Byte>, params: seq<Byte>)
    requires |b| == TableSize(params)
    requires HoldsAll(b, SpecNumbers(lengthSectors, params)) && HoldsAll(b, SpecStrings(kind, params))
    ensures HoldsSpec(b, lengthSectors, kind, params)
  {
    var numbers, strings := SpecNumbers(lengthSectors, params), SpecStrings(kind, params);
    assert Holds(b, numbers[0]) && Holds(b, numbers[1]) && Holds(b, numbers[2]);
    assert Holds(b, strings[0]) && Holds(b, strings[1]);
  }

  predicate HoldsHeader(b: seq<Byte>, name: seq<Byte>) {
    && Holds(b, Number(0, VERSION_MAJOR, 4))
    && Holds(b, Number(12, |b|, 4))
    && Holds(b, Number(16, IOCTL_SIZE, 4))
    && Holds(b, Number(20, 1, 4))
    && Holds(b, Number(28, READ_ONLY_FLAG + EXISTS_FLAG, 4))
    && Holds(b, Text(48, CStringBytes(name, 128)))
  }

  predicate HoldsSpec(b: seq<Byte>, lengthSectors: nat, kind: seq<Byte>, params: seq<Byte>)
    requires |b| > 352
  {
    && Holds(b, Number(312, 0, 8))
    && Holds(b, Number(320, lengthSectors, 8))
    && Holds(b, Number(332, |b| - IOCTL_SIZE, 4))
    && Holds(b, Text(336, CStringBytes(kind, 16)))
    && Holds(b, Text(352, CStringBytes(params, |b| - 352)))
  }

  lemma HeaderReadsBack(b: seq<Byte>, name: seq<Byte>)
    requires IOCTL_SIZE <= |b| <= MAX_IOCTL_SIZE && |name| <= MAX_NAME_LENGTH && 0 !in name
    requires HoldsHeader(b, name)
    ensures U32(b, 0) == VERSION_MAJOR && U32(b, 12) == |b| && U32(b, 16) == IOCTL_SIZE && U32(b, 20) == 1
    ensures U32(b, 28) == READ_ONLY_FLAG + EXISTS_FLAG
    ensures CString(b, 48, 128) == name
  {
    U32ReadsBack(b, 0, VERSION_MAJOR);
    U32ReadsBack(b, 12, |b|);
    U32ReadsBack(b, 16, IOCTL_SIZE);
    U32ReadsBack(b, 20, 1);
    U32ReadsBack(b, 28, READ_ONLY_FLAG + EXISTS_FLAG);
    TextReadsBack(b, 48, 128, name);
  }

  lemma SpecReadsBack(b: seq<Byte>, lengthSectors: nat, kind: seq<Byte>, params: seq<Byte>)
    requires Storable([], lengthSectors, kind, params) && 352 + |params| < |b| <= MAX_IOCTL_SIZE
    requires HoldsSpec(b, lengthSectors, kind, params)
    ensures U64(b, 312) == 0 && U64(b, 320) == lengthSectors && U32(b, 332) == |b| - IOCTL_SIZE
    ensures CString(b, 336, 16) == kind && CString(b, 352, |b| - 352) == params
  {
    U64ReadsBack(b, 312, 0);
    U64ReadsBack(b, 320, lengthSectors);
    U32ReadsBack(b, 332, |b| - IOCTL_SIZE);
    TextReadsBack(b, 336, 16, kind);
    TextReadsBack(b, 352, |b| - 352, params);
  }

  lemma TableHolds(name: seq<Byte>, lengthSectors: nat, kind: seq<Byte>, params: seq<Byte>)
    requires |params| <= MAX_PARAMS_SIZE
    ensures var b := TableBuffer(name, lengthSectors, kind, params);
            && HoldsAll(b, BaseWrites(|b|, name)) && HoldsAll(b, TARGET_HEADER)
            && HoldsAll(b, SpecNumbers(lengthSectors, params)) && HoldsAll(b, SpecStrings(kind, params))
  {
    var size := TableSize(params);
    TableFits(name, lengthSectors, kind, params);
    RunsAreApart(size, name, lengthSectors, kind, params);
    RunsReadBack(Zeros(size), BaseWrites(size, name), TARGET_HEADER, SpecNumbers(lengthSectors, params), SpecStrings(kind, params));
  }

  lemma HeldTableReadsBack(b: seq<Byte>, name: seq<Byte>, lengthSectors: nat, kind: seq<Byte>, params: seq<Byte>)
    requires Storable(name, lengthSectors, kind, params) && |b| == TableSize(params)
    requires HoldsAll(b, BaseWrites(|b|, name)) && HoldsAll(b, TARGET_HEADER)
    requires HoldsAll(b, SpecNumbers(lengthSectors, params)) && HoldsAll(b, SpecStrings(kind, params))
    ensures ValidRequest(b, 1)
    ensures ReadTable(b) == Table(
              VERSION_MAJOR, |b|, IOCTL_SIZE, 1, READ_ONLY_FLAG + EXISTS_FLAG, name,
              0, lengthSectors, |b| - IOCTL_SIZE, kind, params)
  {
    assert |b| <= MAX_IOCTL_SIZE && |b| % TARGET_ALIGN == 0 by {
      TableFits(name, lengthSectors, kind, params);
    }
    HeaderFields(b, name);
    SpecFields(b, lengthSectors, kind, params);
    HeaderReadsBack(b, name);
    SpecReadsBack(b, lengthSectors, kind, params);
  }

  /** Every table that can be loaded passes the ioctl's own check and reads back
      as it was given: name, type, parameters and length unchanged, one target
      that fills the rest of the buffer. */
  lemma TableRoundTrip(name: seq<Byte>, lengthSectors: nat, kind: seq<Byte>, params: seq<Byte>)
    requires Storable(name, lengthSectors, kind, params)
    ensures var b := TableBuffer(name, lengthSectors, kind, params);
            && ValidRequest(b, 1)
            && ReadTable(b) == Table(4, |b|, 312, 1, 0x5, name, 0, lengthSectors, |b| - 312, kind, params)
  {
    TableHolds(name, lengthSectors, kind, params);
    HeldTableReadsBack(TableBuffer(name, lengthSectors, kind, params), name, lengthSectors, kind, params);
  }

  lemma CStringElsewhere(buffer: seq<Byte>, write: Write, offset: nat, size: nat)
    requires Fits(write, |buffer|) && offset + size <= |buffer|
    requires write.offset + Size(write) <= offset
    ensures CString(Put(buffer, write), offset, size) == CString(buffer, offset, size)
    decreases size
  {
    if size > 0 && buffer[offset] != 0 {
      CStringElsewhere(buffer, write, offset + 1, size - 1);
    }
  }

  // Rewriting the flags leaves every other field as it was.
  lemma FlagsAlone(before: seq<Byte>, flags: nat)
    requires |before| >= IOCTL_SIZE + TARGET_SPEC_SIZE && flags < 0x1_0000_0000
    ensures ReadTable(Put(before, Number(28, flags, 4))) == ReadTable(before).(flags := flags)
  {
    var write := Number(28, flags, 4);
    PutElsewhere(before, write, 0, 4);
    PutElsewhere(before, write, 12, 4);
    PutElsewhere(before, write, 16, 4);
    PutElsewhere(before, write, 20, 4);
    PutElsewhere(before, write, 312, 8);
    PutElsewhere(before, write, 320, 8);
    PutElsewhere(before, write, 332, 4);
    CStringElsewhere(before, write, 48, 128);
    CStringElsewhere(before, write, 336, 16);
    CStringElsewhere(before, write, 352, |before| - 352);
    PutReadsBack(before, write);
    U32ReadsBack(Put(before, write), 28, flags);
  }

  lemma PutReadsBack(buffer: seq<Byte>, write: Write)
    requires Fits(write, |buffer|)
    ensures Holds(Put(buffer, write), write)
  {
  }

  /** The crypt table differs from that in its flags alone. */
  lemma CryptRoundTrip(name: seq<Byte>, lengthSectors: nat, params: seq<Byte>, flags: bv32)
    requires Storable(name, lengthSectors, CRYPT_KIND, params)
    ensures var b := CryptBuffer(name, lengthSectors, params, flags);
            && ValidRequest(b, 1)
            && ReadTable(b) == Table(4, |b|, 312, 1, CryptFlags(flags), name, 0, lengthSectors, |b| - 312, CRYPT_KIND, params)
  {
    var plain := TableBuffer(name, lengthSectors, CRYPT_KIND, params);
    TableRoundTrip(name, lengthSectors, CRYPT_KIND, params);
    FlagsAlone(plain, CryptFlags(flags));
    AsTable(plain);
    AsTable(CryptBuffer(name, lengthSectors, params, flags));
  }

  // The check in terms of the fields read.
  lemma AsTable(buffer: seq<Byte>)
    requires |buffer| >= IOCTL_SIZE + TARGET_SPEC_SIZE
    ensures var table := ReadTable(buffer);
            ValidRequest(buffer, 1) <==>
            && |buffer| <= MAX_IOCTL_SIZE && |buffer| % TARGET_ALIGN == 0
            && table.dataSize == |buffer| && table.dataStart == IOCTL_SIZE && table.targetCount <= 1
  {
  }
}
