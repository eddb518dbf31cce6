/**
 Byte payloads carried as numbered DNS labels: base32 (section 6 of RFC 4648,
 unpadded as in its section 3.2), lower-cased, cut into chunks and prefixed with
 a two-digit index.

 Source: tinfoil/internal/dcode/dcode.go.
 */
module Dcode {
  import opened Bytes
  import opened Powers
  import Sequences

  type Bits = seq<bool>

  const LABEL_LIMIT := 63   // section 2.3.4 of RFC 1035
  const MAX_CHUNKS := 100

  // ---------- Bits ----------

  /** The low `w` bits of `n`, most significant first. */
  function ToBits(n: nat, w: nat): (bits: Bits)
    ensures |bits| == w
  {
    if w == 0 then [] else ToBits(n / 2, w - 1) + [n % 2 == 1]
  }

  function Value(bits: Bits): (n: nat)
    ensures n < Pow2(|bits|)
  {
    if bits == [] then 0
    else 2 * Value(bits[..|bits| - 1]) + (if bits[|bits| - 1] then 1 else 0)
  }

  lemma {:induction false} ValueOfBits(n: nat, w: nat)
    requires n < Pow2(w)
    ensures Value(ToBits(n, w)) == n
  {
    if w > 0 {
      ValueOfBits(n / 2, w - 1);
      assert ToBits(n, w)[..w - 1] == ToBits(n / 2, w - 1);
    }
  }

  lemma {:induction false} BitsOfValue(bits: Bits)
    ensures ToBits(Value(bits), |bits|) == bits
  {
    if bits != [] {
      BitsOfValue(bits[..|bits| - 1]);
      assert Value(bits) / 2 == Value(bits[..|bits| - 1]);
    }
  }

  function BytesToBits(content: seq<Byte>): (bits: Bits)
    ensures |bits| == 8 * |content|
  {
    if content == [] then [] else ToBits(content[0], 8) + BytesToBits(content[1..])
  }

  // Whole bytes only; up to seven trailing bits are dropped.
  function BitsToBytes(bits: Bits): seq<Byte> {
    if |bits| < 8 then []
    else
      assert Pow2(8) == 256;
      [Value(bits[..8])] + BitsToBytes(bits[8..])
  }

  lemma {:induction false} BytesRoundTrip(content: seq<Byte>, slack: Bits)
    requires |slack| < 8
    ensures BitsToBytes(BytesToBits(content) + slack) == content
  {
    if content == [] {
      assert BytesToBits(content) + slack == slack;
    } else {
      var bits := BytesToBits(content) + slack;
      assert bits[..8] == ToBits(content[0], 8);
      assert bits[8..] == BytesToBits(content[1..]) + slack;
      assert Pow2(8) == 256;
      ValueOfBits(content[0], 8);
      BytesRoundTrip(content[1..], slack);
    }
  }

  // ---------- Base32 ----------

  function Unset(n: nat): (bits: Bits)
    ensures |bits| == n && forall i :: 0 <= i < n ==> !bits[i]
  {
    if n == 0 then [] else [false] + Unset(n - 1)
  }

  // The standard alphabet, A-Z then 2-7.
  function Symbol(value: nat): char
    requires value < 32
  {
    if value < 26 then 'A' + value as char else '2' + (value - 26) as char
  }

  function ToLower(c: char): char {
    if 'A' <= c <= 'Z' then 'a' + (c - 'A') else c
  }

  // The value of a lower-cased symbol.
  function SymbolValue(c: char): nat {
    if 'a' <= c <= 'z' then (c - 'a') as nat
    else if '2' <= c <= '7' then 26 + (c - '2') as nat
    else 0
  }

  /** Groups of five bits to symbols; a short last group is filled with zeros. */
  function EncodeBits(bits: Bits): seq<char> {
    if bits == [] then []
    else
      assert Pow2(5) == 32;
      var width := if |bits| < 5 then |bits| else 5;
      [ToLower(Symbol(Value(bits[..width] + Unset(5 - width))))] + EncodeBits(bits[width..])
  }

  function DecodeBits(text: seq<char>): Bits {
    if text == [] then [] else ToBits(SymbolValue(text[0]), 5) + DecodeBits(text[1..])
  }

  function EncodeBase32(content: seq<Byte>): seq<char> { EncodeBits(BytesToBits(content)) }
  function DecodeBase32(text: seq<char>): seq<Byte> { BitsToBytes(DecodeBits(text)) }

  lemma SymbolRoundTrip(value: nat)
    requires value < 32
    ensures SymbolValue(ToLower(Symbol(value))) == value
  {
    if value < 26 {
      assert ToLower(Symbol(value)) == 'a' + value as char;
    } else {
      assert Symbol(value) == '2' + (value - 26) as char;
    }
  }

  // One symbol stands for its five bits.
  lemma GroupRoundTrip(group: Bits)
    requires |group| == 5
    ensures Value(group) < 32
    ensures ToBits(SymbolValue(ToLower(Symbol(Value(group)))), 5) == group
  {
    assert Pow2(5) == 32;
    BitsOfValue(group);
    SymbolRoundTrip(Value(group));
  }

  lemma EncodeGroup(group: Bits, rest: Bits)
    requires |group| == 5
    ensures Value(group) < 32
    ensures EncodeBits(group + rest) == [ToLower(Symbol(Value(group)))] + EncodeBits(rest)
  {
    assert Pow2(5) == 32;
    var bits := group + rest;
    assert bits[..5] + Unset(0) == group;
    assert bits[5..] == rest;
  }

  lemma EncodeShortGroup(bits: Bits)
    requires 0 < |bits| < 5
    ensures Value(bits + Unset(5 - |bits|)) < 32
    ensures EncodeBits(bits) == [ToLower(Symbol(Value(bits + Unset(5 - |bits|))))]
  {
    assert Pow2(5) == 32;
    assert bits[..|bits|] == bits;
    assert EncodeBits(bits[|bits|..]) == [];
  }

  lemma DecodeCons(c: char, text: seq<char>)
    ensures DecodeBits([c] + text) == ToBits(SymbolValue(c), 5) + DecodeBits(text)
  {
    assert ([c] + text)[1..] == text;
  }

  // Decoding gives the bits back, with fewer than five bits of padding after them.
  ghost predicate RoundTrips(bits: Bits) {
    var decoded := DecodeBits(EncodeBits(bits));
    && bits <= decoded
    && |decoded| < |bits| + 5
    && |EncodeBits(bits)| == (|bits| + 4) / 5
  }

  lemma GroupThenRest(group: Bits, rest: Bits)
    requires |group| == 5 && RoundTrips(rest)
    ensures RoundTrips(group + rest)
  {
    EncodeGroup(group, rest);
    GroupRoundTrip(group);
    DecodeCons(ToLower(Symbol(Value(group))), EncodeBits(rest));
  }

  lemma ShortGroup(bits: Bits)
    requires 0 < |bits| < 5
    ensures RoundTrips(bits)
  {
    var group := bits + Unset(5 - |bits|);
    GroupRoundTrip(group);
    var symbol := ToLower(Symbol(Value(group)));
    EncodeShortGroup(bits);
    DecodeCons(symbol, []);
    assert [symbol] + [] == [symbol];
  }

  lemma {:induction false} BitsRoundTrip(bits: Bits)
    ensures RoundTrips(bits)
  {
    if |bits| >= 5 {
      BitsRoundTrip(bits[5..]);
      GroupThenRest(bits[..5], bits[5..]);
      assert bits == bits[..5] + bits[5..];
    } else if bits != [] {
      ShortGroup(bits);
    }
  }

  lemma Base32RoundTrip(content: seq<Byte>)
    ensures DecodeBase32(EncodeBase32(content)) == content
    ensures |EncodeBase32(content)| == (8 * |content| + 4) / 5
  {
    var bits := BytesToBits(content);
    var decoded := DecodeBits(EncodeBits(bits));
    BitsRoundTrip(bits);
    BytesRoundTrip(content, decoded[|bits|..]);
    assert bits + decoded[|bits|..] == decoded;
  }

  // ---------- Names ----------

  function TwoDigits(index: nat): (text: seq<char>)
    requires index < 100
    ensures |text| == 2
  {
    ['0' + (index / 10) as char, '0' + (index % 10) as char]
  }

  datatype Result = Ok(names: seq<seq<char>>) | DomainTooLong | TooManyChunks

  function ChunkSize(domain: seq<char>): int { LABEL_LIMIT - (1 + |domain|) - 2 }

  /** Encode. It fails on a suffix that leaves no room and on a payload of more
      than a hundred chunks, and on nothing else. */
  method Encode(content: seq<Byte>, domain: seq<char>) returns (result: Result)
    ensures result.DomainTooLong? <==> ChunkSize(domain) <= 0
    ensures result.TooManyChunks? <==>
            ChunkSize(domain) > 0 && (8 * |content| + 4) / 5 > MAX_CHUNKS * ChunkSize(domain)
    ensures result.Ok? ==> Carries(result.names, EncodeBase32(content), domain)
    ensures result.Ok? ==> AllFull(result.names)
  {
    var encoded := EncodeBase32(content);
    Base32RoundTrip(content);
    result := ChunkNames(encoded, domain);
  }

  // The chunking part of Encode.
  method ChunkNames(encoded: seq<char>, domain: seq<char>) returns (result: Result)
    ensures result.DomainTooLong? <==> ChunkSize(domain) <= 0
    ensures result.TooManyChunks? <==> ChunkSize(domain) > 0 && |encoded| > MAX_CHUNKS * ChunkSize(domain)
    ensures result.Ok? ==> Carries(result.names, encoded, domain)
    ensures result.Ok? ==> AllFull(result.names)
  {
    var suffix := "." + domain;
    var maxLength := LABEL_LIMIT - |suffix| - 2;
    if maxLength <= 0 {
      return DomainTooLong;
    }
    var names: seq<seq<char>> := [];
    var i := 0;
    while i < |encoded|
      invariant 0 <= i == |names| * maxLength
      invariant |names| <= MAX_CHUNKS
      invariant 0 < |names| ==> (|names| - 1) * maxLength < |encoded|
      invariant Carries(names, encoded[..Least(i, |encoded|)], domain)
      invariant AllFull(names) && (i < |encoded| && names != [] ==> |names[|names| - 1]| == 63)
      decreases |encoded| - i
    {
      var end := Least(i + maxLength, |encoded|);
      var chunk := encoded[i..end];
      var index := |names|;
      if index > 99 {
        return TooManyChunks;
      }
      AppendSlice(names, encoded, i, end, domain);
      names := names + [TwoDigits(index) + chunk + suffix];
      NextMultiple(index, maxLength);
      i := i + maxLength;
    }
    assert encoded[..|encoded|] == encoded;
    ProductMonotone(|names|, MAX_CHUNKS, maxLength);
    return Ok(names);
  }

  function Least(a: nat, b: nat): nat { if a <= b then a else b }

  lemma NextMultiple(k: nat, size: nat)
    ensures (k + 1) * size == k * size + size
  {
  }

  lemma ProductMonotone(a: nat, b: nat, c: nat)
    requires a <= b
    ensures a * c <= b * c
  {
  }

  function Chunk(name: seq<char>, domain: seq<char>): seq<char>
    requires |name| >= 2 + 1 + |domain|
  {
    name[2..|name| - 1 - |domain|]
  }

  function Payload(names: seq<seq<char>>, domain: seq<char>): seq<char>
    requires forall name :: name in names ==> |name| >= 3 + |domain|
  {
    if names == [] then []
    else Payload(names[..|names| - 1], domain) + Chunk(names[|names| - 1], domain)
  }

  /** `names` are the numbered names of the chunks of `encoded`, in order: every
      name is a two-digit index, a non-empty chunk and the suffix, within the
      limit, and the chunks put together are `encoded`. */
  ghost predicate Carries(names: seq<seq<char>>, encoded: seq<char>, domain: seq<char>) {
    && |names| <= MAX_CHUNKS
    && (forall k :: 0 <= k < |names| ==> WellFormedName(names[k], k, domain))
    && Payload(names, domain) == encoded
  }

  // Every name but the last is as long as a label may be.
  ghost predicate AllFull(names: seq<seq<char>>) {
    forall k :: 0 <= k < |names| - 1 ==> |names[k]| == 63
  }

  ghost predicate WellFormedName(name: seq<char>, index: nat, domain: seq<char>) {
    && index < MAX_CHUNKS
    && 3 + |domain| < |name| <= 63
    && name[..2] == [ '0' + (index / 10) as char, '0' + (index % 10) as char ]
    && name[|name| - 1 - |domain|..] == "." + domain
  }

  lemma AppendChunk(names: seq<seq<char>>, encoded: seq<char>, chunk: seq<char>, domain: seq<char>)
    requires |names| < MAX_CHUNKS && Carries(names, encoded, domain)
    requires 0 < |chunk| <= ChunkSize(domain)
    ensures Carries(names + [TwoDigits(|names|) + chunk + ("." + domain)], encoded + chunk, domain)
  {
    var name := TwoDigits(|names|) + chunk + ("." + domain);
    var longer := names + [name];
    assert longer[..|longer| - 1] == names;
    assert Chunk(name, domain) == chunk;
    assert name[|name| - 1 - |domain|..] == "." + domain;
  }

  lemma AppendSlice(names: seq<seq<char>>, encoded: seq<char>, i: nat, end: nat, domain: seq<char>)
    requires i < end <= |encoded| && end - i <= ChunkSize(domain)
    requires |names| < MAX_CHUNKS && Carries(names, encoded[..i], domain)
    ensures Carries(names + [TwoDigits(|names|) + encoded[i..end] + ("." + domain)], encoded[..end], domain)
  {
    AppendChunk(names, encoded[..i], encoded[i..end], domain);
    assert encoded[..i] + encoded[i..end] == encoded[..end];
  }

  // ---------- Reading the names back ----------

  function DigitValue(c: char): nat {
    if '0' <= c <= '9' then c as nat - '0' as nat else 0
  }

  // The two-digit prefix as a number.
  function Prefix(name: seq<char>): nat {
    if |name| < 2 then 0 else 10 * DigitValue(name[0]) + DigitValue(name[1])
  }

  function Insert(name: seq<char>, sorted: seq<seq<char>>): seq<seq<char>> {
    if sorted == [] || Prefix(name) <= Prefix(sorted[0]) then [name] + sorted
    else [sorted[0]] + Insert(name, sorted[1..])
  }

  function SortByPrefix(names: seq<seq<char>>): seq<seq<char>> {
    if names == [] then [] else Insert(names[0], SortByPrefix(names[1..]))
  }

  ghost predicate Ascending(names: seq<seq<char>>) {
    forall i, j :: 0 <= i < j < |names| ==> Prefix(names[i]) <= Prefix(names[j])
  }

  ghost predicate StrictlyAscending(names: seq<seq<char>>) {
    forall i, j :: 0 <= i < j < |names| ==> Prefix(names[i]) < Prefix(names[j])
  }

  lemma {:induction false} InsertKeepsAll(name: seq<char>, sorted: seq<seq<char>>)
    ensures multiset(Insert(name, sorted)) == multiset{name} + multiset(sorted)
  {
    if sorted != [] {
      assert sorted == [sorted[0]] + sorted[1..];
      if Prefix(name) > Prefix(sorted[0]) {
        InsertKeepsAll(name, sorted[1..]);
      }
    }
  }

  predicate NoneBelow(low: int, names: seq<seq<char>>) {
    forall j :: 0 <= j < |names| ==> low <= Prefix(names[j])
  }

  lemma {:induction false} InsertNotBelow(low: int, name: seq<char>, sorted: seq<seq<char>>)
    requires low <= Prefix(name) && NoneBelow(low, sorted)
    ensures NoneBelow(low, Insert(name, sorted))
  {
    if sorted != [] && Prefix(name) > Prefix(sorted[0]) {
      InsertNotBelow(low, name, sorted[1..]);
    }
  }

  lemma {:induction false} InsertAscending(name: seq<char>, sorted: seq<seq<char>>)
    requires Ascending(sorted)
    ensures Ascending(Insert(name, sorted))
  {
    if sorted != [] && Prefix(name) > Prefix(sorted[0]) {
      InsertAscending(name, sorted[1..]);
      InsertNotBelow(Prefix(sorted[0]), name, sorted[1..]);
    }
  }

  lemma {:induction false} SortSorts(names: seq<seq<char>>)
    ensures Ascending(SortByPrefix(names))
    ensures multiset(SortByPrefix(names)) == multiset(names)
  {
    if names != [] {
      SortSorts(names[1..]);
      InsertAscending(names[0], SortByPrefix(names[1..]));
      InsertKeepsAll(names[0], SortByPrefix(names[1..]));
      assert names == [names[0]] + names[1..];
    }
  }

  // The first name of an ascending list is the first of a strictly ascending
  // list of the same names.
  lemma SameFirst(a: seq<seq<char>>, b: seq<seq<char>>)
    requires multiset(a) == multiset(b) && a != []
    requires Ascending(a) && StrictlyAscending(b)
    ensures b != [] && a[0] == b[0]
  {
    assert a[0] in multiset(b);
    assert b[0] in multiset(a);
    var i :| 0 <= i < |b| && b[i] == a[0];
    var j :| 0 <= j < |a| && a[j] == b[0];
    FirstIsLeast(a, j);
    FirstIsLess(b, i);
  }

  lemma FirstIsLeast(names: seq<seq<char>>, k: nat)
    requires Ascending(names) && k < |names|
    ensures Prefix(names[0]) <= Prefix(names[k])
  {
  }

  lemma FirstIsLess(names: seq<seq<char>>, k: nat)
    requires StrictlyAscending(names) && k < |names|
    ensures k == 0 || Prefix(names[0]) < Prefix(names[k])
  {
  }

  lemma RestOf(names: seq<seq<char>>)
    requires names != []
    ensures multiset(names[1..]) == multiset(names) - multiset{names[0]}
    ensures Ascending(names) ==> Ascending(names[1..])
    ensures StrictlyAscending(names) ==> StrictlyAscending(names[1..])
  {
    assert names == [names[0]] + names[1..];
  }

  // Two orderings of the same names by distinct prefixes are the same.
  lemma {:induction false} SortedOrderIsUnique(a: seq<seq<char>>, b: seq<seq<char>>)
    requires multiset(a) == multiset(b)
    requires Ascending(a) && StrictlyAscending(b)
    ensures a == b
  {
    Sequences.SameLength(a, b);
    if a != [] {
      SameFirst(a, b);
      RestOf(a);
      RestOf(b);
      var restA, restB := a[1..], b[1..];
      SortedOrderIsUnique(restA, restB);
      assert a == [a[0]] + restA && b == [b[0]] + restB;
    }
  }

  lemma PrefixOfName(name: seq<char>, index: nat, domain: seq<char>)
    requires WellFormedName(name, index, domain)
    ensures Prefix(name) == index
  {
    assert name[0] == name[..2][0] && name[1] == name[..2][1];
  }

  /** A reader that has the names in any order: sort by prefix, strip prefix and
      suffix, concatenate, decode. */
  function Reassemble(names: seq<seq<char>>, domain: seq<char>): seq<Byte>
    requires forall name :: name in SortByPrefix(names) ==> |name| >= 3 + |domain|
  {
    DecodeBase32(Payload(SortByPrefix(names), domain))
  }

  /** Any permutation of the names of a payload gives the payload back. */
  lemma AnyOrderDecodes(content: seq<Byte>, domain: seq<char>, names: seq<seq<char>>, shuffled: seq<seq<char>>)
    requires Carries(names, EncodeBase32(content), domain)
    requires multiset(shuffled) == multiset(names)
    ensures forall name :: name in SortByPrefix(shuffled) ==> |name| >= 3 + |domain|
    ensures Reassemble(shuffled, domain) == content
  {
    forall i, j | 0 <= i < j < |names| ensures Prefix(names[i]) < Prefix(names[j]) {
      PrefixOfName(names[i], i, domain);
      PrefixOfName(names[j], j, domain);
    }
    SortSorts(shuffled);
    SortedOrderIsUnique(SortByPrefix(shuffled), names);
    Base32RoundTrip(content);
  }
}
