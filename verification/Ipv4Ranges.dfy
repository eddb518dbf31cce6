/**
 Address prefixes, and the two lists of non-public IPv4 ranges the program keeps:
 one as nftables text, one as parsed prefixes.

 Source: tinfoil/internal/firewall/containers.go and tinfoil/internal/egress/egress.go.
 */
module Ipv4Ranges {
  import opened Powers

  datatype Prefix = Prefix(base: nat, length: nat)

  // Whether the first `prefix.length` of `width` bits agree.
  predicate Contains(prefix: Prefix, width: nat, address: nat) {
    prefix.length <= width &&
    address / Pow2(width - prefix.length) == prefix.base / Pow2(width - prefix.length)
  }

  predicate InAny(prefixes: seq<Prefix>, width: nat, address: nat) {
    exists i :: 0 <= i < |prefixes| && Contains(prefixes[i], width, address)
  }

  // The set literal of the firewall script.
  const NFT_RANGES: seq<Prefix> := [
    Prefix(0x0000_0000, 8), Prefix(0x0A00_0000, 8), Prefix(0x6440_0000, 10),  // 0.0.0.0/8, 10.0.0.0/8, 100.64.0.0/10
    Prefix(0x7F00_0000, 8), Prefix(0xA9FE_0000, 16), Prefix(0xAC10_0000, 12),  // 127.0.0.0/8, 169.254.0.0/16, 172.16.0.0/12
    Prefix(0xC000_0000, 24), Prefix(0xC000_0200, 24), Prefix(0xC0A8_0000, 16),  // 192.0.0.0/24, 192.0.2.0/24, 192.168.0.0/16
    Prefix(0xC612_0000, 15), Prefix(0xC633_6400, 24), Prefix(0xCB00_7100, 24),  // 198.18.0.0/15, 198.51.100.0/24, 203.0.113.0/24
    Prefix(0xE000_0000, 4), Prefix(0xF000_0000, 4), Prefix(0xFFFF_FFFF, 32)  // 224.0.0.0/4, 240.0.0.0/4, 255.255.255.255/32
  ]

  // The prefixes of the resolver's filter.
  const RESOLVER_RANGES: seq<Prefix> := [
    Prefix(0x0000_0000, 8), Prefix(0x0A00_0000, 8),  // 0.0.0.0/8, 10.0.0.0/8
    Prefix(0x6440_0000, 10), Prefix(0x7F00_0000, 8),  // 100.64.0.0/10, 127.0.0.0/8
    Prefix(0xA9FE_0000, 16), Prefix(0xAC10_0000, 12),  // 169.254.0.0/16, 172.16.0.0/12
    Prefix(0xC000_0000, 24), Prefix(0xC000_0200, 24),  // 192.0.0.0/24, 192.0.2.0/24
    Prefix(0xC0A8_0000, 16), Prefix(0xC612_0000, 15),  // 192.168.0.0/16, 198.18.0.0/15
    Prefix(0xC633_6400, 24), Prefix(0xCB00_7100, 24),  // 198.51.100.0/24, 203.0.113.0/24
    Prefix(0xE000_0000, 4), Prefix(0xF000_0000, 4)  // 224.0.0.0/4, 240.0.0.0/4
  ]

  predicate NonPublic(address: nat) { InAny(NFT_RANGES, 32, address) }

  lemma InAnyAppend(prefixes: seq<Prefix>, last: Prefix, width: nat, address: nat)
    ensures InAny(prefixes + [last], width, address) <==> InAny(prefixes, width, address) || Contains(last, width, address)
  {
    var longer := prefixes + [last];
    if InAny(prefixes, width, address) {
      var i :| 0 <= i < |prefixes| && Contains(prefixes[i], width, address);
      assert Contains(longer[i], width, address);
    }
    if Contains(last, width, address) {
      assert Contains(longer[|prefixes|], width, address);
    }
  }

  const RESERVED: Prefix := Prefix(0xF000_0000, 4)
  const BROADCAST: Prefix := Prefix(0xFFFF_FFFF, 32)

  lemma ListsDiffer()
    ensures NFT_RANGES == RESOLVER_RANGES + [BROADCAST]
    ensures |RESOLVER_RANGES| == 14 && RESOLVER_RANGES[13] == RESERVED
  {
  }

  // 255.255.255.255/32 lies inside 240.0.0.0/4.
  lemma BroadcastIsReserved(address: nat)
    requires Contains(BROADCAST, 32, address)
    ensures Contains(RESERVED, 32, address)
  {
    assert Pow2(0) == 1;
    assert address == BROADCAST.base;
    Pow2Of28();
  }

  lemma Pow2Of28()
    ensures Pow2(28) == 0x1000_0000
  {
    assert Pow2(7) == 128;
    assert Pow2(14) == 0x4000;
    assert Pow2(21) == 0x20_0000;
  }

  /** The two lists, though they differ, denote the same addresses. */
  lemma SameAddresses(address: nat)
    ensures InAny(NFT_RANGES, 32, address) <==> InAny(RESOLVER_RANGES, 32, address)
  {
    ListsDiffer();
    InAnyAppend(RESOLVER_RANGES, BROADCAST, 32, address);
    if Contains(BROADCAST, 32, address) {
      BroadcastIsReserved(address);
      assert Contains(RESOLVER_RANGES[13], 32, address);
    }
  }

  // ---------- The ranges, octet by octet ----------

  predicate NonPublicOctets(a: nat, b: nat, c: nat) {
    || a == 0 || a == 10 || a == 127 || a >= 224
    || (a == 100 && 64 <= b < 128)
    || (a == 169 && b == 254)
    || (a == 172 && 16 <= b < 32)
    || (a == 192 && (b == 168 || (b == 0 && (c == 0 || c == 2))))
    || (a == 198 && (b == 18 || b == 19 || (b == 51 && c == 100)))
    || (a == 203 && b == 0 && c == 113)
  }

  lemma PowersUsed()
    ensures Pow2(8) == 0x100 && Pow2(16) == 0x1_0000 && Pow2(17) == 0x2_0000
    ensures Pow2(20) == 0x10_0000 && Pow2(22) == 0x40_0000 && Pow2(24) == 0x100_0000
  {
    assert Pow2(8) == 0x100;
    assert Pow2(16) == 0x1_0000;
    assert Pow2(20) == 0x10_0000;
    assert Pow2(24) == 0x100_0000;
  }

  // A list cut in two.
  lemma InAnySplits(prefixes: seq<Prefix>, k: nat, width: nat, address: nat)
    requires k < |prefixes|
    ensures InAny(prefixes[k..], width, address) <==> Contains(prefixes[k], width, address) || InAny(prefixes[k + 1..], width, address)
  {
    var rest := prefixes[k..];
    if InAny(rest, width, address) {
      var i :| 0 <= i < |rest| && Contains(rest[i], width, address);
      assert i > 0 ==> Contains(prefixes[k + 1..][i - 1], width, address);
    }
    if InAny(prefixes[k + 1..], width, address) {
      var i :| 0 <= i < |prefixes| - k - 1 && Contains(prefixes[k + 1..][i], width, address);
      assert Contains(rest[i + 1], width, address);
    }
    assert rest[0] == prefixes[k];
  }

  lemma WholeOctets(address: nat, a: nat, b: nat, c: nat, d: nat)
    requires address == ((a * 256 + b) * 256 + c) * 256 + d && b < 256 && c < 256 && d < 256
    ensures address / 0x100_0000 == a && address / 0x1_0000 == a * 256 + b && address / 0x100 == (a * 256 + b) * 256 + c
    ensures address / 0x40_0000 == a * 4 + b / 64 && address / 0x10_0000 == a * 16 + b / 16 && address / 0x2_0000 == a * 128 + b / 2
  {
  }

  lemma InPrefix(prefix: Prefix, address: nat, unit: nat)
    requires prefix.length <= 32 && Pow2(32 - prefix.length) == unit
    ensures Contains(prefix, 32, address) <==> address / unit == prefix.base / unit
  {
  }

  lemma Slash8(address: nat, a: nat, b: nat, c: nat, d: nat)
    requires address == ((a * 256 + b) * 256 + c) * 256 + d && a < 256 && b < 256 && c < 256 && d < 256
    ensures Contains(RESOLVER_RANGES[0], 32, address) <==> a == 0
    ensures Contains(RESOLVER_RANGES[1], 32, address) <==> a == 10
    ensures Contains(RESOLVER_RANGES[3], 32, address) <==> a == 127
  {
    PowersUsed();
    WholeOctets(address, a, b, c, d);
    InPrefix(RESOLVER_RANGES[0], address, 0x1000000);
    InPrefix(RESOLVER_RANGES[1], address, 0x1000000);
    InPrefix(RESOLVER_RANGES[3], address, 0x1000000);
  }

  lemma Slash10(address: nat, a: nat, b: nat, c: nat, d: nat)
    requires address == ((a * 256 + b) * 256 + c) * 256 + d && a < 256 && b < 256 && c < 256 && d < 256
    ensures Contains(RESOLVER_RANGES[2], 32, address) <==> (a == 100 && 64 <= b < 128)
  {
    PowersUsed();
    WholeOctets(address, a, b, c, d);
    InPrefix(RESOLVER_RANGES[2], address, 0x400000);
  }

  lemma Slash12(address: nat, a: nat, b: nat, c: nat, d: nat)
    requires address == ((a * 256 + b) * 256 + c) * 256 + d && a < 256 && b < 256 && c < 256 && d < 256
    ensures Contains(RESOLVER_RANGES[5], 32, address) <==> (a == 172 && 16 <= b < 32)
  {
    PowersUsed();
    WholeOctets(address, a, b, c, d);
    InPrefix(RESOLVER_RANGES[5], address, 0x100000);
  }

  lemma Slash15(address: nat, a: nat, b: nat, c: nat, d: nat)
    requires address == ((a * 256 + b) * 256 + c) * 256 + d && a < 256 && b < 256 && c < 256 && d < 256
    ensures Contains(RESOLVER_RANGES[9], 32, address) <==> (a == 198 && (b == 18 || b == 19))
  {
    PowersUsed();
    WholeOctets(address, a, b, c, d);
    InPrefix(RESOLVER_RANGES[9], address, 0x20000);
  }

  lemma Slash16(address: nat, a: nat, b: nat, c: nat, d: nat)
    requires address == ((a * 256 + b) * 256 + c) * 256 + d && a < 256 && b < 256 && c < 256 && d < 256
    ensures Contains(RESOLVER_RANGES[4], 32, address) <==> (a == 169 && b == 254)
    ensures Contains(RESOLVER_RANGES[8], 32, address) <==> (a == 192 && b == 168)
  {
    PowersUsed();
    WholeOctets(address, a, b, c, d);
    InPrefix(RESOLVER_RANGES[4], address, 0x10000);
    InPrefix(RESOLVER_RANGES[8], address, 0x10000);
  }

  lemma Slash24(address: nat, a: nat, b: nat, c: nat, d: nat)
    requires address == ((a * 256 + b) * 256 + c) * 256 + d && a < 256 && b < 256 && c < 256 && d < 256
    ensures Contains(RESOLVER_RANGES[6], 32, address) <==> (a == 192 && b == 0 && c == 0)
    ensures Contains(RESOLVER_RANGES[7], 32, address) <==> (a == 192 && b == 0 && c == 2)
    ensures Contains(RESOLVER_RANGES[10], 32, address) <==> (a == 198 && b == 51 && c == 100)
    ensures Contains(RESOLVER_RANGES[11], 32, address) <==> (a == 203 && b == 0 && c == 113)
  {
    PowersUsed();
    WholeOctets(address, a, b, c, d);
    InPrefix(RESOLVER_RANGES[6], address, 0x100);
    InPrefix(RESOLVER_RANGES[7], address, 0x100);
    InPrefix(RESOLVER_RANGES[10], address, 0x100);
    InPrefix(RESOLVER_RANGES[11], address, 0x100);
  }

  lemma Slash4(address: nat, a: nat, b: nat, c: nat, d: nat)
    requires address == ((a * 256 + b) * 256 + c) * 256 + d && a < 256 && b < 256 && c < 256 && d < 256
    ensures Contains(RESOLVER_RANGES[12], 32, address) <==> 224 <= a < 240
    ensures Contains(RESOLVER_RANGES[13], 32, address) <==> 240 <= a < 256
  {
    Pow2Of28();
    WholeOctets(address, a, b, c, d);
    InPrefix(RESOLVER_RANGES[12], address, 0x10000000);
    InPrefix(RESOLVER_RANGES[13], address, 0x10000000);
  }

  lemma FirstSeven(address: nat)
    ensures InAny(RESOLVER_RANGES, 32, address) <==>
         || InAny(RESOLVER_RANGES[7..], 32, address)
         || Contains(RESOLVER_RANGES[0], 32, address)
         || Contains(RESOLVER_RANGES[1], 32, address)
         || Contains(RESOLVER_RANGES[2], 32, address)
         || Contains(RESOLVER_RANGES[3], 32, address)
         || Contains(RESOLVER_RANGES[4], 32, address)
         || Contains(RESOLVER_RANGES[5], 32, address)
         || Contains(RESOLVER_RANGES[6], 32, address)
  {
    assert RESOLVER_RANGES[0..] == RESOLVER_RANGES;
    InAnySplits(RESOLVER_RANGES, 0, 32, address);
    InAnySplits(RESOLVER_RANGES, 1, 32, address);
    InAnySplits(RESOLVER_RANGES, 2, 32, address);
    InAnySplits(RESOLVER_RANGES, 3, 32, address);
    InAnySplits(RESOLVER_RANGES, 4, 32, address);
    InAnySplits(RESOLVER_RANGES, 5, 32, address);
    InAnySplits(RESOLVER_RANGES, 6, 32, address);
  }

  lemma LastSeven(address: nat)
    ensures InAny(RESOLVER_RANGES[7..], 32, address) <==>
         || Contains(RESOLVER_RANGES[7], 32, address)
         || Contains(RESOLVER_RANGES[8], 32, address)
         || Contains(RESOLVER_RANGES[9], 32, address)
         || Contains(RESOLVER_RANGES[10], 32, address)
         || Contains(RESOLVER_RANGES[11], 32, address)
         || Contains(RESOLVER_RANGES[12], 32, address)
         || Contains(RESOLVER_RANGES[13], 32, address)
  {
    assert RESOLVER_RANGES[14..] == [];
    InAnySplits(RESOLVER_RANGES, 7, 32, address);
    InAnySplits(RESOLVER_RANGES, 8, 32, address);
    InAnySplits(RESOLVER_RANGES, 9, 32, address);
    InAnySplits(RESOLVER_RANGES, 10, 32, address);
    InAnySplits(RESOLVER_RANGES, 11, 32, address);
    InAnySplits(RESOLVER_RANGES, 12, 32, address);
    InAnySplits(RESOLVER_RANGES, 13, 32, address);
  }

  /** The addresses that are not public, in dotted form. */
  lemma NonPublicExactly(address: nat, a: nat, b: nat, c: nat, d: nat)
    requires address == ((a * 256 + b) * 256 + c) * 256 + d && a < 256 && b < 256 && c < 256 && d < 256
    ensures NonPublic(address) <==> NonPublicOctets(a, b, c)
  {
    SameAddresses(address);
    FirstSeven(address);
    LastSeven(address);
    Slash8(address, a, b, c, d);
    Slash10(address, a, b, c, d);
    Slash12(address, a, b, c, d);
    Slash15(address, a, b, c, d);
    Slash16(address, a, b, c, d);
    Slash24(address, a, b, c, d);
    Slash4(address, a, b, c, d);
  }
}
