/**
 What the text of Dcode.EncodeBase32 is, in terms of numbers: section 6 of RFC 4648
 without padding, in lower case.

 Source: tinfoil/internal/dcode/dcode.go, Encode.
 */
module Base32 {
  import opened Bytes
  import opened Powers
  import opened Dcode

  // Table 3 of RFC 4648, in lower case: a to z, then 2 to 7.
  function Letter(value: nat): char
    requires value < 32
  {
    if value < 26 then 'a' + value as char else '2' + (value - 26) as char
  }

  // The payload as one number, most significant byte first.
  function Number(content: seq<Byte>): nat {
    if content == [] then 0 else 256 * Number(content[..|content| - 1]) + content[|content| - 1]
  }

  // A number doubled `times` times.
  function Doubled(n: nat, times: nat): nat {
    if times == 0 then n else 2 * Doubled(n, times - 1)
  }

  // The last `count` digits of a number in base 32.
  function Digits(n: nat, count: nat): (text: seq<char>)
    ensures |text| == count
  {
    if count == 0 then [] else Digits(n / 32, count - 1) + [Letter(n % 32)]
  }

  lemma SymbolIsLetter(value: nat)
    requires value < 32
    ensures ToLower(Symbol(value)) == Letter(value)
  {
    if value < 26 {
      assert ToLower(Symbol(value)) == 'a' + value as char;
    } else {
      assert Symbol(value) == '2' + (value - 26) as char;
    }
  }

  // Two fields side by side are one wider field.
  lemma {:induction false} JoinBits(high: nat, low: nat, h: nat, l: nat)
    requires low < Pow2(l)
    ensures ToBits(high * Pow2(l) + low, h + l) == ToBits(high, h) + ToBits(low, l)
  {
    if l > 0 {
      JoinBits(high, low / 2, h, l - 1);
      Halved(high, low, Pow2(l - 1));
    }
  }

  lemma Halved(high: nat, low: nat, p: nat)
    ensures (high * (2 * p) + low) / 2 == high * p + low / 2
    ensures (high * (2 * p) + low) % 2 == low % 2
  {
    assert high * (2 * p) == 2 * (high * p);
  }

  lemma {:induction false} BytesAppend(content: seq<Byte>, last: Byte)
    ensures BytesToBits(content + [last]) == BytesToBits(content) + ToBits(last, 8)
  {
    if content == [] {
      assert [] + [last] == [last] && BytesToBits([last]) == ToBits(last, 8) + [];
    } else {
      BytesAppend(content[1..], last);
      assert (content + [last])[1..] == content[1..] + [last];
    }
  }

  lemma OneMoreByte(front: seq<Byte>, last: Byte, n: nat, w: nat)
    requires BytesToBits(front) == ToBits(n, w)
    ensures BytesToBits(front + [last]) == ToBits(256 * n + last, w + 8)
  {
    BytesAppend(front, last);
    assert Pow2(8) == 256;
    JoinBits(n, last, w, 8);
  }

  lemma {:induction false} BitsOfNumber(content: seq<Byte>)
    ensures BytesToBits(content) == ToBits(Number(content), 8 * |content|)
  {
    if content != [] {
      var front, last := content[..|content| - 1], content[|content| - 1];
      assert content == front + [last];
      BitsOfNumber(front);
      OneMoreByte(front, last, Number(front), 8 * |front|);
    }
  }

  lemma LastGroup(n: nat, w: nat) returns (group: Bits)
    ensures |group| == 5 && Value(group) == n % 32
    ensures ToBits(n, w + 5) == ToBits(n / 32, w) + group
  {
    assert Pow2(5) == 32;
    group := ToBits(n % 32, 5);
    JoinBits(n / 32, n % 32, w, 5);
    ValueOfBits(n % 32, 5);
  }

  // The text of the bits before a group, and then that of the group.
  lemma OneMoreGroup(high: Bits, group: Bits, rest: Bits, text: seq<char>, value: nat)
    requires |group| == 5 && Value(group) == value < 32
    requires EncodeBits(high + (group + rest)) == text + EncodeBits(group + rest)
    ensures EncodeBits(high + group + rest) == text + [Letter(value)] + EncodeBits(rest)
  {
    EncodeGroup(group, rest);
    SymbolIsLetter(value);
    assert high + group + rest == high + (group + rest);
    assert text + [Letter(value)] + EncodeBits(rest) == text + ([Letter(value)] + EncodeBits(rest));
  }

  ghost predicate HasDigits(bits: Bits, n: nat, count: nat) {
    forall rest: Bits :: EncodeBits(bits + rest) == Digits(n, count) + EncodeBits(rest)
  }

  lemma DigitsAppend(high: Bits, group: Bits, n: nat, count: nat)
    requires |group| == 5 && Value(group) == n % 32 && HasDigits(high, n / 32, count)
    ensures HasDigits(high + group, n, count + 1)
  {
    forall rest: Bits
      ensures EncodeBits(high + group + rest) == Digits(n, count + 1) + EncodeBits(rest)
    {
      OneMoreGroup(high, group, rest, Digits(n / 32, count), n % 32);
    }
  }

  lemma {:induction false} EncodesDigits(n: nat, count: nat)
    ensures HasDigits(ToBits(n, 5 * count), n, count)
  {
    if count == 0 {
      forall rest: Bits
        ensures EncodeBits([] + rest) == Digits(n, 0) + EncodeBits(rest)
      {
        assert [] + rest == rest;
      }
    } else {
      var group := LastGroup(n, 5 * (count - 1));
      EncodesDigits(n / 32, count - 1);
      DigitsAppend(ToBits(n / 32, 5 * (count - 1)), group, n, count - 1);
    }
  }

  // The last group counts as filled with zeros.
  lemma {:induction false} Filled(bits: Bits, n: nat, count: nat)
    requires n < 5 && |bits| + n == 5 * count
    ensures EncodeBits(bits) == EncodeBits(bits + Unset(n))
  {
    if |bits| >= 5 {
      Filled(bits[5..], n, count - 1);
      FilledRest(bits, Unset(n));
    } else if n > 0 {
      FilledGroup(bits, Unset(n));
    } else {
      assert bits + Unset(n) == bits;
    }
  }

  lemma FilledRest(bits: Bits, fill: Bits)
    requires |bits| >= 5 && EncodeBits(bits[5..]) == EncodeBits(bits[5..] + fill)
    ensures EncodeBits(bits) == EncodeBits(bits + fill)
  {
    var group, rest := bits[..5], bits[5..];
    EncodeGroup(group, rest);
    EncodeGroup(group, rest + fill);
    assert bits == group + rest && bits + fill == group + (rest + fill);
  }

  lemma FilledGroup(bits: Bits, fill: Bits)
    requires 0 < |bits| < 5 && fill == Unset(5 - |bits|)
    ensures EncodeBits(bits) == EncodeBits(bits + fill)
  {
    EncodeShortGroup(bits);
    EncodeGroup(bits + fill, []);
    assert bits + fill + [] == bits + fill;
  }

  // Bits of zero below a number double it.
  lemma {:induction false} Shifted(n: nat, w: nat, fill: nat)
    ensures ToBits(n, w) + Unset(fill) == ToBits(Doubled(n, fill), w + fill)
  {
    if fill > 0 {
      Shifted(n, w, fill - 1);
      assert Unset(fill) == Unset(fill - 1) + [false];
      assert ToBits(n, w) + Unset(fill) == ToBits(n, w) + Unset(fill - 1) + [false];
    }
  }

  /** The text is the payload as one number, shifted up to whole symbols by fewer
      than five bits, in base 32 over the alphabet. */
  lemma EncodesTheNumber(content: seq<Byte>, fill: nat, count: nat)
    requires fill < 5 && 8 * |content| + fill == 5 * count
    ensures EncodeBase32(content) == Digits(Doubled(Number(content), fill), count)
  {
    var n := Number(content);
    BitsOfNumber(content);
    Shifted(n, 8 * |content|, fill);
    Filled(BytesToBits(content), fill, count);
    BitsAreDigits(Doubled(n, fill), count);
  }

  lemma BitsAreDigits(n: nat, count: nat)
    ensures EncodeBits(ToBits(n, 5 * count)) == Digits(n, count)
  {
    EncodesDigits(n, count);
    WithoutRest(ToBits(n, 5 * count), n, count);
  }

  lemma WithoutRest(bits: Bits, n: nat, count: nat)
    requires HasDigits(bits, n, count)
    ensures EncodeBits(bits) == Digits(n, count)
  {
    var none: Bits := [];
    assert EncodeBits(bits + none) == Digits(n, count) + EncodeBits(none);
    assert bits + none == bits && EncodeBits(none) == [];
  }
}
