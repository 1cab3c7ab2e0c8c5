/** UTF-8, encoded after section 3 of RFC 3629 and decoded as idna.c does. */
module Utf8 {
  import opened Common

  predicate IsScalar(c: int) {
    0 <= c <= 0x10FFFF && (c < 0xD800 || 0xDFFF < c)
  }

  type Scalar = c: int | 0 <= c <= 0x10FFFF && (c < 0xD800 || 0xDFFF < c)

  function Encode(c: Scalar): (b: seq<Byte>)
    ensures 1 <= |b| <= 4
  {
    var v: int := c;
    if v < 0x80 then [v]
    else if v < 0x800 then [0xC0 + v / 64, 0x80 + v % 64]
    else if v < 0x10000 then [0xE0 + v / 4096, 0x80 + v / 64 % 64, 0x80 + v % 64]
    else [0xF0 + v / 262144, 0x80 + v / 4096 % 64, 0x80 + v / 64 % 64, 0x80 + v % 64]
  }

  function EncodeAll(cps: seq<Scalar>): seq<Byte> {
    if cps == [] then [] else Encode(cps[0]) + EncodeAll(cps[1..])
  }

  /** Exclusive or of two-bit numbers. */
  function Xor2(x: int, y: int): int
    requires 0 <= x < 4 && 0 <= y < 4
    ensures 0 <= Xor2(x, y) < 4
  {
    if x == y then 0 else if x == 0 then y else if y == 0 then x else 6 - x - y
  }

  function Top(b: Byte): (t: int)
    ensures 0 <= t < 4
  {
    b as int / 64
  }

  function Payload(b: Byte): (p: int)
    ensures 0 <= p < 64
  {
    b as int % 64
  }

  /** Three continuation octets, checked by the exclusive or of their top two bits. */
  function Combine(a: int, b: Byte, c: Byte, d: Byte, min: int): Option<Scalar> {
    var value := a * 262144 + Payload(b) * 4096 + Payload(c) * 64 + Payload(d);
    if Xor2(Xor2(Top(b), Top(c)), Top(d)) != 2 || value < min || !IsScalar(value) then None else Some(value)
  }

  function Sized(c: Option<Scalar>, n: nat): Option<(Scalar, nat)> {
    match c
    case None => None
    case Some(v) => Some((v, n))
  }

  /** The first character of a non-empty text, and how many octets it takes. A lead octet
      with too few octets after it is read as the lead of a shorter sequence. */
  function Decode1(s: seq<Byte>): (r: Option<(Scalar, nat)>)
    requires s != []
    ensures r.Some? ==> 1 <= r.value.1 <= |s|
  {
    var a, left := s[0], |s| - 1;
    if a < 128 then Some((a, 1))
    else if a > 0xF7 then None
    else if left >= 3 && a > 0xEF then Sized(Combine(a % 8, s[1], s[2], s[3], 0x10000), 4)
    else if left >= 2 && a > 0xDF then Sized(Combine(0, 0x80 + a % 16, s[1], s[2], 0x800), 3)
    else if left >= 1 && a > 0xBF then Sized(Combine(0, 0x80, 0x80 + a % 32, s[1], 0x80), 2)
    else None
  }

  function DecodeAll(s: seq<Byte>): Option<seq<Scalar>>
    decreases |s|
  {
    if s == [] then Some([])
    else
      match Decode1(s)
      case None => None
      case Some((c, n)) =>
        match DecodeAll(s[n..])
        case None => None
        case Some(cs) => Some([c] + cs)
  }

  lemma Continuation(x: int)
    requires 0 <= x < 64
    ensures Payload(0x80 + x) == x && Top(0x80 + x) == 2
  {
  }

  lemma CombineDigits(a: int, x: int, y: int, z: int, min: int)
    requires 0 <= x < 64 && 0 <= y < 64 && 0 <= z < 64
    requires var v := a * 262144 + x * 4096 + y * 64 + z; v >= min && IsScalar(v)
    ensures Combine(a, 0x80 + x, 0x80 + y, 0x80 + z, min) == Some(a * 262144 + x * 4096 + y * 64 + z)
  {
    Continuation(x);
    Continuation(y);
    Continuation(z);
  }

  lemma Digits64(v: nat)
    ensures v == v / 262144 * 262144 + v / 4096 % 64 * 4096 + v / 64 % 64 * 64 + v % 64
  {
    assert v / 64 / 64 == v / 4096 && v / 4096 / 64 == v / 262144;
  }

  lemma LeadDigit(lead: int, x: int, m: int)
    requires (lead == 0xC0 && m == 32) || (lead == 0xE0 && m == 16) || (lead == 0xF0 && m == 8)
    requires 0 <= x < m
    ensures (lead + x) % m == x
  {
  }

  lemma {:induction false} Two(v: int, rest: seq<Byte>)
    requires 0x80 <= v < 0x800
    ensures Decode1(Encode(v) + rest) == Some((v, 2))
  {
    var y, z := v / 64, v % 64;
    var s := Encode(v) + rest;
    assert s[0] == 0xC0 + y && s[1] == 0x80 + z;
    LeadDigit(0xC0, y, 32);
    CombineDigits(0, 0, y, z, 0x80);
  }

  lemma ThreeDigits(v: nat)
    requires v < 0x10000
    ensures v == v / 4096 * 4096 + v / 64 % 64 * 64 + v % 64 && v / 4096 < 16
  {
    Digits64(v);
  }

  lemma {:induction false} DecodeThree(x: int, y: int, z: int, rest: seq<Byte>)
    requires 0 <= x < 16 && 0 <= y < 64 && 0 <= z < 64
    ensures Decode1([0xE0 + x, 0x80 + y, 0x80 + z] + rest)
         == Sized(Combine(0, 0x80 + x, 0x80 + y, 0x80 + z, 0x800), 3)
  {
    var s := [0xE0 + x, 0x80 + y, 0x80 + z] + rest;
    assert s[0] == 0xE0 + x && s[1] == 0x80 + y && s[2] == 0x80 + z;
    LeadDigit(0xE0, x, 16);
  }

  lemma {:induction false} Three(v: int, rest: seq<Byte>)
    requires 0x800 <= v < 0x10000 && IsScalar(v)
    ensures Decode1(Encode(v) + rest) == Some((v, 3))
  {
    var x, y, z := v / 4096, v / 64 % 64, v % 64;
    ThreeDigits(v);
    CombineDigits(0, x, y, z, 0x800);
    DecodeThree(x, y, z, rest);
  }

  lemma FourDigits(v: nat)
    requires v <= 0x10FFFF
    ensures v == v / 262144 * 262144 + v / 4096 % 64 * 4096 + v / 64 % 64 * 64 + v % 64 && v / 262144 < 8
  {
    Digits64(v);
  }

  lemma {:induction false} DecodeFour(a: int, x: int, y: int, z: int, rest: seq<Byte>)
    requires 0 <= a < 8 && 0 <= x < 64 && 0 <= y < 64 && 0 <= z < 64
    ensures Decode1([0xF0 + a, 0x80 + x, 0x80 + y, 0x80 + z] + rest)
         == Sized(Combine(a, 0x80 + x, 0x80 + y, 0x80 + z, 0x10000), 4)
  {
    LeadDigit(0xF0, a, 8);
  }

  lemma {:induction false} Four(v: int, rest: seq<Byte>)
    requires 0x10000 <= v && IsScalar(v)
    ensures Decode1(Encode(v) + rest) == Some((v, 4))
  {
    var a, x, y, z := v / 262144, v / 4096 % 64, v / 64 % 64, v % 64;
    FourDigits(v);
    CombineDigits(a, x, y, z, 0x10000);
    DecodeFour(a, x, y, z, rest);
  }

  /** Decoding undoes encoding, for every scalar value and whatever follows. */
  lemma {:induction false} DecodeEncode(c: Scalar, rest: seq<Byte>)
    ensures Decode1(Encode(c) + rest) == Some((c, |Encode(c)|))
  {
    var v: int := c;
    Digits64(v);
    if 0x80 <= v < 0x800 {
      Two(v, rest);
    } else if 0x800 <= v < 0x10000 {
      Three(v, rest);
    } else if v >= 0x10000 {
      Four(v, rest);
    }
  }

  lemma {:induction false} DecodeEncodeAll(cps: seq<Scalar>)
    ensures DecodeAll(EncodeAll(cps)) == Some(cps)
  {
    if cps != [] {
      DecodeEncode(cps[0], EncodeAll(cps[1..]));
      assert EncodeAll(cps)[|Encode(cps[0])|..] == EncodeAll(cps[1..]);
      assert [cps[0]] + cps[1..] == cps;
      DecodeEncodeAll(cps[1..]);
    }
  }

  lemma {:induction false} DecodedLength(s: seq<Byte>)
    ensures DecodeAll(s).Some? ==> |DecodeAll(s).value| <= |s|
    decreases |s|
  {
    if s != [] && Decode1(s).Some? {
      DecodedLength(s[Decode1(s).value.1..]);
    }
  }

  function Prepend(done: seq<Scalar>, more: Option<seq<Scalar>>): Option<seq<Scalar>> {
    match more
    case None => None
    case Some(cs) => Some(done + cs)
  }

  lemma {:induction false} PrependNothing(more: Option<seq<Scalar>>)
    ensures Prepend([], more) == more
    ensures more.Some? ==> Prepend(more.value, Some([])) == more
  {
    if more.Some? {
      assert [] + more.value == more.value && more.value + [] == more.value;
    }
  }

  // ----- what is accepted

  /** Whether the bit of that weight is set, as a number. */
  function Bit(b: Byte, weight: int): (i: int)
    requires weight > 0
    ensures 0 <= i <= 1
  {
    b as int / weight % 2
  }

  /** The top two bits of three octets: of the higher ones an odd number is set, of the lower
      ones an even number. Continuation octets proper have just the higher one set. */
  predicate Balanced(b: Byte, c: Byte, d: Byte) {
    && (Bit(b, 128) + Bit(c, 128) + Bit(d, 128)) % 2 == 1
    && (Bit(b, 64) + Bit(c, 64) + Bit(d, 64)) % 2 == 0
  }

  lemma XorParts(x: int, y: int, h: int, l: int, k: int, m: int)
    requires 0 <= h <= 1 && 0 <= l <= 1 && 0 <= k <= 1 && 0 <= m <= 1 && x == 2 * h + l && y == 2 * k + m
    ensures Xor2(x, y) == 2 * (if h == k then 0 else 1) + if l == m then 0 else 1
  {
  }

  lemma XorThree(h: int, l: int, k: int, m: int, i: int, j: int)
    requires 0 <= h <= 1 && 0 <= l <= 1 && 0 <= k <= 1 && 0 <= m <= 1 && 0 <= i <= 1 && 0 <= j <= 1
    ensures Xor2(Xor2(2 * h + l, 2 * k + m), 2 * i + j) == 2 <==> (h + k + i) % 2 == 1 && (l + m + j) % 2 == 0
  {
    var h', l' := if h == k then 0 else 1, if l == m then 0 else 1;
    XorParts(2 * h + l, 2 * k + m, h, l, k, m);
    XorParts(2 * h' + l', 2 * i + j, h', l', i, j);
  }

  lemma TopParts(b: Byte)
    ensures Top(b) == 2 * Bit(b, 128) + Bit(b, 64)
  {
  }

  lemma {:induction false} BalancedIff(b: Byte, c: Byte, d: Byte)
    ensures Xor2(Xor2(Top(b), Top(c)), Top(d)) == 2 <==> Balanced(b, c, d)
  {
    TopParts(b);
    TopParts(c);
    TopParts(d);
    XorThree(Bit(b, 128), Bit(b, 64), Bit(c, 128), Bit(c, 64), Bit(d, 128), Bit(d, 64));
  }

  lemma SplitIff(v: nat, a: nat, x: nat, y: nat, z: nat)
    requires x < 64 && y < 64 && z < 64
    ensures v == a * 262144 + x * 4096 + y * 64 + z
            <==> v / 262144 == a && v / 4096 % 64 == x && v / 64 % 64 == y && v % 64 == z
  {
    Digits64(v);
    if v == a * 262144 + x * 4096 + y * 64 + z {
      assert v % 64 == z && v / 64 == a * 4096 + x * 64 + y;
      assert v / 64 % 64 == y && v / 64 / 64 == a * 64 + x;
      assert v / 64 / 64 == v / 4096 && v / 4096 / 64 == v / 262144;
    }
  }

  lemma {:induction false} CombineIff(a: nat, b: Byte, c: Byte, d: Byte, min: int, v: Scalar)
    requires min >= 0
    ensures Combine(a, b, c, d, min) == Some(v)
            <==> Balanced(b, c, d) && v >= min && v as int / 262144 == a && v as int / 4096 % 64 == b as int % 64
                 && v as int / 64 % 64 == c as int % 64 && v as int % 64 == d as int % 64
  {
    BalancedIff(b, c, d);
    SplitIff(v, a, b as int % 64, c as int % 64, d as int % 64);
  }

  /** The octets carry the digits of the encoding of `c`; their own top bits are another
      matter. */
  ghost predicate SameDigits(s: seq<Byte>, c: Scalar, n: nat) {
    && n == |Encode(c)| <= |s|
    && (forall i :: 1 <= i < n ==> s[i] as int % 64 == Encode(c)[i] as int % 64)
    && (n == 1 ==> s[0] == Encode(c)[0])
    && (n == 2 ==> s[0] as int % 32 == Encode(c)[0] as int % 32)
    && (n == 3 ==> s[0] as int % 16 == Encode(c)[0] as int % 16)
    && (n == 4 ==> s[0] as int % 8 == Encode(c)[0] as int % 8)
  }

  /** The lead octet is one for `n` octets, or for more than there are; the top bits of the
      others cancel out as those of continuation octets would. */
  predicate LooksRight(s: seq<Byte>, n: nat) {
    match n
    case 1 => |s| >= 1 && s[0] < 0x80
    case 2 => |s| >= 2 && 0xC0 <= s[0] < (if |s| == 2 then 0xF8 else 0xE0) && Balanced(0x80, 0x80, s[1])
    case 3 => |s| >= 3 && 0xE0 <= s[0] < (if |s| == 3 then 0xF8 else 0xF0) && Balanced(0x80, s[1], s[2])
    case 4 => |s| >= 4 && 0xF0 <= s[0] < 0xF8 && Balanced(s[1], s[2], s[3])
    case _ => false
  }

  lemma TopsTwo(a: Byte, b: Byte)
    ensures Balanced(0x80, 0x80 + a % 32, b) <==> Balanced(0x80, 0x80, b)
  {
  }

  lemma TopsThree(a: Byte, b: Byte, c: Byte)
    ensures Balanced(0x80 + a % 16, b, c) <==> Balanced(0x80, b, c)
  {
  }

  /** Which digits a number of some size has. */
  lemma HighDigits(v: nat)
    ensures v < 0x10000 <==> v / 262144 == 0 && v / 4096 % 64 < 16
    ensures v < 0x10000 ==> v / 4096 % 64 == v / 4096
    ensures v < 0x800 <==> v / 262144 == 0 && v / 4096 % 64 == 0 && v / 64 % 64 < 32
    ensures v < 0x800 ==> v / 64 % 64 == v / 64
  {
    Digits64(v);
  }

  lemma {:induction false} TwoDigits(s: seq<Byte>, c: Scalar)
    requires |s| >= 2
    ensures SameDigits(s, c, 2) <==> 0x80 <= c < 0x800 && c as int / 64 == s[0] as int % 32 && c as int % 64 == s[1] as int % 64
  {
    var e := Encode(c);
    if 0x80 <= c < 0x800 {
      LeadDigit(0xC0, c as int / 64, 32);
      Continuation(c as int % 64);
      assert e[0] as int % 32 == c as int / 64 && e[1] as int % 64 == c as int % 64;
    }
  }

  lemma {:induction false} TwoIff(s: seq<Byte>, c: Scalar)
    requires |s| >= 2
    ensures Decode1(s) == Some((c, 2)) <==> LooksRight(s, 2) && SameDigits(s, c, 2)
  {
    var x: Byte := 0x80 + s[0] % 32;
    Continuation(s[0] as int % 32);
    CombineIff(0, 0x80, x, s[1], 0x80, c);
    TwoDigits(s, c);
    TopsTwo(s[0], s[1]);
    HighDigits(c);
  }

  lemma {:induction false} ThreeDigitsIff(s: seq<Byte>, c: Scalar)
    requires |s| >= 3
    ensures SameDigits(s, c, 3)
            <==> 0x800 <= c < 0x10000 && c as int / 4096 == s[0] as int % 16 && c as int / 64 % 64 == s[1] as int % 64
                 && c as int % 64 == s[2] as int % 64
  {
    var e := Encode(c);
    if 0x800 <= c < 0x10000 {
      LeadDigit(0xE0, c as int / 4096, 16);
      Continuation(c as int / 64 % 64);
      Continuation(c as int % 64);
      assert e[0] as int % 16 == c as int / 4096 && e[1] as int % 64 == c as int / 64 % 64 && e[2] as int % 64 == c as int % 64;
    }
  }

  lemma {:induction false} ThreeIff(s: seq<Byte>, c: Scalar)
    requires |s| >= 3
    ensures Decode1(s) == Some((c, 3)) <==> LooksRight(s, 3) && SameDigits(s, c, 3)
  {
    var x: Byte := 0x80 + s[0] % 16;
    Continuation(s[0] as int % 16);
    CombineIff(0, x, s[1], s[2], 0x800, c);
    ThreeDigitsIff(s, c);
    TopsThree(s[0], s[1], s[2]);
    HighDigits(c);
  }

  lemma {:induction false} FourDigitsIff(s: seq<Byte>, c: Scalar)
    requires |s| >= 4
    ensures SameDigits(s, c, 4)
            <==> 0x10000 <= c && c as int / 262144 == s[0] as int % 8 && c as int / 4096 % 64 == s[1] as int % 64
                 && c as int / 64 % 64 == s[2] as int % 64 && c as int % 64 == s[3] as int % 64
  {
    var e := Encode(c);
    if 0x10000 <= c {
      LeadDigit(0xF0, c as int / 262144, 8);
      Continuation(c as int / 4096 % 64);
      Continuation(c as int / 64 % 64);
      Continuation(c as int % 64);
      assert e[0] as int % 8 == c as int / 262144 && e[1] as int % 64 == c as int / 4096 % 64;
      assert e[2] as int % 64 == c as int / 64 % 64 && e[3] as int % 64 == c as int % 64;
    }
  }

  lemma {:induction false} FourIff(s: seq<Byte>, c: Scalar)
    requires |s| >= 4
    ensures Decode1(s) == Some((c, 4)) <==> LooksRight(s, 4) && SameDigits(s, c, 4)
  {
    CombineIff(s[0] % 8, s[1], s[2], s[3], 0x10000, c);
    FourDigitsIff(s, c);
  }

  /** A text is read as starting with `c` exactly when its first octets carry the digits of
      the shortest encoding of `c` and look right; that they are that encoding is not asked. */
  lemma {:induction false} DecodesIff(s: seq<Byte>, c: Scalar, n: nat)
    requires s != []
    ensures Decode1(s) == Some((c, n)) <==> LooksRight(s, n) && SameDigits(s, c, n)
  {
    if n == 2 && |s| >= 2 {
      TwoIff(s, c);
    } else if n == 3 && |s| >= 3 {
      ThreeIff(s, c);
    } else if n == 4 && |s| >= 4 {
      FourIff(s, c);
    }
  }

  // ----- decoding part of a text

  /** A character decodes the same when the text is cut behind it. */
  lemma {:induction false} DecodeCut(s: seq<Byte>, m: nat)
    requires s != [] && Decode1(s).Some? && Decode1(s).value.1 <= m <= |s|
    ensures Decode1(s[..m]) == Decode1(s)
  {
  }

  /** Whatever reads one character off the front of a text and says how long it was. */
  type Reader = seq<Byte> -> Option<(Scalar, nat)>

  /** Reading `s` one character after another gives `cs` and then stands at `m`. */
  ghost predicate Reads(read: Reader, s: seq<Byte>, m: nat, cs: seq<Scalar>)
    decreases |cs|
  {
    if cs == [] then m == 0
    else
      && read(s).Some? && read(s).value.0 == cs[0]
      && read(s).value.1 <= |s| && read(s).value.1 <= m
      && Reads(read, s[read(s).value.1..], m - read(s).value.1, cs[1..])
  }

  lemma {:induction false} ReadsSnoc(read: Reader, s: seq<Byte>, m: nat, cs: seq<Scalar>, c: Scalar, n: nat)
    requires Reads(read, s, m, cs) && m < |s| && read(s[m..]) == Some((c, n)) && n <= |s| - m
    ensures Reads(read, s, m + n, cs + [c])
    decreases |cs|
  {
    if cs == [] {
      assert s[0..] == s && cs + [c] == [c];
    } else {
      var k := read(s).value.1;
      assert s[k..][m - k..] == s[m..];
      ReadsSnoc(read, s[k..], m - k, cs[1..], c, n);
      assert (cs + [c])[1..] == cs[1..] + [c];
    }
  }

  function Front(s: seq<Byte>): Option<(Scalar, nat)> {
    if s == [] then None else Decode1(s)
  }

  /** Decoding `s` gives `cs` and then stands at `m`. */
  ghost predicate Reaches(s: seq<Byte>, m: nat, cs: seq<Scalar>) {
    Reads(Front, s, m, cs)
  }

  lemma {:induction false} DecodeCons(s: seq<Byte>)
    requires s != [] && Decode1(s).Some?
    ensures DecodeAll(s) == Prepend([Decode1(s).value.0], DecodeAll(s[Decode1(s).value.1..]))
  {
  }

  lemma {:induction false} PrependPrepend(a: seq<Scalar>, b: seq<Scalar>, more: Option<seq<Scalar>>)
    ensures Prepend(a, Prepend(b, more)) == Prepend(a + b, more)
  {
    if more.Some? {
      assert a + (b + more.value) == a + b + more.value;
    }
  }

  lemma {:induction false} SliceSlice(s: seq<Byte>, n: nat, m: nat)
    requires n <= m <= |s|
    ensures s[..m][n..] == s[n..][..m - n] && s[n..][m - n..] == s[m..]
  {
  }

  lemma {:induction false} ReachesSlice(s: seq<Byte>, m: nat, cs: seq<Scalar>)
    requires Reaches(s, m, cs)
    ensures m <= |s| && DecodeAll(s[..m]) == Some(cs) && DecodeAll(s) == Prepend(cs, DecodeAll(s[m..]))
    decreases |cs|
  {
    if cs == [] {
      assert s[0..] == s;
      PrependNothing(DecodeAll(s));
    } else {
      var (c, n) := Decode1(s).value;
      ReachesSlice(s[n..], m - n, cs[1..]);
      SliceSlice(s, n, m);
      assert [c] + cs[1..] == cs;
      DecodeCons(s);
      PrependPrepend([c], cs[1..], DecodeAll(s[m..]));
      DecodeCut(s, m);
      DecodeCons(s[..m]);
    }
  }

  lemma {:induction false} ReachesSnoc(s: seq<Byte>, m: nat, cs: seq<Scalar>, c: Scalar, n: nat)
    requires Reaches(s, m, cs) && m < |s| && Decode1(s[m..]) == Some((c, n))
    ensures Reaches(s, m + n, cs + [c])
  {
    ReadsSnoc(Front, s, m, cs, c, n);
  }
}
