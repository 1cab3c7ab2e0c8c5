/** Reading bits, and Exp-Golomb codes (section 9.2 of ITU-T H.265). */
module Bits {
  import opened Common
  import ModArith

  type Bytes = seq<Byte>

  function Pow2(n: nat): (p: nat)
    ensures p >= 1
  {
    if n == 0 then 1 else 2 * Pow2(n - 1)
  }

  predicate BitAt(b: Byte, i: nat)
    requires i < 8
  {
    b as int / Pow2(7 - i) % 2 == 1
  }

  /** The bits of a byte string, most significant first. */
  function BitsOf(data: Bytes): (s: seq<bool>)
    ensures |s| == 8 * |data|
  {
    seq(8 * |data|, k requires 0 <= k < 8 * |data| => BitAt(data[k / 8], k % 8))
  }

  function ToNat(s: seq<bool>): nat {
    if s == [] then 0 else 2 * ToNat(s[..|s| - 1]) + if s[|s| - 1] then 1 else 0
  }

  /** The number in the next `n` bits, and what follows; nothing when there are too few. */
  function Take(s: seq<bool>, n: nat): (nat, seq<bool>) {
    if n > |s| then (0, s) else (ToNat(s[..n]), s[n..])
  }

  /** After `z` zeros and a one: the value of the code, in 32 bits. */
  function Suffix(s: seq<bool>, z: nat): (nat, seq<bool>) {
    if z == 0 then (0, s)
    else var (v, rest) := Take(s, z); ((Pow2(z) - 1 + v) % 0x1_0000_0000, rest)
  }

  /** The next Exp-Golomb code, `z` of whose zeros are read; none has more than 32. */
  function TakeUe(s: seq<bool>, z: nat): (nat, seq<bool>)
    decreases |s|
  {
    if s == [] then Suffix(s, z)
    else if s[0] then Suffix(s[1..], z)
    else if z + 1 > 32 then (0, s[1..])
    else TakeUe(s[1..], z + 1)
  }

  /** The first `i` bits of a field, in the places they have in its number. */
  ghost function Scaled(field: seq<bool>, i: nat): nat
    requires i <= |field|
  {
    ToNat(field[..i]) * Pow2(|field| - i)
  }

  lemma {:induction false} AllScaled(field: seq<bool>)
    ensures Scaled(field, |field|) == ToNat(field)
  {
    assert field[..|field|] == field;
  }

  lemma {:induction false} AddBit(field: seq<bool>, i: nat)
    requires i < |field|
    ensures Scaled(field, i + 1) == Scaled(field, i) + if field[i] then Pow2(|field| - 1 - i) else 0
  {
    assert field[..i + 1][..i] == field[..i];
    var n := |field|;
    var t, p := ToNat(field[..i]), Pow2(n - 1 - i);
    assert Pow2(n - i) == 2 * p;
    assert (2 * t) * p == t * (2 * p);
    assert (2 * t + 1) * p == (2 * t) * p + p;
  }

  /** The number of some bytes, highest first. */
  function BigEndian(data: Bytes): nat {
    if data == [] then 0 else 256 * BigEndian(data[..|data| - 1]) + data[|data| - 1] as int
  }

  lemma {:induction false} ToNatSnoc(s: seq<bool>, bit: bool)
    ensures ToNat(s + [bit]) == 2 * ToNat(s) + if bit then 1 else 0
  {
    assert (s + [bit])[..|s|] == s;
  }

  lemma Halved(b: nat, p: nat)
    requires p >= 1
    ensures b / p == 2 * (b / (2 * p)) + b / p % 2
  {
    var q, r := b / (2 * p), b % (2 * p);
    assert b == q * (2 * p) + r;
    assert q * (2 * p) == (2 * q) * p;
    if r < p {
      ModArith.Unique(b, p, 2 * q, r);
    } else {
      assert (2 * q + 1) * p == (2 * q) * p + p;
      ModArith.Unique(b, p, 2 * q + 1, r - p);
    }
  }

  lemma Twice(v: nat, n: nat, b: nat, p: nat, q: nat)
    requires q >= 1 && v == n * p + b / (2 * q)
    ensures 2 * v + b / q % 2 == n * (2 * p) + b / q
  {
    Halved(b, q);
    assert n * (2 * p) == 2 * (n * p);
  }

  /** The first `i` bits of a byte. */
  function FirstBits(b: Byte, i: nat): seq<bool>
    requires i <= 8
  {
    seq(i, k requires 0 <= k < i => BitAt(b, k))
  }

  lemma {:induction false} FirstBitsSnoc(b: Byte, i: nat)
    requires i < 8
    ensures FirstBits(b, i + 1) == FirstBits(b, i) + [BitAt(b, i)]
  {
  }

  lemma {:induction false} AppendBits(s: seq<bool>, b: Byte, i: nat)
    requires i < 8
    ensures ToNat(s + FirstBits(b, i + 1)) == 2 * ToNat(s + FirstBits(b, i)) + b as int / Pow2(7 - i) % 2
  {
    FirstBitsSnoc(b, i);
    assert s + (FirstBits(b, i) + [BitAt(b, i)]) == s + FirstBits(b, i) + [BitAt(b, i)];
    ToNatSnoc(s + FirstBits(b, i), BitAt(b, i));
  }

  lemma PowEight()
    ensures Pow2(8) == 256
  {
  }

  lemma {:induction false} ByteAppended(s: seq<bool>, b: Byte, i: nat)
    requires i <= 8
    ensures ToNat(s + FirstBits(b, i)) == ToNat(s) * Pow2(i) + b as int / Pow2(8 - i)
  {
    if i == 0 {
      PowEight();
      assert s + FirstBits(b, 0) == s;
    } else {
      ByteAppended(s, b, i - 1);
      AppendBits(s, b, i - 1);
      Twice(ToNat(s + FirstBits(b, i - 1)), ToNat(s), b, Pow2(i - 1), Pow2(8 - i));
    }
  }

  lemma {:induction false} WholeByte(s: seq<bool>, b: Byte)
    ensures ToNat(s + FirstBits(b, 8)) == 256 * ToNat(s) + b as int
  {
    ByteAppended(s, b, 8);
    PowEight();
  }

  lemma {:induction false} BitOfByte(data: Bytes, k: nat)
    requires k < 8 * |data|
    ensures BitsOf(data)[k]
         == if k < 8 * (|data| - 1) then BitsOf(data[..|data| - 1])[k]
            else BitAt(data[|data| - 1], k - 8 * (|data| - 1))
  {
    if k >= 8 * (|data| - 1) {
      ModArith.Unique(k, 8, |data| - 1, k - 8 * (|data| - 1));
    }
  }

  lemma {:induction false} BitsSnoc(data: Bytes)
    requires data != []
    ensures BitsOf(data) == BitsOf(data[..|data| - 1]) + FirstBits(data[|data| - 1], 8)
  {
    var n := |data| - 1;
    forall k | 0 <= k < 8 * |data|
      ensures BitsOf(data)[k] == (BitsOf(data[..n]) + FirstBits(data[n], 8))[k]
    {
      BitOfByte(data, k);
    }
  }

  lemma {:induction false} BitsValue(data: Bytes)
    ensures ToNat(BitsOf(data)) == BigEndian(data)
  {
    if data != [] {
      var n := |data| - 1;
      BitsValue(data[..n]);
      BitsSnoc(data);
      WholeByte(BitsOf(data[..n]), data[n]);
    }
  }

  lemma {:induction false} BitsCut(data: Bytes, k: nat)
    requires k <= |data|
    ensures BitsOf(data)[..8 * k] == BitsOf(data[..k]) && BitsOf(data)[8 * k..] == BitsOf(data[k..])
  {
    var rest := BitsOf(data)[8 * k..];
    forall i | 0 <= i < |rest|
      ensures rest[i] == BitsOf(data[k..])[i]
    {
      ModArith.Shift(i, k, 8);
      assert (8 * k + i) / 8 == k + i / 8;
    }
  }

  /** Reading `8 * k` bits gives the number of the next `k` bytes, highest first. */
  lemma {:induction false} TakeBytes(data: Bytes, k: nat)
    requires k <= |data|
    ensures Take(BitsOf(data), 8 * k) == (BigEndian(data[..k]), BitsOf(data[k..]))
  {
    BitsCut(data, k);
    BitsValue(data[..k]);
  }

  lemma {:induction false} OneBit(s: seq<bool>)
    requires s != []
    ensures Take(s, 1) == (if s[0] then 1 else 0, s[1..])
  {
    var t := [s[0]];
    assert s[..1] == t && t[..0] == [];
    assert ToNat(t) == if s[0] then 1 else 0;
  }

  lemma {:induction false} BitHere(data: Bytes, start: nat, n: nat, i: nat)
    requires i < n && start + n <= 8 * |data|
    ensures BitsOf(data)[start..][..n][i] == BitAt(data[(start + i) / 8], (start + i) % 8)
  {
  }

  class BitReader {
    const data: Bytes
    var pos: nat

    ghost predicate Valid()
      reads this
    {
      pos <= 8 * |data|
    }

    ghost function Rest(): seq<bool>
      reads this
      requires Valid()
    {
      BitsOf(data)[pos..]
    }

    constructor (data: Bytes)
      ensures Valid() && this.data == data && Rest() == BitsOf(data)
    {
      this.data := data;
      pos := 0;
    }

    method ReadBits(n: nat) returns (result: nat)
      requires Valid() && n <= 32
      modifies this`pos
      ensures Valid() && (result, Rest()) == Take(old(Rest()), n)
      ensures if old(pos) + n > 8 * |data| then result == 0 && pos == old(pos) else pos == old(pos) + n
    {
      if pos + n > 8 * |data| {
        return 0;
      }
      result := 0;
      ghost var start, field := pos, Rest()[..n];
      for i := 0 to n
        invariant pos == start + i && result == Scaled(field, i)
      {
        BitHere(data, start, n, i);
        AddBit(field, i);
        if BitAt(data[pos / 8], pos % 8) {
          result := result + Pow2(n - 1 - i);
        }
        pos := pos + 1;
      }
      AllScaled(field);
    }

    method ReadSuffix(zeros: nat) returns (result: nat)
      requires Valid() && zeros <= 32
      modifies this`pos
      ensures Valid() && (result, Rest()) == Suffix(old(Rest()), zeros)
    {
      if zeros == 0 {
        return 0;
      }
      var value := ReadBits(zeros);
      result := (Pow2(zeros) - 1 + value) % 0x1_0000_0000;
    }

    /** With 32 zeros the shift of the source is undefined; here it wraps. */
    method ReadUe() returns (result: nat)
      requires Valid()
      modifies this`pos
      ensures Valid() && (result, Rest()) == TakeUe(old(Rest()), 0)
    {
      var zeros := 0;
      ghost var all := TakeUe(Rest(), 0);
      while pos < 8 * |data|
        invariant Valid() && zeros <= 32 && all == TakeUe(Rest(), zeros)
        decreases 8 * |data| - pos
      {
        ghost var s := Rest();
        OneBit(s);
        var bit := ReadBits(1);
        if bit != 0 {
          result := ReadSuffix(zeros);
          return;
        }
        zeros := zeros + 1;
        if zeros > 32 {
          return 0;
        }
      }
      result := ReadSuffix(zeros);
    }
  }

  // ----- writing

  function NatBits(v: nat, n: nat): (s: seq<bool>)
    ensures |s| == n
  {
    if n == 0 then [] else NatBits(v / 2, n - 1) + [v % 2 == 1]
  }

  function Log2(n: nat): nat {
    if n < 2 then 0 else 1 + Log2(n / 2)
  }

  function Zeros(n: nat): seq<bool> {
    if n == 0 then [] else [false] + Zeros(n - 1)
  }

  lemma {:induction false} LogBounds(n: nat)
    requires n >= 1
    ensures Pow2(Log2(n)) <= n < 2 * Pow2(Log2(n))
  {
    if n >= 2 {
      LogBounds(n / 2);
    }
  }

  /** The Exp-Golomb code of `v`. */
  function UeBits(v: nat): seq<bool> {
    var z := Log2(v + 1);
    LogBounds(v + 1);
    Zeros(z) + ([true] + NatBits(v + 1 - Pow2(z), z))
  }

  lemma {:induction false} NatBitsValue(v: nat, n: nat)
    requires v < Pow2(n)
    ensures ToNat(NatBits(v, n)) == v
  {
    if n > 0 {
      NatBitsValue(v / 2, n - 1);
      assert NatBits(v, n)[..n - 1] == NatBits(v / 2, n - 1);
    }
  }

  lemma {:induction false} TakeNat(v: nat, n: nat, rest: seq<bool>)
    requires v < Pow2(n)
    ensures Take(NatBits(v, n) + rest, n) == (v, rest)
  {
    NatBitsValue(v, n);
    var s := NatBits(v, n) + rest;
    assert s[..n] == NatBits(v, n) && s[n..] == rest;
  }

  lemma {:induction false} TakeZeros(n: nat, s: seq<bool>, z: nat)
    requires z + n <= 32
    ensures TakeUe(Zeros(n) + s, z) == TakeUe(s, z + n)
  {
    if n == 0 {
      assert Zeros(0) + s == s;
    } else {
      assert (Zeros(n) + s)[1..] == Zeros(n - 1) + s;
      TakeZeros(n - 1, s, z + 1);
    }
  }

  lemma {:induction false} PowGrows(a: nat, b: nat)
    requires a <= b
    ensures Pow2(a) <= Pow2(b)
    decreases b
  {
    if a < b {
      PowGrows(a, b - 1);
    }
  }

  lemma {:induction false} PowAdd(a: nat, b: nat)
    ensures Pow2(a + b) == Pow2(a) * Pow2(b)
  {
    if a > 0 {
      PowAdd(a - 1, b);
      assert Pow2(a) * Pow2(b) == 2 * (Pow2(a - 1) * Pow2(b));
    }
  }

  lemma PowThirtyTwo()
    ensures Pow2(32) == 0x1_0000_0000
  {
    PowEight();
    PowAdd(8, 8);
    PowAdd(16, 16);
  }

  lemma LogFits(n: nat)
    requires 1 <= n < 0x1_0000_0000
    ensures Log2(n) < 32
  {
    LogBounds(n);
    if Log2(n) >= 32 {
      PowGrows(32, Log2(n));
      PowThirtyTwo();
    }
  }

  lemma {:induction false} Regroup(a: seq<bool>, b: seq<bool>, c: seq<bool>, d: seq<bool>)
    ensures (a + (b + c)) + d == a + (b + (c + d))
  {
  }

  /** What is read after the zeros. */
  lemma {:induction false} TakeSuffix(s: seq<bool>, z: nat, x: nat, rest: seq<bool>)
    requires Take(s, z) == (x, rest) && (z == 0 ==> x == 0 && s == rest)
    ensures TakeUe([true] + s, z) == ((Pow2(z) - 1 + x) % 0x1_0000_0000, rest)
  {
    assert ([true] + s)[1..] == s;
  }

  lemma UeParts(v: nat) returns (z: nat, x: nat)
    requires v < 0xFFFF_FFFF
    ensures z <= 31 && x < Pow2(z) && Pow2(z) - 1 + x == v
    ensures UeBits(v) == Zeros(z) + ([true] + NatBits(x, z))
  {
    z := Log2(v + 1);
    LogBounds(v + 1);
    LogFits(v + 1);
    x := v + 1 - Pow2(z);
  }

  lemma {:induction false} TakeUeCode(z: nat, x: nat, rest: seq<bool>)
    requires z <= 32 && x < Pow2(z)
    ensures TakeUe(Zeros(z) + ([true] + (NatBits(x, z) + rest)), 0) == ((Pow2(z) - 1 + x) % 0x1_0000_0000, rest)
  {
    var low := NatBits(x, z);
    TakeNat(x, z, rest);
    if z == 0 {
      assert low + rest == rest;
    }
    TakeSuffix(low + rest, z, x, rest);
    TakeZeros(z, [true] + (low + rest), 0);
  }

  /** A code written anywhere in a bit string is read back, for every value up to 2^32 - 2. */
  lemma {:induction false} TakeUeBits(v: nat, rest: seq<bool>)
    requires v < 0xFFFF_FFFF
    ensures TakeUe(UeBits(v) + rest, 0) == (v, rest)
  {
    var z, x := UeParts(v);
    Regroup(Zeros(z), [true], NatBits(x, z), rest);
    TakeUeCode(z, x, rest);
  }

  lemma {:induction false} TooManyZeros(rest: seq<bool>)
    ensures TakeUe(Zeros(32) + ([false] + rest), 0) == (0, rest)
  {
    TakeZeros(32, [false] + rest, 0);
    assert ([false] + rest)[1..] == rest;
  }

  lemma {:induction false} EndsInZeros(z: nat)
    requires z <= 32
    ensures TakeUe(Zeros(z), 0) == ((Pow2(z) - 1) % 0x1_0000_0000, [])
  {
    TakeZeros(z, [], 0);
    assert Zeros(z) + [] == Zeros(z);
  }

  /** With 32 zeros the value wraps, with more it is 0 and what follows them is still to be
      read, and when the data ends among the zeros they count as if a one had followed. */
  lemma {:induction false} TakeUeLong(x: nat, z: nat, rest: seq<bool>)
    requires x < 0x1_0000_0000 && z <= 32
    ensures TakeUe(Zeros(32) + ([true] + (NatBits(x, 32) + rest)), 0) == ((0x1_0000_0000 - 1 + x) % 0x1_0000_0000, rest)
    ensures TakeUe(Zeros(32) + ([false] + rest), 0) == (0, rest)
    ensures TakeUe(Zeros(z), 0) == ((Pow2(z) - 1) % 0x1_0000_0000, [])
  {
    PowThirtyTwo();
    TakeUeCode(32, x, rest);
    TooManyZeros(rest);
    EndsInZeros(z);
  }
}

/** The size of the picture from the sequence parameter set of an H.265 stream
    (section 7.3.2.2 of ITU-T H.265). */
module HevcSps {
  import opened Common
  import ModArith
  import opened Bits
  import Nal

  function Skip(s: seq<bool>, n: nat): seq<bool> {
    Take(s, n).1
  }

  /** The fields of sub-layers as the source reads them, flags and data interleaved. */
  function SkipSubLayers(s: seq<bool>, n: nat): seq<bool>
    decreases n
  {
    if n == 0 then s
    else
      var (profile, s1) := Take(s, 1);
      var (level, s2) := Take(s1, 1);
      var s3 := if profile != 0 then Skip(Skip(Skip(s2, 32), 32), 24) else s2;
      SkipSubLayers(if level != 0 then Skip(s3, 8) else s3, n - 1)
  }

  /** What is skipped between the number of sub-layers and their fields. */
  function SkipGeneral(s: seq<bool>): seq<bool> {
    Skip(Skip(Skip(Skip(Skip(Skip(Skip(Skip(Skip(s, 1), 2), 1), 5), 32), 6), 32), 10), 8)
  }

  datatype Window = Window(left: nat, right: nat, top: nat, bottom: nat)

  function TakeWindow(s: seq<bool>): Window {
    var (flag, s0) := Take(s, 1);
    if flag == 0 then Window(0, 0, 0, 0)
    else
      var (left, s1) := TakeUe(s0, 0);
      var (right, s2) := TakeUe(s1, 0);
      var (top, s3) := TakeUe(s2, 0);
      var (bottom, _) := TakeUe(s3, 0);
      Window(left, right, top, bottom)
  }

  /** The size less the window, in the units of the chroma format. */
  function Cropped(chroma: nat, width: nat, height: nat, w: Window): (int, int) {
    var unitX, unitY := if chroma == 1 || chroma == 2 then 2 else 1, if chroma == 1 then 2 else 1;
    (Signed32(width - unitX * (w.left + w.right)), Signed32(height - unitY * (w.top + w.bottom)))
  }

  function ParseSize(s: seq<bool>): (int, int) {
    var (_, s1) := TakeUe(s, 0);
    var (chroma, s2) := TakeUe(s1, 0);
    var (width, s3) := TakeUe(if chroma == 3 then Skip(s2, 1) else s2, 0);
    var (height, s4) := TakeUe(s3, 0);
    Cropped(chroma, width, height, TakeWindow(s4))
  }

  function Parse(s: seq<bool>): (int, int) {
    var (subLayers, s1) := Take(Skip(Skip(s, 16), 4), 3);
    ParseSize(SkipSubLayers(SkipGeneral(s1), subLayers))
  }

  method SkipFields(r: BitReader)
    requires r.Valid()
    modifies r`pos
    ensures r.Valid() && r.Rest() == SkipGeneral(old(r.Rest()))
  {
    var _ := r.ReadBits(1);
    var _ := r.ReadBits(2);
    var _ := r.ReadBits(1);
    var _ := r.ReadBits(5);
    var _ := r.ReadBits(32);
    var _ := r.ReadBits(6);
    var _ := r.ReadBits(32);
    var _ := r.ReadBits(10);
    var _ := r.ReadBits(8);
  }

  method SkipLayers(r: BitReader, n: nat)
    requires r.Valid()
    modifies r`pos
    ensures r.Valid() && r.Rest() == SkipSubLayers(old(r.Rest()), n)
  {
    for i := 0 to n
      invariant r.Valid() && SkipSubLayers(old(r.Rest()), n) == SkipSubLayers(r.Rest(), n - i)
    {
      var profile := r.ReadBits(1);
      var level := r.ReadBits(1);
      if profile != 0 {
        var _ := r.ReadBits(32);
        var _ := r.ReadBits(32);
        var _ := r.ReadBits(24);
      }
      if level != 0 {
        var _ := r.ReadBits(8);
      }
    }
  }

  method ReadWindow(r: BitReader) returns (w: Window)
    requires r.Valid()
    modifies r`pos
    ensures r.Valid() && w == TakeWindow(old(r.Rest()))
  {
    var flag := r.ReadBits(1);
    if flag == 0 {
      return Window(0, 0, 0, 0);
    }
    var left := r.ReadUe();
    var right := r.ReadUe();
    var top := r.ReadUe();
    var bottom := r.ReadUe();
    w := Window(left, right, top, bottom);
  }

  method ReadSize(r: BitReader) returns (width: int, height: int)
    requires r.Valid()
    modifies r`pos
    ensures (width, height) == ParseSize(old(r.Rest()))
  {
    var _ := r.ReadUe();
    var chroma := r.ReadUe();
    if chroma == 3 {
      var _ := r.ReadBits(1);
    }
    var w := r.ReadUe();
    var h := r.ReadUe();
    var window := ReadWindow(r);
    var size := Cropped(chroma, w, h, window);
    width, height := size.0, size.1;
  }

  method ParseHevcSpsFinal(nalu: Bytes) returns (size: Option<(int, int)>)
    ensures size == if |nalu| < 15 then None else Some(Parse(BitsOf(Nal.Unprotect(nalu))))
  {
    if |nalu| < 15 {
      return None;
    }
    var clean := new Byte[|nalu|](_ => 0);
    var cleanSize := Nal.RemoveEmulationPreventionBytes(nalu, clean);
    var r := new BitReader(clean[..cleanSize]);
    var _ := r.ReadBits(16);
    var _ := r.ReadBits(4);
    var subLayers := r.ReadBits(3);
    SkipFields(r);
    SkipLayers(r, subLayers);
    var width, height := ReadSize(r);
    size := Some((width, height));
  }

  // ----- what is written is parsed

  /** What is there for a sub-layer: 88 bits of profile, 8 of level. */
  datatype SubLayer = SubLayer(profile: Option<seq<bool>>, level: Option<seq<bool>>)

  /** A sequence parameter set as far as the picture size: `general` holds the nesting flag
      and the profile, tier and level. */
  datatype Sps = Sps(header: nat, vps: nat, general: seq<bool>, layers: seq<SubLayer>, id: nat, chroma: nat,
                     separatePlanes: bool, width: nat, height: nat, cropped: bool, window: Window)

  predicate Proper(l: SubLayer) {
    (l.profile.Some? ==> |l.profile.value| == 88) && (l.level.Some? ==> |l.level.value| == 8)
  }

  ghost predicate Legal(p: Sps) {
    var limit := 0x7FFF_FFFF;
    && p.header < 65536 && p.vps < 16 && |p.general| == 97 && |p.layers| <= 7
    && (forall i :: 0 <= i < |p.layers| ==> Proper(p.layers[i]))
    && p.id < limit && p.chroma < limit && p.width < limit && p.height < limit
    && p.window.left < limit && p.window.right < limit && p.window.top < limit && p.window.bottom < limit
    && (!p.cropped ==> p.window == Window(0, 0, 0, 0))
  }

  function WindowBits(p: Sps, more: seq<bool>): seq<bool> {
    if !p.cropped then [false] + more
    else [true] + (UeBits(p.window.left) + (UeBits(p.window.right) + (UeBits(p.window.top) + (UeBits(p.window.bottom) + more))))
  }

  function SizeBits(p: Sps, more: seq<bool>): seq<bool> {
    var rest := UeBits(p.width) + (UeBits(p.height) + WindowBits(p, more));
    UeBits(p.id) + (UeBits(p.chroma) + if p.chroma == 3 then [p.separatePlanes] + rest else rest)
  }

  function Present(bits: Option<seq<bool>>, more: seq<bool>): seq<bool> {
    if bits.Some? then bits.value + more else more
  }

  /** Sub-layers one after another, each with its two flags in front. */
  function LayerBits(layers: seq<SubLayer>, more: seq<bool>): seq<bool> {
    if layers == [] then more
    else
      var l := layers[0];
      [l.profile.Some?] + ([l.level.Some?] + Present(l.profile, Present(l.level, LayerBits(layers[1..], more))))
  }

  /** The serialised set, with more after it. */
  function SpsBits(p: Sps, more: seq<bool>): seq<bool> {
    NatBits(p.header, 16)
    + (NatBits(p.vps, 4) + (NatBits(|p.layers|, 3) + (p.general + LayerBits(p.layers, SizeBits(p, more)))))
  }

  lemma {:induction false} SkipSkip(s: seq<bool>, a: nat, b: nat)
    requires a + b <= |s|
    ensures Skip(Skip(s, a), b) == Skip(s, a + b)
  {
  }

  lemma {:induction false} SkipsGeneral(general: seq<bool>, rest: seq<bool>)
    requires |general| == 97
    ensures SkipGeneral(general + rest) == rest
  {
    var s := general + rest;
    SkipSkip(s, 1, 2);
    SkipSkip(s, 3, 1);
    SkipSkip(s, 4, 5);
    SkipSkip(s, 9, 32);
    SkipSkip(s, 41, 6);
    SkipSkip(s, 47, 32);
    SkipSkip(s, 79, 10);
    SkipSkip(s, 89, 8);
  }

  lemma {:induction false} ParsesWindow(p: Sps, more: seq<bool>)
    requires Legal(p)
    ensures TakeWindow(WindowBits(p, more)) == p.window
  {
    OneBit(WindowBits(p, more));
    if p.cropped {
      var w := p.window;
      var s3 := UeBits(w.bottom) + more;
      var s2 := UeBits(w.top) + s3;
      var s1 := UeBits(w.right) + s2;
      assert WindowBits(p, more)[1..] == UeBits(w.left) + s1;
      TakeUeBits(w.left, s1);
      TakeUeBits(w.right, s2);
      TakeUeBits(w.top, s3);
      TakeUeBits(w.bottom, more);
    }
  }

  lemma {:induction false} ParsesSize(p: Sps, more: seq<bool>)
    requires Legal(p)
    ensures ParseSize(SizeBits(p, more)) == Cropped(p.chroma, p.width, p.height, p.window)
  {
    var s4 := WindowBits(p, more);
    var s3 := UeBits(p.height) + s4;
    var rest := UeBits(p.width) + s3;
    var s2 := if p.chroma == 3 then [p.separatePlanes] + rest else rest;
    TakeUeBits(p.id, UeBits(p.chroma) + s2);
    TakeUeBits(p.chroma, s2);
    if p.chroma == 3 {
      OneBit(s2);
      assert s2[1..] == rest;
    }
    TakeUeBits(p.width, s3);
    TakeUeBits(p.height, s4);
    ParsesWindow(p, more);
  }

  lemma {:induction false} SkipPresent(bits: Option<seq<bool>>, n: nat, more: seq<bool>)
    requires bits.Some? ==> |bits.value| == n
    ensures (if bits.Some? then Skip(Present(bits, more), n) else Present(bits, more)) == more
  {
  }

  lemma {:induction false} SkipProfile(profile: Option<seq<bool>>, more: seq<bool>)
    requires profile.Some? ==> |profile.value| == 88
    ensures var s := Present(profile, more);
            (if profile.Some? then Skip(Skip(Skip(s, 32), 32), 24) else s) == more
  {
    var s := Present(profile, more);
    SkipPresent(profile, 88, more);
    if profile.Some? {
      SkipSkip(s, 32, 32);
      SkipSkip(s, 64, 24);
    }
  }

  lemma {:induction false} TwoFlags(a: bool, b: bool, rest: seq<bool>)
    ensures Take([a] + ([b] + rest), 1) == (if a then 1 else 0, [b] + rest)
    ensures Take([b] + rest, 1) == (if b then 1 else 0, rest)
  {
    OneBit([a] + ([b] + rest));
    OneBit([b] + rest);
    assert ([a] + ([b] + rest))[1..] == [b] + rest && ([b] + rest)[1..] == rest;
  }

  lemma {:induction false} SkipsLayer(l: SubLayer, rest: seq<bool>, n: nat)
    requires Proper(l)
    ensures SkipSubLayers([l.profile.Some?] + ([l.level.Some?] + Present(l.profile, Present(l.level, rest))), n + 1)
         == SkipSubLayers(rest, n)
  {
    TwoFlags(l.profile.Some?, l.level.Some?, Present(l.profile, Present(l.level, rest)));
    SkipProfile(l.profile, Present(l.level, rest));
    SkipPresent(l.level, 8, rest);
  }

  lemma {:induction false} SkipsLayers(layers: seq<SubLayer>, more: seq<bool>)
    requires forall i :: 0 <= i < |layers| ==> Proper(layers[i])
    ensures SkipSubLayers(LayerBits(layers, more), |layers|) == more
    decreases |layers|
  {
    if layers != [] {
      SkipsLayer(layers[0], LayerBits(layers[1..], more), |layers| - 1);
      SkipsLayers(layers[1..], more);
    }
  }

  lemma {:induction false} ParsesHeader(header: nat, vps: nat, n: nat, general: seq<bool>, rest: seq<bool>)
    requires header < 65536 && vps < 16 && n < 8 && |general| == 97
    ensures Parse(NatBits(header, 16) + (NatBits(vps, 4) + (NatBits(n, 3) + (general + rest))))
         == ParseSize(SkipSubLayers(rest, n))
  {
    var s2 := NatBits(n, 3) + (general + rest);
    var s1 := NatBits(vps, 4) + s2;
    assert Pow2(16) == 65536 && Pow2(4) == 16 && Pow2(3) == 8;
    TakeNat(header, 16, s1);
    TakeNat(vps, 4, s2);
    TakeNat(n, 3, general + rest);
    SkipsGeneral(general, rest);
  }

  lemma {:induction false} ParsesSps(p: Sps, more: seq<bool>)
    requires Legal(p)
    ensures Parse(SpsBits(p, more)) == Cropped(p.chroma, p.width, p.height, p.window)
  {
    ParsesHeader(p.header, p.vps, |p.layers|, p.general, LayerBits(p.layers, SizeBits(p, more)));
    SkipsLayers(p.layers, SizeBits(p, more));
    ParsesSize(p, more);
  }

  lemma PowLess(a: nat, b: nat)
    ensures a < b ==> 2 * Pow2(a) <= Pow2(b)
  {
    if a < b {
      PowGrows(a + 1, b);
    }
  }

  lemma LogOf(n: nat, z: nat)
    requires Pow2(z) <= n < 2 * Pow2(z)
    ensures Log2(n) == z
  {
    LogBounds(n);
    PowLess(Log2(n), z);
    PowLess(z, Log2(n));
  }

  lemma FirstFour()
    ensures NatBits(897, 10)[..4] == [true, true, true, false]
  {
    assert NatBits(14, 4) == [true, true, true, false] by {
      assert NatBits(3, 2) == [true, true] && NatBits(7, 3) == [true, true, true];
    }
    assert NatBits(56, 6)[..4] == NatBits(28, 5)[..4] == NatBits(14, 4);
    assert NatBits(224, 8)[..4] == NatBits(112, 7)[..4] == NatBits(56, 6)[..4];
    assert NatBits(897, 10)[..4] == NatBits(448, 9)[..4] == NatBits(224, 8)[..4];
  }

  lemma {:induction false} ZerosLength(n: nat)
    ensures |Zeros(n)| == n
  {
    if n > 0 {
      ZerosLength(n - 1);
    }
  }

  lemma ShortCodes()
    ensures UeBits(0) == [true] && |UeBits(1)| == 3
  {
    ZerosLength(1);
  }

  lemma LongCode()
    ensures |UeBits(1920)| == 21 && UeBits(1920)[11..] == NatBits(897, 10)
  {
    PowEight();
    assert Pow2(10) == 1024;
    LogOf(1921, 10);
    ZerosLength(10);
  }

  lemma {:induction false} ParsesToNothing(s: seq<bool>)
    requires |s| >= 4 && s[..4] == [true, true, true, false]
    ensures TakeUe(s, 0) == (0, s[1..]) && TakeUe(s[1..], 0) == (0, s[2..]) && TakeUe(s[2..], 0) == (0, s[3..])
    ensures TakeWindow(s[3..]) == Window(0, 0, 0, 0)
  {
    assert s[0] == s[..4][0] && s[1] == s[..4][1] && s[2] == s[..4][2] && s[3] == s[..4][3];
    assert s[1..][1..] == s[2..] && s[2..][1..] == s[3..];
    OneBit(s[3..]);
  }

  lemma {:induction false} BehindId(w: seq<bool>)
    requires |w| >= 14
    ensures TakeUe(Zeros(14) + ([true] + w), 0).1 == w[14..]
  {
    TakeZeros(14, [true] + w, 0);
    assert ([true] + w)[1..] == w;
  }

  lemma {:induction false} NoSize(w: seq<bool>)
    requires |w| >= 18 && w[14..18] == [true, true, true, false]
    ensures ParseSize(Zeros(14) + ([true] + w)) == (0, 0)
  {
    BehindId(w);
    assert w[14..][..4] == w[14..18];
    ParsesToNothing(w[14..]);
  }

  lemma {:induction false} WidthShifted(more: seq<bool>)
    ensures var w := UeBits(1) + (UeBits(1920) + more); |w| >= 24 && w[14..18] == [true, true, true, false]
  {
    var w := UeBits(1) + (UeBits(1920) + more);
    ShortCodes();
    LongCode();
    FirstFour();
    assert w[14..18] == UeBits(1920)[11..][..4];
  }

  /** Where section 7.3.3 of ITU-T H.265 has sub-layers, all flags come first, padded to 16
      bits. The source does not expect that: a set of one sub-layer for which nothing is
      present, with a width of 1920, parses to no size at all. */
  lemma {:induction false} StandardLayersMisread(header: nat, vps: nat, general: seq<bool>, more: seq<bool>)
    requires header < 65536 && vps < 16 && |general| == 97
    ensures var s := Zeros(14) + (UeBits(0) + (UeBits(1) + (UeBits(1920) + more)));
            Parse(NatBits(header, 16) + (NatBits(vps, 4) + (NatBits(1, 3) + (general + ([false] + ([false] + s)))))) == (0, 0)
  {
    var w := UeBits(1) + (UeBits(1920) + more);
    var s := Zeros(14) + ([true] + w);
    ShortCodes();
    ParsesHeader(header, vps, 1, general, [false] + ([false] + s));
    SkipsLayer(SubLayer(None, None), s, 0);
    WidthShifted(more);
    NoSize(w);
  }

  /** Parsing a serialised and protected set gives the cropped size; it is never too short
      to be parsed. */
  lemma {:induction false} SpsRoundTrip(p: Sps, more: seq<bool>, raw: Bytes)
    requires Legal(p) && BitsOf(raw) == SpsBits(p, more)
    ensures |Nal.Protect(0, raw)| >= 15
    ensures Parse(BitsOf(Nal.Unprotect(Nal.Protect(0, raw)))) == Cropped(p.chroma, p.width, p.height, p.window)
  {
    Nal.ProtectLonger(0, raw);
    Nal.UnprotectProtect(raw);
    ParsesSps(p, more);
  }

  /** And that is the true size whenever it is one. */
  lemma {:induction false} CroppedIsExact(chroma: nat, width: nat, height: nat, w: Window)
    requires var unitX := if chroma == 1 || chroma == 2 then 2 else 1; 0 <= width - unitX * (w.left + w.right) < 0x8000_0000
    requires var unitY := if chroma == 1 then 2 else 1; 0 <= height - unitY * (w.top + w.bottom) < 0x8000_0000
    ensures var unitX, unitY := if chroma == 1 || chroma == 2 then 2 else 1, if chroma == 1 then 2 else 1;
            Cropped(chroma, width, height, w)
            == (width - unitX * (w.left + w.right), height - unitY * (w.top + w.bottom))
  {
  }

  lemma SignedIs(x: int)
    ensures -0x8000_0000 <= Signed32(x) < 0x8000_0000 && (Signed32(x) - x) % 0x1_0000_0000 == 0
  {
    var q := x / 0x1_0000_0000;
    assert x == q * 0x1_0000_0000 + x % 0x1_0000_0000;
    ModArith.Unique(Signed32(x) - x, 0x1_0000_0000, if x % 0x1_0000_0000 < 0x8000_0000 then -q else -q - 1, 0);
  }

  /** In any case it is a 32-bit number that agrees with it modulo 2^32. */
  lemma {:induction false} CroppedWraps(chroma: nat, width: nat, height: nat, w: Window)
    ensures var unitX, unitY := if chroma == 1 || chroma == 2 then 2 else 1, if chroma == 1 then 2 else 1;
            var size := Cropped(chroma, width, height, w);
            && -0x8000_0000 <= size.0 < 0x8000_0000 && -0x8000_0000 <= size.1 < 0x8000_0000
            && (size.0 - (width - unitX * (w.left + w.right))) % 0x1_0000_0000 == 0
            && (size.1 - (height - unitY * (w.top + w.bottom))) % 0x1_0000_0000 == 0
  {
    var unitX, unitY := if chroma == 1 || chroma == 2 then 2 else 1, if chroma == 1 then 2 else 1;
    SignedIs(width - unitX * (w.left + w.right));
    SignedIs(height - unitY * (w.top + w.bottom));
  }

  /** The two bytes of a NAL header need no protection, so protecting the unit is
      protecting what follows them. */
  lemma {:induction false} HeaderUnprotected(header: Bytes, body: Bytes)
    requires |header| == 2 && header[1] != 0
    ensures Nal.Protect(0, header + body) == header + Nal.Protect(0, body)
  {
    assert (header + body)[1..] == [header[1]] + body;
    assert ([header[1]] + body)[1..] == body;
  }
}
