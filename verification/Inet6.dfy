/** IPv6 addresses: sixteen bytes, and their text (section 2.2 of RFC 4291). */
module Inet6 {
  import opened Common
  import opened Inet4
  import ModArith
  import Rfc5952

  type Word = w: int | 0 <= w < 0x1_0000

  const BUFFER := 46

  // ----- the text form

  function HexDigit(d: int): char
    requires 0 <= d < 16
  {
    if d < 10 then '0' + d as char else 'a' + (d - 10) as char
  }

  /** The value of a hexadecimal digit in either case. */
  function HexValue(c: char): Option<nat> {
    if '0' <= c <= '9' then Some(c as int - '0' as int)
    else if 'a' <= c <= 'f' then Some(c as int - 'a' as int + 10)
    else if 'A' <= c <= 'F' then Some(c as int - 'A' as int + 10)
    else None
  }

  /** A number in lower-case hexadecimal, without leading zeros. */
  function Hex(n: nat): (s: string)
    ensures s != []
    ensures n < 16 ==> |s| <= 1
    ensures n < 256 ==> |s| <= 2
    ensures n < 4096 ==> |s| <= 3
    ensures n < 65536 ==> |s| <= 4
    ensures forall i :: 0 <= i < |s| ==> HexValue(s[i]).Some?
  {
    if n < 16 then [HexDigit(n)] else Hex(n / 16) + [HexDigit(n % 16)]
  }

  /** Words in hexadecimal, joined by colons. */
  function Join(ws: seq<Word>): string {
    if ws == [] then []
    else if |ws| == 1 then Hex(ws[0])
    else Join(ws[..|ws| - 1]) + [':'] + Hex(ws[|ws| - 1])
  }

  function WordFrom(high: Byte, low: Byte): Word {
    high as int * 256 + low as int
  }

  /** The bytes of an address in pairs. */
  function WordsOf(src: seq<Byte>): (ws: seq<Word>)
    ensures 2 * |ws| <= |src| <= 2 * |ws| + 1
  {
    var n := |src|;
    if n < 2 then [] else WordsOf(src[..n - 2]) + [WordFrom(src[n - 2], src[n - 1])]
  }

  function PushWord(bytes: seq<Byte>, val: nat): seq<Byte> {
    bytes + [val / 256 % 256, val % 256]
  }

  function BytesOf(ws: seq<Word>): (b: seq<Byte>)
    ensures |b| == 2 * |ws|
  {
    if ws == [] then [] else PushWord(BytesOf(ws[..|ws| - 1]), ws[|ws| - 1])
  }

  /** A run of `len` zero words from `base` on. */
  ghost predicate ZeroRun(ws: seq<Word>, base: int, len: nat) {
    0 <= base && base + len <= |ws| && forall k :: base <= k < base + len ==> ws[k] == 0
  }

  /** The run that is written as two colons: the longest of at least two zero words, the
      leftmost of equals (section 4.2 of RFC 5952); base -1 when there is none. */
  ghost predicate IsBest(ws: seq<Word>, base: int, len: nat) {
    if base == -1 then forall b: int, n: nat :: ZeroRun(ws, b, n) ==> n < 2
    else len >= 2 && ZeroRun(ws, base, len)
         && forall b: int, n: nat :: ZeroRun(ws, b, n) ==> n < len || (n == len && base <= b)
  }

  /** The addresses whose last four bytes are written as an IPv4 address. */
  predicate Embeds4(ws: seq<Word>, base: int, len: nat)
    requires |ws| == 8
  {
    base == 0 && (len == 6 || (len == 5 && ws[5] == 0xffff))
  }

  function Right(ws: seq<Word>, base: int, len: nat): string
    requires |ws| == 8 && 0 <= base && base + len <= 8
  {
    if !Embeds4(ws, base, len) then Join(ws[base + len..])
    else (if len == 5 then Hex(ws[5]) + [':'] else []) + Text4(BytesOf(ws[6..]))
  }

  function Text6(ws: seq<Word>, base: int, len: nat): string
    requires |ws| == 8 && (base == -1 || (0 <= base && base + len <= 8))
  {
    if base == -1 then Join(ws) else Join(ws[..base]) + [':', ':'] + Right(ws, base, len)
  }

  // ----- printing

  /** A run and, with base -1, the lack of one. */
  datatype Run = Run(base: int, len: nat)

  /** `best` is the best among the runs that end by `end`. */
  ghost predicate BestBy(ws: seq<Word>, best: Run, end: int) {
    && (best.base == -1 || (best.len >= 1 && ZeroRun(ws, best.base, best.len) && best.base + best.len <= end))
    && (forall b: int, n: nat :: ZeroRun(ws, b, n) && n >= 1 && b + n <= end ==>
          best.base != -1 && (n < best.len || (n == best.len && best.base <= b)))
  }

  /** `cur` is the whole run that ends at `i`, or none does. */
  ghost predicate CurrentAt(ws: seq<Word>, cur: Run, i: int)
    requires 0 <= i <= |ws|
  {
    if cur.base == -1 then i == 0 || ws[i - 1] != 0
    else cur.len >= 1 && ZeroRun(ws, cur.base, cur.len) && cur.base + cur.len == i && (cur.base == 0 || ws[cur.base - 1] != 0)
  }

  function Better(best: Run, cur: Run): Run {
    if cur.base != -1 && (best.base == -1 || cur.len > best.len) then cur else best
  }

  lemma {:induction false} CloseRun(ws: seq<Word>, best: Run, cur: Run, i: int)
    requires 0 <= i <= |ws| && CurrentAt(ws, cur, i)
    requires BestBy(ws, best, if cur.base == -1 then i else cur.base)
    ensures BestBy(ws, Better(best, cur), i)
  {
    var best' := Better(best, cur);
    forall b: int, n: nat | ZeroRun(ws, b, n) && n >= 1 && b + n <= i
      ensures best'.base != -1 && (n < best'.len || (n == best'.len && best'.base <= b))
    {
      if cur.base != -1 && b + n > cur.base {
        assert b >= cur.base;
      }
    }
  }

  method BestRun(ws: seq<Word>) returns (base: int, len: nat)
    ensures base == -1 || ZeroRun(ws, base, len)
    ensures IsBest(ws, base, len)
  {
    var best, cur := Run(-1, 0), Run(-1, 0);
    for i := 0 to |ws|
      invariant CurrentAt(ws, cur, i)
      invariant BestBy(ws, best, if cur.base == -1 then i else cur.base)
    {
      if ws[i] == 0 {
        if cur.base == -1 {
          cur := Run(i, 1);
        } else {
          cur := Run(cur.base, cur.len + 1);
        }
      } else {
        CloseRun(ws, best, cur, i);
        best := Better(best, cur);
        cur := Run(-1, 0);
        forall b: int, n: nat | ZeroRun(ws, b, n) && n >= 1 && b + n <= i + 1
          ensures b + n <= i
        {
        }
      }
    }
    CloseRun(ws, best, cur, |ws|);
    best := Better(best, cur);
    base, len := best.base, best.len;
    if base != -1 && len < 2 {
      base := -1;
    }
  }

  lemma {:induction false} WordAt(src: seq<Byte>, k: nat)
    requires |src| == 2 * |WordsOf(src)| && 2 * k < |src|
    ensures WordsOf(src)[k] == WordFrom(src[2 * k], src[2 * k + 1])
  {
    var n := |src|;
    if 2 * k < n - 2 {
      WordAt(src[..n - 2], k);
    }
  }

  method Words(src: seq<Byte>) returns (ws: seq<Word>)
    requires |src| == 16
    ensures ws == WordsOf(src)
  {
    ws := [0, 0, 0, 0, 0, 0, 0, 0];
    for i := 0 to 16
      invariant |ws| == 8
      invariant forall k :: 0 <= k < 8 ==>
                  ws[k] as int == if 2 * k + 1 < i then WordFrom(src[2 * k], src[2 * k + 1])
                                  else if 2 * k < i then src[2 * k] as int * 256 else 0
    {
      var octet: int := src[i];
      ws := ws[i / 2 := ws[i / 2] + if i % 2 == 0 then octet * 256 else octet];
    }
    forall k | 0 <= k < 8
      ensures ws[k] == WordsOf(src)[k]
    {
      WordAt(src, k);
    }
  }

  /** What the printing loop has written before word `i`. */
  function Sofar(ws: seq<Word>, base: int, len: nat, i: nat): string
    requires i <= |ws| == 8 && -1 <= base
  {
    if base == -1 || i <= base then Join(ws[..i])
    else if i <= base + len then Join(ws[..base]) + [':']
    else Join(ws[..base]) + [':', ':'] + Join(ws[base + len..i])
  }

  lemma {:induction false} JoinSnoc(ws: seq<Word>, w: Word)
    ensures Join(ws + [w]) == if ws == [] then Hex(w) else Join(ws) + [':'] + Hex(w)
  {
    assert (ws + [w])[..|ws|] == ws;
  }

  lemma {:induction false} JoinUpTo(ws: seq<Word>, from: nat, i: nat)
    requires from <= i < |ws|
    ensures Join(ws[from..i + 1]) == if i == from then Hex(ws[i]) else Join(ws[from..i]) + [':'] + Hex(ws[i])
  {
    assert ws[from..i + 1] == ws[from..i] + [ws[i]];
    JoinSnoc(ws[from..i], ws[i]);
  }

  lemma {:induction false} Behind(sofar: string, left: string, right: string, hex: string, first: bool)
    requires sofar == if first then left + [':'] else left + [':', ':'] + right
    ensures left + [':', ':'] + (if first then hex else right + [':'] + hex) == sofar + [':'] + hex
  {
    if first {
      assert left + [':', ':'] == left + [':'] + [':'];
    }
  }

  lemma {:induction false} SofarBefore(ws: seq<Word>, base: int, len: nat, i: nat)
    requires i < |ws| == 8 && (base == -1 || i < base)
    ensures Sofar(ws, base, len, i + 1) == Sofar(ws, base, len, i) + (if i == 0 then [] else [':']) + Hex(ws[i])
  {
    assert ws[0..i + 1] == ws[..i + 1] && ws[0..i] == ws[..i];
    JoinUpTo(ws, 0, i);
    assert [] + [] + Hex(ws[i]) == Hex(ws[i]);
  }

  lemma {:induction false} SofarBehind(ws: seq<Word>, base: int, len: nat, i: nat)
    requires i < |ws| == 8 && 0 <= base && base + len <= i && len >= 2
    ensures Sofar(ws, base, len, i + 1) == Sofar(ws, base, len, i) + [':'] + Hex(ws[i])
  {
    var sofar, left := Sofar(ws, base, len, i), Join(ws[..base]);
    var right, next := Join(ws[base + len..i]), Join(ws[base + len..i + 1]);
    assert next == if i == base + len then Hex(ws[i]) else right + [':'] + Hex(ws[i]) by {
      JoinUpTo(ws, base + len, i);
    }
    Behind(sofar, left, right, Hex(ws[i]), i == base + len);
  }

  lemma {:induction false} SofarStep(ws: seq<Word>, base: int, len: nat, i: nat)
    requires i < |ws| == 8 && (base == -1 || (0 <= base && base + len <= 8 && len >= 2))
    requires !(base != -1 && base <= i < base + len)
    ensures Sofar(ws, base, len, i + 1) == Sofar(ws, base, len, i) + (if i == 0 then [] else [':']) + Hex(ws[i])
  {
    if base == -1 || i < base {
      SofarBefore(ws, base, len, i);
    } else {
      SofarBehind(ws, base, len, i);
    }
  }

  lemma {:induction false} SofarEnd(ws: seq<Word>, base: int, len: nat)
    requires |ws| == 8 && (base == -1 || (0 <= base && base + len <= 8 && len >= 2))
    requires base == -1 || !Embeds4(ws, base, len)
    ensures Text6(ws, base, len) == Sofar(ws, base, len, 8) + if base != -1 && base + len == 8 then [':'] else []
  {
    assert ws[..8] == ws && ws[8..] == [];
    if base != -1 {
      assert ws[base + len..8] == ws[base + len..];
    }
  }

  lemma {:induction false} EmbeddedSofar(ws: seq<Word>, len: nat)
    requires |ws| == 8 && Embeds4(ws, 0, len)
    ensures Sofar(ws, 0, len, 6) == if len == 5 then [':', ':'] + Hex(ws[5]) else [':']
  {
    assert ws[..0] == [] && Join([]) == [];
    if len == 5 {
      assert ws[5..6] == [ws[5]];
    }
  }

  lemma WordBytes(high: Byte, low: Byte)
    ensures var w := WordFrom(high, low); w / 256 % 256 == high && w % 256 == low
  {
  }

  lemma {:induction false} BytesSnoc(ws: seq<Word>, high: Byte, low: Byte, more: seq<Word>)
    requires more == ws + [WordFrom(high, low)]
    ensures BytesOf(more) == BytesOf(ws) + [high, low]
  {
    WordBytes(high, low);
    assert more[..|ws|] == ws;
  }

  lemma {:induction false} LastTwo<T>(s: seq<T>)
    requires |s| >= 2
    ensures s[..|s| - 2] + [s[|s| - 2], s[|s| - 1]] == s
  {
  }

  /** The bytes of the words are the bytes of the address. */
  lemma {:induction false} BytesWhole(src: seq<Byte>)
    requires |src| == 2 * |WordsOf(src)|
    ensures BytesOf(WordsOf(src)) == src
  {
    var n := |src|;
    if n > 0 {
      var front := src[..n - 2];
      BytesWhole(front);
      BytesSnoc(WordsOf(front), src[n - 2], src[n - 1], WordsOf(src));
      LastTwo(src);
    }
  }

  lemma {:induction false} BytesAppend(a: seq<Word>, b: seq<Word>)
    ensures BytesOf(a + b) == BytesOf(a) + BytesOf(b)
  {
    if b == [] {
      assert a + b == a;
    } else {
      var n := |b| - 1;
      assert (a + b)[..|a| + n] == a + b[..n];
      BytesAppend(a, b[..n]);
    }
  }

  lemma {:induction false} SumSlices(a: seq<Byte>, b: seq<Byte>)
    ensures (a + b)[..|a|] == a && (a + b)[|a|..] == b
  {
  }

  lemma {:induction false} BytesSlice(ws: seq<Word>, i: nat)
    requires i <= |ws|
    ensures BytesOf(ws[i..]) == BytesOf(ws)[2 * i..] && BytesOf(ws[..i]) == BytesOf(ws)[..2 * i]
  {
    assert ws[..i] + ws[i..] == ws;
    BytesAppend(ws[..i], ws[i..]);
    SumSlices(BytesOf(ws[..i]), BytesOf(ws[i..]));
  }

  lemma {:induction false} EmbeddedRight(src: seq<Byte>, ws: seq<Word>, len: nat)
    requires |src| == 16 && ws == WordsOf(src) && Embeds4(ws, 0, len)
    ensures Right(ws, 0, len) == if len == 5 then Hex(ws[5]) + [':'] + Text4(src[12..]) else Text4(src[12..])
    ensures |Text4(src[12..])| <= 15
  {
    DottedLength(src[12..][..3]);
    BytesWhole(src);
    BytesSlice(ws, 6);
  }

  lemma {:induction false} TextFromStart(ws: seq<Word>, len: nat)
    requires |ws| == 8 && len <= 8
    ensures Text6(ws, 0, len) == [':', ':'] + Right(ws, 0, len)
  {
    assert ws[..0] == [] && Join([]) == [];
    assert [] + [':', ':'] == [':', ':'];
  }

  lemma {:induction false} Colons(five: bool, hex: string, t: string)
    ensures [':', ':'] + (if five then hex + [':'] + t else t)
         == (if five then [':', ':'] + hex else [':']) + [':'] + t
  {
  }

  lemma {:induction false} EmbeddedText(src: seq<Byte>, ws: seq<Word>, len: nat)
    requires |src| == 16 && ws == WordsOf(src) && Embeds4(ws, 0, len)
    ensures Text6(ws, 0, len) == Sofar(ws, 0, len, 6) + [':'] + Text4(src[12..])
  {
    TextFromStart(ws, len);
    EmbeddedSofar(ws, len);
    EmbeddedRight(src, ws, len);
    Colons(len == 5, Hex(ws[5]), Text4(src[12..]));
  }

  /** Writes the embedded IPv4 address after the colon; the buffer has room for it. */
  method Append4(src: seq<Byte>, ws: seq<Word>, len: nat, before: string) returns (tmp: string)
    requires |src| == 16 && ws == WordsOf(src) && Embeds4(ws, 0, len)
    requires before == Sofar(ws, 0, len, 6) + [':']
    ensures tmp == Text6(ws, 0, len) && |tmp| < BUFFER
  {
    EmbeddedText(src, ws, len);
    EmbeddedSofar(ws, len);
    EmbeddedRight(src, ws, len);
    var text := InetNtop4(src[12..], BUFFER - |before|);
    tmp := before + text.value;
  }

  /** The text of an address, whose best run is given, as the source writes it. */
  method Format(src: seq<Byte>, ws: seq<Word>, base: int, len: nat) returns (tmp: string)
    requires |src| == 16 && ws == WordsOf(src)
    requires base == -1 || (len >= 2 && ZeroRun(ws, base, len))
    ensures tmp == Text6(ws, base, len) && |tmp| < BUFFER
  {
    tmp := [];
    var seven := len == 7 && ws[7] != 1;
    for i := 0 to 8
      invariant tmp == Sofar(ws, base, len, i) && |tmp| <= 5 * i
      invariant i > 6 ==> base == -1 || !Embeds4(ws, base, len)
    {
      if base != -1 && base <= i < base + len {
        if i == base {
          tmp := tmp + [':'];
        }
      } else {
        SofarStep(ws, base, len, i);
        if i != 0 {
          tmp := tmp + [':'];
        }
        // A run of seven words from the start contains word 6.
        assert !(i == 6 && base == 0 && len == 7);
        if i == 6 && base == 0 && (len == 6 || seven || (len == 5 && ws[5] == 0xffff)) {
          tmp := Append4(src, ws, len, tmp);
          return;
        }
        tmp := tmp + Hex(ws[i]);
      }
    }
    SofarEnd(ws, base, len);
    if base != -1 && base + len == 8 {
      tmp := tmp + [':'];
    }
  }

  /** The text is that for some best run. */
  ghost predicate IsText6(src: seq<Byte>, text: string)
    requires |src| == 16
  {
    var ws := WordsOf(src);
    exists base: int, len: nat ::
      && IsBest(ws, base, len) && (base == -1 || ZeroRun(ws, base, len))
      && text == Text6(ws, base, len)
  }

  /** Prints an address; fails only when text and terminator exceed `size`. */
  method InetNtop6(src: seq<Byte>, size: nat) returns (dst: Option<string>, ghost text: string)
    requires |src| == 16
    ensures IsText6(src, text) && |text| < BUFFER
    ensures dst == if |text| < size then Some(text) else None
  {
    var ws := Words(src);
    var base, len := BestRun(ws);
    var tmp := Format(src, ws, base, len);
    text := tmp;
    if |tmp| + 1 > size {
      return None, tmp;
    }
    dst := Some(tmp);
  }

  /** Which run is written short is determined, and so is the text. */
  lemma {:induction false} TextIsUnique(src: seq<Byte>, s: string, t: string)
    requires |src| == 16 && IsText6(src, s) && IsText6(src, t)
    ensures s == t
  {
  }

  // ----- the text of RFC 5952

  lemma HexDigitIs(d: int)
    requires 0 <= d < 16
    ensures HexDigit(d) == Rfc5952.DIGITS[d]
  {
  }

  lemma HexByte(n: Byte)
    ensures Hex(n) == if n < 16 then [Rfc5952.DIGITS[n]] else [Rfc5952.DIGITS[n / 16], Rfc5952.DIGITS[n % 16]]
  {
    HexDigitIs(n % 16);
    if n >= 16 {
      HexDigitIs(n / 16);
    }
  }

  lemma HexMore(n: nat, low: nat)
    requires n > 0 && low < 16
    ensures Hex(16 * n + low) == Hex(n) + [Rfc5952.DIGITS[low]]
  {
    ModArith.Unique(16 * n + low, 16, n, low);
    HexDigitIs(low);
  }

  lemma HexWord(high: nat, low: Byte)
    requires high > 0
    ensures Hex(256 * high + low as int) == Hex(high) + [Rfc5952.DIGITS[low / 16]] + [Rfc5952.DIGITS[low % 16]]
  {
    HexMore(16 * high + low / 16, low % 16);
    HexMore(high, low / 16);
  }

  lemma {:induction false} Stripped(a: char, b: char, c: char, d: char)
    ensures Rfc5952.Strip([a, b, c, d])
         == if a != '0' then [a, b, c, d] else if b != '0' then [b, c, d] else if c != '0' then [c, d] else [d]
  {
    assert [c, d][1..] == [d] && [b, c, d][1..] == [c, d] && [a, b, c, d][1..] == [b, c, d];
    assert Rfc5952.Strip([c, d]) == if c != '0' then [c, d] else [d];
    assert Rfc5952.Strip([b, c, d]) == if b != '0' then [b, c, d] else Rfc5952.Strip([c, d]);
  }

  /** The digits of two bytes. */
  function Nibbles(high: Byte, low: Byte): (string, string) {
    ([Rfc5952.DIGITS[high / 16], Rfc5952.DIGITS[high % 16]], [Rfc5952.DIGITS[low / 16], Rfc5952.DIGITS[low % 16]])
  }

  lemma {:induction false} Pairs(a: string, b: char, c: char)
    ensures a + [b] + [c] == a + [b, c]
  {
  }

  lemma {:induction false} HexWide(high: Byte, low: Byte)
    requires high > 0
    ensures Hex(256 * high as int + low as int) == Hex(high) + Nibbles(high, low).1
  {
    HexWord(high, low);
    Pairs(Hex(high), Rfc5952.DIGITS[low / 16], Rfc5952.DIGITS[low % 16]);
  }

  lemma {:induction false} HexByteIs(n: Byte)
    ensures Hex(n) == if n >= 16 then Nibbles(n, n).1 else Nibbles(n, n).1[1..]
  {
    HexByte(n);
  }

  lemma {:induction false} ZeroDigit(d: nat)
    requires d < 16
    ensures Rfc5952.DIGITS[d] == '0' <==> d == 0
  {
    HexDigitIs(d);
  }

  /** Stripping works byte by byte. */
  lemma {:induction false} StripBytes(high: Byte, low: Byte)
    ensures Rfc5952.Field(high, low) == if high > 0 then Hex(high) + Nibbles(high, low).1 else Hex(low)
  {
    var (a, b) := Nibbles(high, low);
    Stripped(a[0], a[1], b[0], b[1]);
    ZeroDigit(high / 16);
    ZeroDigit(high % 16);
    ZeroDigit(low / 16);
    if high > 0 {
      HexByteIs(high);
    } else {
      HexByteIs(low);
    }
  }

  lemma {:induction false} FieldIs(high: Byte, low: Byte)
    ensures Hex(WordFrom(high, low)) == Rfc5952.Field(high, low)
  {
    StripBytes(high, low);
    if high > 0 {
      HexWide(high, low);
    }
  }

  /** The words are the bytes in pairs. */
  ghost predicate Paired(src: seq<Byte>, ws: seq<Word>) {
    |src| == 16 && |ws| == 8 && forall k :: 0 <= k < 8 ==> ws[k] == WordFrom(src[2 * k], src[2 * k + 1])
  }

  lemma {:induction false} WordsPaired(src: seq<Byte>)
    requires |src| == 16
    ensures Paired(src, WordsOf(src))
  {
    forall k | 0 <= k < 8
      ensures WordsOf(src)[k] == WordFrom(src[2 * k], src[2 * k + 1])
    {
      WordAt(src, k);
    }
  }

  lemma {:induction false} FieldsSnoc(src: seq<Byte>, i: nat, k: nat)
    requires |src| == 16 && i <= k < 8
    ensures var last := Rfc5952.Field(src[2 * k], src[2 * k + 1]);
            Rfc5952.Fields(src, i, k + 1) == if i == k then last else Rfc5952.Fields(src, i, k) + [':'] + last
  {
  }

  lemma {:induction false} FieldsWord(src: seq<Byte>, ws: seq<Word>, i: nat, k: nat)
    requires Paired(src, ws) && i <= k < 8
    ensures Rfc5952.Fields(src, i, k + 1) == if i == k then Hex(ws[k]) else Rfc5952.Fields(src, i, k) + [':'] + Hex(ws[k])
  {
    FieldsSnoc(src, i, k);
    FieldIs(src[2 * k], src[2 * k + 1]);
  }

  lemma {:induction false} FieldsAre(src: seq<Byte>, ws: seq<Word>, i: nat, j: nat)
    requires Paired(src, ws) && i <= j <= 8
    ensures Join(ws[i..j]) == Rfc5952.Fields(src, i, j)
    decreases j
  {
    if i < j {
      FieldsWord(src, ws, i, j - 1);
      JoinUpTo(ws, i, j - 1);
      FieldsAre(src, ws, i, j - 1);
    }
  }

  lemma {:induction false} PairZero(src: seq<Byte>, ws: seq<Word>, k: nat)
    requires Paired(src, ws) && k < 8
    ensures ws[k] == 0 <==> Rfc5952.IsZero(src, k)
  {
  }

  lemma {:induction false} ZerosAre(src: seq<Byte>, ws: seq<Word>, base: nat, len: nat)
    requires Paired(src, ws) && base + len <= 8
    ensures ZeroRun(ws, base, len) <==> forall k :: base <= k < base + len ==> Rfc5952.IsZero(src, k)
  {
    forall k | base <= k < base + len
      ensures ws[k] == 0 <==> Rfc5952.IsZero(src, k)
    {
      PairZero(src, ws, k);
    }
  }

  lemma {:induction false} RunStep(src: seq<Byte>, ws: seq<Word>, base: nat, len: nat)
    requires Paired(src, ws) && len >= 2
    ensures Rfc5952.Run(src, base, len)
         == if base + len > 8 then Rfc5952.Run(src, 0, len - 1)
            else if ZeroRun(ws, base, len) then Some((base, len))
            else Rfc5952.Run(src, base + 1, len)
  {
    if base + len <= 8 {
      ZerosAre(src, ws, base, len);
    }
  }

  lemma {:induction false} BestFound(ws: seq<Word>, best: int, most: nat, base: nat, len: nat)
    requires IsBest(ws, best, most) && ZeroRun(ws, base, len) && len >= 2
    requires best == -1 || most < len || (most == len && base <= best)
    ensures best == base && most == len
  {
  }

  /** The search of longest runs first finds the best one. */
  lemma {:induction false} RunIs(src: seq<Byte>, ws: seq<Word>, best: int, most: nat, base: nat, len: nat)
    requires Paired(src, ws) && IsBest(ws, best, most) && (best == -1 || 0 <= best)
    requires best == -1 || most < len || (most == len && base <= best)
    ensures Rfc5952.Run(src, base, len) == if best == -1 then None else Some((best, most))
    decreases len, 9 - base
  {
    if len >= 2 {
      RunStep(src, ws, base, len);
      if base + len > 8 {
        RunIs(src, ws, best, most, 0, len - 1);
      } else if ZeroRun(ws, base, len) {
        BestFound(ws, best, most, base, len);
      } else {
        RunIs(src, ws, best, most, base + 1, len);
      }
    }
  }

  lemma {:induction false} MappedPrefix()
    ensures Hex(0xffff) + [':'] == "ffff:"
  {
    HexMore(0xfff, 15);
    HexMore(0xff, 15);
    HexByte(0xff);
  }

  lemma {:induction false} EmbeddedIs(src: seq<Byte>, ws: seq<Word>, len: nat)
    requires |src| == 16 && ws == WordsOf(src) && Embeds4(ws, 0, len)
    ensures Text6(ws, 0, len) == (if len == 6 then "::" else "::ffff:") + Rfc5952.Dotted(src[12], src[13], src[14], src[15])
  {
    var tail := Text4(src[12..]);
    TextFromStart(ws, len);
    EmbeddedRight(src, ws, len);
    TextIs(src[12..]);
    if len == 5 {
      MappedPrefix();
      assert [':', ':'] + ("ffff:" + tail) == "::ffff:" + tail;
    }
  }

  lemma {:induction false} ShortenedIs(src: seq<Byte>, ws: seq<Word>, base: nat, len: nat)
    requires Paired(src, ws) && base + len <= 8 && !Embeds4(ws, base, len)
    ensures Text6(ws, base, len) == Rfc5952.Fields(src, 0, base) + "::" + Rfc5952.Fields(src, base + len, 8)
  {
    FieldsAre(src, ws, 0, base);
    FieldsAre(src, ws, base + len, 8);
    assert ws[0..base] == ws[..base] && ws[base + len..8] == ws[base + len..];
  }

  lemma {:induction false} WholeIs(src: seq<Byte>, ws: seq<Word>, len: nat)
    requires Paired(src, ws)
    ensures Text6(ws, -1, len) == Rfc5952.Fields(src, 0, 8)
  {
    FieldsAre(src, ws, 0, 8);
    assert ws[0..8] == ws;
  }

  lemma {:induction false} EmbedsIff(src: seq<Byte>, ws: seq<Word>, base: nat, len: nat)
    requires Paired(src, ws)
    ensures Embeds4(ws, base, len) <==> base == 0 && (len == 6 || (len == 5 && src[10] == 255 && src[11] == 255))
  {
  }

  lemma {:induction false} TextOfRun(src: seq<Byte>, base: nat, len: nat)
    requires |src| == 16 && Rfc5952.Run(src, 0, 8) == Some((base, len))
    ensures base + len <= 8
    ensures var tail := Rfc5952.Dotted(src[12], src[13], src[14], src[15]);
            Rfc5952.Text(src)
            == if base == 0 && len == 6 then "::" + tail
               else if base == 0 && len == 5 && src[10] == 255 && src[11] == 255 then "::ffff:" + tail
               else Rfc5952.Fields(src, 0, base) + "::" + Rfc5952.Fields(src, base + len, 8)
  {
  }

  lemma {:induction false} BestText(src: seq<Byte>, base: nat, len: nat)
    requires |src| == 16 && base + len <= 8 && Rfc5952.Run(src, 0, 8) == Some((base, len))
    ensures Text6(WordsOf(src), base, len) == Rfc5952.Text(src)
  {
    var ws := WordsOf(src);
    WordsPaired(src);
    TextOfRun(src, base, len);
    EmbedsIff(src, ws, base, len);
    if Embeds4(ws, base, len) {
      EmbeddedIs(src, ws, len);
    } else {
      ShortenedIs(src, ws, base, len);
    }
  }

  /** What is printed is the text of RFC 5952. */
  lemma {:induction false} PrintsRfc5952(src: seq<Byte>, text: string)
    requires |src| == 16 && IsText6(src, text)
    ensures text == Rfc5952.Text(src)
  {
    var ws := WordsOf(src);
    var base: int, len: nat :|
      IsBest(ws, base, len) && (base == -1 || ZeroRun(ws, base, len)) && text == Text6(ws, base, len);
    WordsPaired(src);
    RunIs(src, ws, base, len, 0, 8);
    if base == -1 {
      WholeIs(src, ws, len);
    } else {
      BestText(src, base, len);
    }
  }
}

/** Reading the text of an IPv6 address. */
module Inet6Parser {
  import opened Common
  import opened Inet4
  import opened Inet6

  /** The bytes finished, where two colons stood, the digits and value of the word being
      read, and the text since the last colon. */
  datatype Scan6 = Scan6(bytes: seq<Byte>, colon: Option<nat>, seen: nat, val: nat, token: string)

  const Start6 := Scan6([], None, 0, 0, [])

  function Colon(st: Scan6, last: bool): Option<Scan6> {
    if st.seen == 0 then
      if st.colon.Some? then None else Some(st.(colon := Some(|st.bytes|), token := []))
    else if last || |st.bytes| + 2 > 16 then None
    else Some(Scan6(PushWord(st.bytes, st.val), st.colon, 0, 0, []))
  }

  /** The state at the end of the text; an embedded IPv4 address ends it. */
  function Run6(st: Scan6, s: string): Option<Scan6>
    decreases |s|
  {
    if s == [] then Some(st)
    else if HexValue(s[0]).Some? then
      if st.seen + 1 > 4 then None
      else Run6(st.(val := st.val * 16 + HexValue(s[0]).value, seen := st.seen + 1, token := st.token + [s[0]]), s[1..])
    else if s[0] == ':' then
      match Colon(st, |s| == 1)
      case None => None
      case Some(next) => Run6(next, s[1..])
    else if s[0] == '.' && |st.bytes| + 4 <= 16 then
      match Parse4(st.token + s)
      case None => None
      case Some(b) => Some(Scan6(st.bytes + b, st.colon, 0, 0, []))
    else None
  }

  function Zeros(n: nat): seq<Byte> {
    seq(n, _ => 0)
  }

  /** Opens a gap of zeros where the two colons stood. */
  function Spread(b: seq<Byte>, colon: Option<nat>): Option<seq<Byte>> {
    match colon
    case Some(c) =>
      if |b| < 16 && c <= |b| then Some(b[..c] + Zeros(16 - |b|) + b[c..]) else None
    case None =>
      if |b| == 16 then Some(b) else None
  }

  function Finish(st: Scan6): Option<seq<Byte>> {
    if st.seen == 0 then Spread(st.bytes, st.colon)
    else if |st.bytes| + 2 > 16 then None
    else Spread(PushWord(st.bytes, st.val), st.colon)
  }

  /** The address a text denotes. */
  function Parse6(s: string): Option<seq<Byte>> {
    if s != [] && s[0] == ':' && (|s| == 1 || s[1] != ':') then None
    else
      match Run6(Start6, if s != [] && s[0] == ':' then s[1..] else s)
      case None => None
      case Some(st) => Finish(st)
  }

  /** The buffer holds `tp` bytes, and zeros behind them. */
  ghost predicate Filled(tmp: seq<Byte>, tp: nat) {
    tp <= |tmp| == 16 && forall k :: tp <= k < 16 ==> tmp[k] == 0
  }

  method Put(tmp: array<Byte>, tp: nat, b: seq<Byte>)
    requires Filled(tmp[..], tp) && tp + |b| <= 16
    modifies tmp
    ensures Filled(tmp[..], tp + |b|) && tmp[..tp + |b|] == old(tmp[..tp]) + b
  {
    assert tmp[..][tp..] == tmp[tp..];
    for i := 0 to |b|
      invariant forall k :: tp + i <= k < 16 ==> tmp[k] == 0
      invariant tmp[..tp + i] == old(tmp[..tp]) + b[..i]
    {
      tmp[tp + i] := b[i];
    }
    assert b[..|b|] == b;
  }

  lemma {:induction false} MovedIs(b: seq<Byte>, colon: nat, t: seq<Byte>)
    requires colon <= |b| < 16 == |t|
    requires forall k :: 0 <= k < colon ==> t[k] == b[k]
    requires forall k :: colon <= k < 16 - (|b| - colon) ==> t[k] == 0
    requires forall k :: 16 - (|b| - colon) <= k < 16 ==> t[k] == b[k - (16 - |b|)]
    ensures t == b[..colon] + Zeros(16 - |b|) + b[colon..]
  {
  }

  /** The last `i` of the first `tp` bytes have been moved to the end. */
  ghost predicate Moved(was: seq<Byte>, s: seq<Byte>, tp: nat, i: nat) {
    && |was| == |s| == 16 && i <= tp < 16
    && (forall k {:trigger s[k]} :: 0 <= k < tp - i ==> s[k] == was[k])
    && (forall k {:trigger s[k]} :: tp - i <= k < 16 - i ==> s[k] == 0)
    && (forall k {:trigger s[k]} :: 16 - i <= k < 16 ==> s[k] == was[k - (16 - tp)])
  }

  lemma {:induction false} MoveOne(was: seq<Byte>, s: seq<Byte>, tp: nat, i: nat)
    requires Moved(was, s, tp, i) && i < tp
    ensures Moved(was, s[15 - i := s[tp - 1 - i]][tp - 1 - i := 0], tp, i + 1)
  {
  }

  /** Moves the bytes from `colon` on to the end of the buffer, last byte first, leaving
      zeros; source and destination may overlap. */
  method Spread6(tmp: array<Byte>, colon: nat, tp: nat)
    requires Filled(tmp[..], tp) && colon <= tp < 16
    modifies tmp
    ensures Spread(old(tmp[..tp]), Some(colon)) == Some(tmp[..])
  {
    var n := tp - colon;
    ghost var was := tmp[..];
    for i := 1 to n + 1
      invariant Moved(was, tmp[..], tp, i - 1)
    {
      MoveOne(was, tmp[..], tp, i - 1);
      tmp[16 - i] := tmp[colon + (n - i)];
      tmp[colon + (n - i)] := 0;
    }
    MovedIs(was[..tp], colon, tmp[..]);
  }

  lemma {:induction false} FinishIgnores(bytes: seq<Byte>, colon: Option<nat>, seen: nat, val: nat, token: string)
    ensures Finish(Scan6(bytes, colon, seen, val, token)) == Finish(Scan6(bytes, colon, seen, val, []))
  {
  }

  /** A colon ends a word, or is the second of two. */
  method OnColon(tmp: array<Byte>, tp0: nat, colon0: Option<nat>, seen0: nat, val0: nat, last: bool,
                 ghost token: string)
    returns (ok: bool, tp: nat, colon: Option<nat>, seen: nat, val: nat)
    requires Filled(tmp[..], tp0) && (colon0.Some? ==> colon0.value <= tp0)
    modifies tmp
    ensures Filled(tmp[..], tp) && (colon.Some? ==> colon.value <= tp)
    ensures Colon(Scan6(old(tmp[..tp0]), colon0, seen0, val0, token), last)
         == if ok then Some(Scan6(tmp[..tp], colon, seen, val, [])) else None
  {
    tp, colon, seen, val := tp0, colon0, seen0, val0;
    if seen == 0 {
      ok := colon.None?;
      colon := Some(tp);
      return;
    }
    if last || tp + 2 > 16 {
      ok := false;
      return;
    }
    Put(tmp, tp, [val / 256 % 256, val % 256]);
    tp, seen, val, ok := tp + 2, 0, 0, true;
  }

  /** What follows the reading loop. */
  method Conclude(tmp: array<Byte>, end: nat, colon: Option<nat>, seen: nat, val: nat) returns (dst: Option<seq<Byte>>)
    requires Filled(tmp[..], end) && (colon.Some? ==> colon.value <= end)
    modifies tmp
    ensures dst == Finish(Scan6(old(tmp[..end]), colon, seen, val, []))
  {
    var tp := end;
    if seen > 0 {
      if tp + 2 > 16 {
        return None;
      }
      Put(tmp, tp, [val / 256 % 256, val % 256]);
      tp := tp + 2;
    }
    if colon.Some? {
      if tp == 16 {
        return None;
      }
      Spread6(tmp, colon.value, tp);
      return Some(tmp[..]);
    }
    assert tmp[..16] == tmp[..];
    dst := if tp == 16 then Some(tmp[..]) else None;
  }

  /** The text since the last colon is an IPv4 address, which ends the text. */
  method ConcludeDotted(tmp: array<Byte>, tp: nat, colon: Option<nat>, curtok: string) returns (dst: Option<seq<Byte>>)
    requires Filled(tmp[..], tp) && tp + 4 <= 16 && (colon.Some? ==> colon.value <= tp)
    modifies tmp
    ensures dst == match Parse4(curtok)
                   case None => None
                   case Some(b) => Finish(Scan6(old(tmp[..tp]) + b, colon, 0, 0, []))
  {
    var octets := InetPton4(curtok);
    if octets.None? {
      return None;
    }
    Parse4Iff(curtok, octets.value);
    Put(tmp, tp, octets.value);
    dst := Conclude(tmp, tp + 4, colon, 0, 0);
  }

  /** The pointers into the text are modelled by the suffixes they point to. */
  method InetPton6(src: string) returns (dst: Option<seq<Byte>>)
    ensures dst == Parse6(src)
  {
    var tmp := new Byte[16](_ => 0);
    var tp: nat, colon: Option<nat>, seen: nat, val: nat := 0, None, 0, 0;
    var rest := src;
    if rest != [] && rest[0] == ':' {
      rest := rest[1..];
      if rest == [] || rest[0] != ':' {
        return None;
      }
    }
    var curtok := rest;
    ghost var all, token := Run6(Start6, rest), [];
    while rest != []
      invariant Filled(tmp[..], tp) && (colon.Some? ==> colon.value <= tp)
      invariant curtok == token + rest
      invariant all == Run6(Scan6(tmp[..tp], colon, seen, val, token), rest)
      decreases |rest|
    {
      var ch := rest[0];
      var digit := HexValue(ch);
      if digit.Some? {
        val, seen := val * 16 + digit.value, seen + 1;
        if seen > 4 {
          return None;
        }
        token, rest := token + [ch], rest[1..];
      } else if ch == ':' {
        var ok;
        ok, tp, colon, seen, val := OnColon(tmp, tp, colon, seen, val, |rest| == 1, token);
        if !ok {
          return None;
        }
        token, rest := [], rest[1..];
        curtok := rest;
      } else if ch == '.' && tp + 4 <= 16 {
        dst := ConcludeDotted(tmp, tp, colon, curtok);
        return;
      } else {
        return None;
      }
    }
    FinishIgnores(tmp[..tp], colon, seen, val, token);
    dst := Conclude(tmp, tp, colon, seen, val);
  }

  /** Up to the first percent sign: the rest names a zone. */
  function WithoutZone(s: string): string {
    if s == [] || s[0] == '%' then [] else [s[0]] + WithoutZone(s[1..])
  }

  lemma {:induction false} ZoneStep(s: string, i: nat)
    requires i < |s| && s[i] != '%'
    ensures s[..i] + WithoutZone(s[i..]) == s[..i + 1] + WithoutZone(s[i + 1..])
  {
    assert s[i..][1..] == s[i + 1..];
    assert s[..i] + [s[i]] == s[..i + 1];
  }

  /** A zone is ignored; what precedes it must fit the buffer. */
  method UvInetPton6(src: string) returns (dst: Option<seq<Byte>>)
    ensures dst == if WithoutZone(src) != src && |WithoutZone(src)| > 45 then None else Parse6(WithoutZone(src))
  {
    var len := 0;
    assert src[0..] == src;
    while len < |src| && src[len] != '%'
      invariant len <= |src| && WithoutZone(src) == src[..len] + WithoutZone(src[len..])
    {
      ZoneStep(src, len);
      len := len + 1;
    }
    assert WithoutZone(src) == src[..len];
    if len < |src| {
      if len > BUFFER - 1 {
        return None;
      }
    }
    dst := InetPton6(src[..len]);
  }

  // ----- what is printed is read back

  lemma HexDigitValue(d: int)
    requires 0 <= d < 16
    ensures HexValue(HexDigit(d)) == Some(d)
  {
  }

  lemma {:induction false} ReadsHex(st: Scan6, n: nat, rest: string)
    requires st.seen == 0 && st.val == 0 && |Hex(n)| <= 4
    ensures Run6(st, Hex(n) + rest) == Run6(st.(seen := |Hex(n)|, val := n, token := st.token + Hex(n)), rest)
    decreases n
  {
    var d := n % 16;
    HexDigitValue(d);
    if n < 16 {
      assert (Hex(n) + rest)[1..] == rest;
    } else {
      var more := [HexDigit(d)] + rest;
      assert Hex(n) + rest == Hex(n / 16) + more;
      ReadsHex(st, n / 16, more);
      assert more[1..] == rest;
      assert st.token + Hex(n / 16) + [HexDigit(d)] == st.token + Hex(n);
    }
  }

  lemma {:induction false} ReadsColon(st: Scan6, rest: string)
    requires st.seen > 0 && rest != [] && |st.bytes| + 2 <= 16
    ensures Run6(st, [':'] + rest) == Run6(Scan6(PushWord(st.bytes, st.val), st.colon, 0, 0, []), rest)
  {
    assert ([':'] + rest)[1..] == rest;
  }

  /** The state after joined words, the last one still pending. */
  function Pending(bytes: seq<Byte>, colon: Option<nat>, ws: seq<Word>): Scan6
    requires ws != []
  {
    var n := |ws| - 1;
    Scan6(bytes + BytesOf(ws[..n]), colon, |Hex(ws[n])|, ws[n], Hex(ws[n]))
  }

  lemma {:induction false} PushPending(bytes: seq<Byte>, colon: Option<nat>, ws: seq<Word>)
    requires ws != []
    ensures var st := Pending(bytes, colon, ws); PushWord(st.bytes, st.val) == bytes + BytesOf(ws)
  {
    var n := |ws| - 1;
  }

  lemma {:induction false} ReadsWord(bytes: seq<Byte>, colon: Option<nat>, ws: seq<Word>, rest: string)
    requires ws != [] && rest != [] && |bytes| + 2 * |ws| <= 16
    ensures Run6(Pending(bytes, colon, ws), [':'] + rest) == Run6(Scan6(bytes + BytesOf(ws), colon, 0, 0, []), rest)
  {
    ReadsColon(Pending(bytes, colon, ws), rest);
    PushPending(bytes, colon, ws);
  }

  lemma {:induction false} JoinMore(ws: seq<Word>, rest: string)
    requires |ws| > 1
    ensures Join(ws) + rest == Join(ws[..|ws| - 1]) + ([':'] + (Hex(ws[|ws| - 1]) + rest))
  {
  }

  lemma {:induction false} ReadsJoin(bytes: seq<Byte>, colon: Option<nat>, ws: seq<Word>, rest: string)
    requires ws != [] && |bytes| + 2 * |ws| <= 16
    ensures Run6(Scan6(bytes, colon, 0, 0, []), Join(ws) + rest) == Run6(Pending(bytes, colon, ws), rest)
    decreases |ws|
  {
    var n := |ws| - 1;
    var last := Hex(ws[n]);
    assert [] + last == last;
    if n == 0 {
      ReadsHex(Scan6(bytes, colon, 0, 0, []), ws[0], rest);
      assert bytes + BytesOf(ws[..0]) == bytes;
    } else {
      JoinMore(ws, rest);
      ReadsJoin(bytes, colon, ws[..n], [':'] + (last + rest));
      ReadsWord(bytes, colon, ws[..n], last + rest);
      ReadsHex(Scan6(bytes + BytesOf(ws[..n]), colon, 0, 0, []), ws[n], rest);
    }
  }

  /** Leading digits of an IPv4 address are taken for hexadecimal ones, until its dot. */
  lemma {:induction false} ReadsEmbedded(st: Scan6, t: string, rest: string, b: seq<Byte>)
    requires st.seen + |t| <= 4 && |st.bytes| + 4 <= 16 && forall i :: 0 <= i < |t| ==> IsDigit(t[i])
    requires Parse4(st.token + t + ['.'] + rest) == Some(b)
    ensures Run6(st, t + ['.'] + rest) == Some(Scan6(st.bytes + b, st.colon, 0, 0, []))
    decreases |t|
  {
    var s := t + ['.'] + rest;
    assert st.token + t + ['.'] + rest == st.token + s;
    if t != [] {
      assert s[1..] == t[1..] + ['.'] + rest;
      var token := st.token + [t[0]];
      assert token + t[1..] + ['.'] + rest == st.token + s;
      ReadsEmbedded(st.(val := st.val * 16 + HexValue(t[0]).value, seen := st.seen + 1, token := token), t[1..], rest, b);
    }
  }

  lemma {:induction false} ReadsText4(bytes: seq<Byte>, colon: Option<nat>, b: seq<Byte>)
    requires |b| == 4 && |bytes| + 4 <= 16
    ensures Run6(Scan6(bytes, colon, 0, 0, []), Text4(b)) == Some(Scan6(bytes + b, colon, 0, 0, []))
  {
    var first, rest := Dec(b[0]), Dotted(b[1..3]) + Dec(b[3]);
    DottedCons(b[0], b[1..3]);
    assert [b[0]] + b[1..3] == b[..3];
    Associate(first + ['.'], Dotted(b[1..3]), Dec(b[3]));
    assert Text4(b) == first + ['.'] + rest;
    assert [] + first == first;
    ParsePrint4(b);
    ReadsEmbedded(Scan6(bytes, colon, 0, 0, []), first, rest, b);
  }

  lemma {:induction false} FinishPending(bytes: seq<Byte>, colon: Option<nat>, ws: seq<Word>)
    requires ws != [] && |bytes| + 2 * |ws| <= 16
    ensures Finish(Pending(bytes, colon, ws)) == Finish(Scan6(bytes + BytesOf(ws), colon, 0, 0, []))
  {
    PushPending(bytes, colon, ws);
  }

  lemma {:induction false} Closes(bytes: seq<Byte>, more: seq<Byte>, len: nat)
    requires len >= 1 && |bytes| + 2 * len + |more| == 16
    ensures Finish(Scan6(bytes + more, Some(|bytes|), 0, 0, [])) == Some(bytes + Zeros(2 * len) + more)
  {
    assert (bytes + more)[..|bytes|] == bytes && (bytes + more)[|bytes|..] == more;
  }

  lemma {:induction false} EmptyPlus<T>(s: seq<T>)
    ensures [] + s == s && s + [] == s
  {
  }

  lemma {:induction false} ReadsRightWords(bytes: seq<Byte>, right: seq<Word>, len: nat)
    requires len >= 1 && |bytes| + 2 * len + 2 * |right| == 16
    ensures var r := Run6(Scan6(bytes, Some(|bytes|), 0, 0, []), Join(right));
            r.Some? && Finish(r.value) == Some(bytes + Zeros(2 * len) + BytesOf(right))
  {
    Closes(bytes, BytesOf(right), len);
    if right == [] {
      EmptyPlus(bytes);
    } else {
      ReadsJoin(bytes, Some(|bytes|), right, []);
      EmptyPlus(Join(right));
      FinishPending(bytes, Some(|bytes|), right);
    }
  }

  lemma {:induction false} PeelTwo(s: seq<Byte>, i: nat)
    requires i + 2 <= |s|
    ensures s[i..] == [s[i], s[i + 1]] + s[i + 2..]
  {
  }

  lemma {:induction false} EmbeddedTail(src: seq<Byte>, ws: seq<Word>, len: nat)
    requires |src| == 16 && ws == WordsOf(src) && 5 <= len <= 6
    ensures BytesOf(ws[len..]) == (if len == 5 then PushWord([], ws[5]) else []) + src[12..]
  {
    BytesWhole(src);
    BytesSlice(ws, len);
    WordAt(src, 5);
    WordBytes(src[10], src[11]);
    PeelTwo(src, 10);
    EmptyPlus(src[12..]);
  }

  lemma {:induction false} ReadsMapped(w: Word, b: seq<Byte>)
    requires |b| == 4
    ensures Run6(Scan6([], Some(0), 0, 0, []), Hex(w) + [':'] + Text4(b)) == Some(Scan6(PushWord([], w) + b, Some(0), 0, 0, []))
  {
    Associate(Hex(w), [':'], Text4(b));
    ReadsHex(Scan6([], Some(0), 0, 0, []), w, [':'] + Text4(b));
    ReadsColon(Scan6([], Some(0), |Hex(w)|, w, [] + Hex(w)), Text4(b));
    ReadsText4(PushWord([], w), Some(0), b);
  }

  lemma {:induction false} ReadsRightEmbedded(src: seq<Byte>, ws: seq<Word>, len: nat, bytes: seq<Byte>)
    requires |src| == 16 && ws == WordsOf(src) && Embeds4(ws, 0, len) && bytes == []
    ensures var r := Run6(Scan6(bytes, Some(0), 0, 0, []), Right(ws, 0, len));
            r.Some? && Finish(r.value) == Some(bytes + Zeros(2 * len) + BytesOf(ws[len..]))
  {
    var tail := BytesOf(ws[len..]);
    EmbeddedRight(src, ws, len);
    EmbeddedTail(src, ws, len);
    if len == 5 {
      ReadsMapped(ws[5], src[12..]);
    } else {
      ReadsText4([], Some(0), src[12..]);
    }
    EmptyPlus(tail);
    Closes([], tail, len);
  }

  /** What is written after the two colons is read as the words after the run. */
  lemma {:induction false} ReadsRight(src: seq<Byte>, ws: seq<Word>, base: int, len: nat, bytes: seq<Byte>)
    requires |src| == 16 && ws == WordsOf(src) && len >= 1 && ZeroRun(ws, base, len) && |bytes| == 2 * base
    ensures var r := Run6(Scan6(bytes, Some(|bytes|), 0, 0, []), Right(ws, base, len));
            r.Some? && Finish(r.value) == Some(bytes + Zeros(2 * len) + BytesOf(ws[base + len..]))
  {
    var right := ws[base + len..];
    if Embeds4(ws, base, len) {
      ReadsRightEmbedded(src, ws, len, bytes);
    } else {
      ReadsRightWords(bytes, right, len);
    }
  }

  lemma {:induction false} JoinStarts(ws: seq<Word>)
    requires ws != []
    ensures Join(ws) != [] && HexValue(Join(ws)[0]).Some?
    decreases |ws|
  {
    if |ws| > 1 {
      JoinStarts(ws[..|ws| - 1]);
    }
  }

  lemma {:induction false} ZeroBytes(ws: seq<Word>)
    requires forall k :: 0 <= k < |ws| ==> ws[k] == 0
    ensures BytesOf(ws) == Zeros(2 * |ws|)
  {
    if ws != [] {
      ZeroBytes(ws[..|ws| - 1]);
    }
  }

  lemma {:induction false} ThreeParts<T>(s: seq<T>, i: nat, j: nat)
    requires i <= j <= |s|
    ensures s == s[..i] + s[i..j] + s[j..]
  {
  }

  /** The middle words being zero. */
  lemma {:induction false} CutParts(left: seq<Word>, middle: seq<Word>, right: seq<Word>)
    requires forall k :: 0 <= k < |middle| ==> middle[k] == 0
    ensures BytesOf(left + middle + right) == BytesOf(left) + Zeros(2 * |middle|) + BytesOf(right)
  {
    ZeroBytes(middle);
    BytesAppend(left, middle);
    BytesAppend(left + middle, right);
  }

  lemma {:induction false} Cut(ws: seq<Word>, left: seq<Word>, middle: seq<Word>, right: seq<Word>, base: int, len: nat)
    requires ZeroRun(ws, base, len)
    requires left == ws[..base] && middle == ws[base..base + len] && right == ws[base + len..]
    ensures BytesOf(left) + Zeros(2 * len) + BytesOf(right) == BytesOf(ws)
  {
    ThreeParts(ws, base, base + len);
    CutParts(left, middle, right);
  }

  lemma {:induction false} ReadsPlain(ws: seq<Word>)
    requires 1 <= |ws| <= 8
    ensures Run6(Start6, Join(ws)) == Some(Pending([], None, ws))
  {
    ReadsJoin([], None, ws, []);
    EmptyPlus(Join(ws));
  }

  lemma {:induction false} FinishPlain(ws: seq<Word>)
    requires |ws| == 8
    ensures Finish(Pending([], None, ws)) == Some(BytesOf(ws))
  {
    FinishPending([], None, ws);
    EmptyPlus(BytesOf(ws));
  }

  lemma {:induction false} ParsesJoin(ws: seq<Word>)
    requires |ws| == 8
    ensures Parse6(Join(ws)) == Some(BytesOf(ws))
  {
    JoinStarts(ws);
    ReadsPlain(ws);
    FinishPlain(ws);
  }

  lemma {:induction false} ParsePrintPlain(src: seq<Byte>)
    requires |src| == 16
    ensures Parse6(Join(WordsOf(src))) == Some(src)
  {
    BytesWhole(src);
    ParsesJoin(WordsOf(src));
  }

  lemma {:induction false} ReadsTwoColons(bytes: seq<Byte>, right: string)
    ensures Run6(Scan6(bytes, None, 0, 0, []), [':'] + right) == Run6(Scan6(bytes, Some(|bytes|), 0, 0, []), right)
  {
    assert ([':'] + right)[1..] == right;
  }

  /** The two colons after some words, or at the start. */
  lemma {:induction false} ReadsLeft(left: seq<Word>, right: string)
    requires 2 * |left| < 16
    ensures var text := Join(left) + [':', ':'] + right;
            Parse6(text) == match Run6(Scan6(BytesOf(left), Some(2 * |left|), 0, 0, []), right)
                            case None => None
                            case Some(st) => Finish(st)
  {
    var text, more := Join(left) + [':', ':'] + right, [':'] + right;
    ReadsTwoColons(BytesOf(left), right);
    if left == [] {
      assert text[1..] == more && BytesOf(left) == [];
    } else {
      JoinStarts(left);
      assert text == Join(left) + ([':'] + more);
      ReadsJoin([], None, left, [':'] + more);
      ReadsWord([], None, left, more);
      assert [] + BytesOf(left) == BytesOf(left);
    }
  }

  /** Whichever run of zero words is written short, and if none is, the text of an address
      is read as that address. */
  lemma {:induction false} ParsePrintRun(src: seq<Byte>, base: int, len: nat)
    requires |src| == 16 && (base == -1 || (len >= 1 && ZeroRun(WordsOf(src), base, len)))
    ensures Parse6(Text6(WordsOf(src), base, len)) == Some(src)
  {
    var ws := WordsOf(src);
    if base == -1 {
      ParsePrintPlain(src);
    } else {
      BytesWhole(src);
      Cut(ws, ws[..base], ws[base..base + len], ws[base + len..], base, len);
      ReadsRight(src, ws, base, len, BytesOf(ws[..base]));
      ReadsLeft(ws[..base], Right(ws, base, len));
    }
  }

  /** Reading back what is printed gives the address, for every address. */
  lemma {:induction false} ParsePrint6(src: seq<Byte>, text: string)
    requires |src| == 16 && IsText6(src, text)
    ensures Parse6(text) == Some(src)
  {
    var base: int, len: nat :|
      IsBest(WordsOf(src), base, len) && (base == -1 || ZeroRun(WordsOf(src), base, len))
      && text == Text6(WordsOf(src), base, len);
    ParsePrintRun(src, base, len);
  }

  /** The length of the text, and that it has no percent sign. */
  lemma {:induction false} JoinPlain(ws: seq<Word>)
    ensures '%' !in Join(ws) && |Join(ws)| <= 5 * |ws| - (if ws == [] then 0 else 1)
    decreases |ws|
  {
    if |ws| > 1 {
      JoinPlain(ws[..|ws| - 1]);
    }
  }

  lemma {:induction false} DottedPlain(done: seq<Byte>)
    ensures '%' !in Dotted(done)
  {
    if done != [] {
      DottedPlain(done[..|done| - 1]);
    }
  }

  lemma {:induction false} Text4Plain(b: seq<Byte>)
    requires |b| == 4
    ensures '%' !in Text4(b) && |Text4(b)| <= 15
  {
    DottedPlain(b[..3]);
    DottedLength(b[..3]);
  }

  lemma {:induction false} RightPlain(ws: seq<Word>, base: int, len: nat)
    requires |ws| == 8 && 0 <= base && base + len <= 8
    ensures '%' !in Right(ws, base, len) && |Right(ws, base, len)| <= 5 * (8 - base - len) + 10
  {
    if Embeds4(ws, base, len) {
      Text4Plain(BytesOf(ws[6..]));
    } else {
      JoinPlain(ws[base + len..]);
    }
  }

  lemma {:induction false} TextPlain(ws: seq<Word>, base: int, len: nat)
    requires |ws| == 8 && (base == -1 || (0 <= base && base + len <= 8 && len >= 2))
    ensures '%' !in Text6(ws, base, len) && |Text6(ws, base, len)| < BUFFER
  {
    if base == -1 {
      JoinPlain(ws);
    } else {
      JoinPlain(ws[..base]);
      RightPlain(ws, base, len);
    }
  }

  lemma {:induction false} ZoneCut(s: string, zone: string)
    requires '%' !in s
    ensures WithoutZone(s + ['%'] + zone) == s
  {
    if s != [] {
      ZoneCut(s[1..], zone);
      assert (s + ['%'] + zone)[1..] == s[1..] + ['%'] + zone;
    }
  }

  /** The printed text of any address with any zone appended is read as the address, and
      fits the buffers on both sides. */
  lemma {:induction false} ZoneIgnored(src: seq<Byte>, text: string, zone: string)
    requires |src| == 16 && IsText6(src, text)
    ensures |text| < BUFFER && WithoutZone(text + ['%'] + zone) == text && Parse6(text) == Some(src)
  {
    var base: int, len: nat :|
      IsBest(WordsOf(src), base, len) && (base == -1 || ZeroRun(WordsOf(src), base, len))
      && text == Text6(WordsOf(src), base, len);
    TextPlain(WordsOf(src), base, len);
    ZoneCut(text, zone);
    ParsePrint6(src, text);
  }
}
