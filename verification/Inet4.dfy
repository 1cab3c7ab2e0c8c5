/** Dotted-decimal IPv4 addresses: printing, and two independent parsers. */
module Inet4 {
  import opened Common
  import Rfc5952

  predicate IsDigit(c: char) {
    '0' <= c <= '9'
  }

  function DigitValue(c: char): (d: nat)
    requires IsDigit(c)
    ensures d < 10
  {
    c as int - '0' as int
  }

  function Digit(d: int): char
    requires 0 <= d < 10
  {
    '0' + d as char
  }

  /** A number in decimal, without leading zeros. */
  function Dec(n: nat): (s: string)
    ensures s != [] && (forall i :: 0 <= i < |s| ==> IsDigit(s[i]))
    ensures n < 10 <==> |s| == 1
    ensures n < 100 ==> |s| <= 2
    ensures n < 1000 ==> |s| <= 3
  {
    if n < 10 then [Digit(n)] else Dec(n / 10) + [Digit(n % 10)]
  }

  /** Each octet followed by its dot. */
  function Dotted(done: seq<Byte>): string {
    if done == [] then [] else Dotted(done[..|done| - 1]) + Dec(done[|done| - 1]) + ['.']
  }

  /** The text of an address. */
  function Text4(b: seq<Byte>): string
    requires |b| == 4
  {
    Dotted(b[..3]) + Dec(b[3])
  }

  lemma DigitIs(d: int)
    requires 0 <= d < 10
    ensures Digit(d) == Rfc5952.DIGITS[d]
  {
  }

  lemma DecUpTo99(n: nat)
    requires 10 <= n < 100
    ensures Dec(n) == [Digit(n / 10), Digit(n % 10)]
  {
  }

  lemma DecHundreds(x: Byte)
    requires x >= 100
    ensures Dec(x) == [Rfc5952.DIGITS[x / 100], Rfc5952.DIGITS[x / 10 % 10], Rfc5952.DIGITS[x % 10]]
  {
    var n: nat := x / 10;
    DecUpTo99(n);
    DigitIs(n / 10);
    DigitIs(n % 10);
    DigitIs(x % 10);
    assert n / 10 == x / 100;
  }

  lemma DecIs(x: Byte)
    ensures Dec(x) == Rfc5952.Decimal(x)
  {
    if x >= 100 {
      DecHundreds(x);
    } else if x >= 10 {
      DecUpTo99(x);
      DigitIs(x / 10);
      DigitIs(x % 10);
    } else {
      DigitIs(x);
    }
  }

  lemma {:induction false} DottedSnoc(done: seq<Byte>, x: Byte)
    ensures Dotted(done + [x]) == Dotted(done) + Dec(x) + ['.']
  {
    assert (done + [x])[..|done|] == done;
  }

  lemma {:induction false} Regroup(a: string, b: string, c: string, d: string)
    ensures a + b + c + d == a + (b + c + d)
  {
  }

  lemma {:induction false} DottedCons(x: Byte, done: seq<Byte>)
    ensures Dotted([x] + done) == Dec(x) + ['.'] + Dotted(done)
  {
    if done == [] {
      DottedSnoc([], x);
      assert [] + [x] == [x] + done;
    } else {
      var init, b := done[..|done| - 1], done[|done| - 1];
      DottedCons(x, init);
      DottedSnoc([x] + init, b);
      assert [x] + init + [b] == [x] + done;
      Regroup(Dec(x) + ['.'], Dotted(init), Dec(b), ['.']);
    }
  }

  lemma {:induction false} DottedLength(done: seq<Byte>)
    ensures 2 * |done| <= |Dotted(done)| <= 4 * |done|
  {
    if done != [] {
      DottedLength(done[..|done| - 1]);
    }
  }

  lemma {:induction false} DottedThree(a: Byte, b: Byte, c: Byte)
    ensures Dotted([a, b, c]) == Dec(a) + ['.'] + Dec(b) + ['.'] + Dec(c) + ['.']
  {
    DottedSnoc([], a);
    DottedSnoc([a], b);
    DottedSnoc([a, b], c);
    assert [] + [a] == [a] && [a] + [b] == [a, b] && [a, b] + [c] == [a, b, c];
  }

  /** The text is the four numbers in decimal with dots between. */
  lemma {:induction false} TextIs(b: seq<Byte>)
    requires |b| == 4
    ensures Text4(b) == Rfc5952.Dotted(b[0], b[1], b[2], b[3])
  {
    assert b[..3] == [b[0], b[1], b[2]];
    DottedThree(b[0], b[1], b[2]);
    DecIs(b[0]);
    DecIs(b[1]);
    DecIs(b[2]);
    DecIs(b[3]);
  }

  // ----- the parser of inet.c

  /** The octets finished, the one being read, and whether it has a digit yet. */
  datatype Scan4 = Scan4(done: seq<Byte>, cur: Byte, saw: bool)

  const Start4 := Scan4([], 0, false)

  function Octets(st: Scan4): nat {
    |st.done| + if st.saw then 1 else 0
  }

  function Step4(st: Scan4, c: char): Option<Scan4> {
    if IsDigit(c) then
      var nw: int := st.cur * 10 + DigitValue(c);
      if (st.saw && st.cur == 0) || nw > 255 || (!st.saw && |st.done| == 4) then None
      else Some(Scan4(st.done, nw, true))
    else if c == '.' && st.saw then
      if Octets(st) == 4 then None else Some(Scan4(st.done + [st.cur], 0, false))
    else None
  }

  function Parse4From(st: Scan4, s: string): Option<seq<Byte>>
    decreases |s|
  {
    if s == [] then (if Octets(st) < 4 then None else Some(st.done + [st.cur]))
    else
      match Step4(st, s[0])
      case None => None
      case Some(next) => Parse4From(next, s[1..])
  }

  /** The address a text denotes. */
  function Parse4(s: string): Option<seq<Byte>> {
    Parse4From(Start4, s)
  }

  method InetPton4(src: string) returns (dst: Option<seq<Byte>>)
    ensures dst == Parse4(src)
  {
    var saw, octets := false, 0;
    var done: seq<Byte>, cur: Byte := [], 0;
    assert src[0..] == src;
    for i := 0 to |src|
      invariant octets == Octets(Scan4(done, cur, saw))
      invariant Parse4(src) == Parse4From(Scan4(done, cur, saw), src[i..])
    {
      assert src[i..][0] == src[i] && src[i..][1..] == src[i + 1..];
      var ch := src[i];
      if IsDigit(ch) {
        var nw: int := cur * 10 + DigitValue(ch);
        if saw && cur == 0 {
          return None;
        }
        if nw > 255 {
          return None;
        }
        cur := nw;
        if !saw {
          octets := octets + 1;
          if octets > 4 {
            return None;
          }
          saw := true;
        }
      } else if ch == '.' && saw {
        if octets == 4 {
          return None;
        }
        done, cur, saw := done + [cur], 0, false;
      } else {
        return None;
      }
    }
    assert src[|src|..] == [];
    if octets < 4 {
      return None;
    }
    dst := Some(done + [cur]);
  }

  // ----- printing and parsing are inverse

  /** A printed octet is read as that octet, whatever follows. */
  lemma {:induction false} ReadsOctet(done: seq<Byte>, x: Byte, rest: string)
    requires |done| < 4
    ensures Parse4From(Scan4(done, 0, false), Dec(x) + rest) == Parse4From(Scan4(done, x, true), rest)
    decreases x
  {
    var d: int := x % 10;
    if x < 10 {
      assert (Dec(x) + rest)[1..] == rest;
    } else {
      assert Dec(x) + rest == Dec(x / 10) + ([Digit(d)] + rest);
      ReadsOctet(done, x / 10, [Digit(d)] + rest);
      assert ([Digit(d)] + rest)[1..] == rest;
    }
  }

  lemma {:induction false} ReadsDotted(done: seq<Byte>, rest: string)
    requires |done| <= 3
    ensures Parse4From(Start4, Dotted(done) + rest) == Parse4From(Scan4(done, 0, false), rest)
  {
    if done != [] {
      var init, x := done[..|done| - 1], done[|done| - 1];
      assert Dotted(done) + rest == Dotted(init) + (Dec(x) + (['.'] + rest));
      ReadsDotted(init, Dec(x) + (['.'] + rest));
      ReadsOctet(init, x, ['.'] + rest);
      assert (['.'] + rest)[1..] == rest && init + [x] == done;
    } else {
      assert Dotted(done) + rest == rest;
    }
  }

  /** Parsing the printed text of an address gives the address. */
  lemma {:induction false} ParsePrint4(b: seq<Byte>)
    requires |b| == 4
    ensures Parse4(Text4(b)) == Some(b)
  {
    ReadsDotted(b[..3], Dec(b[3]) + []);
    ReadsOctet(b[..3], b[3], []);
    assert Dec(b[3]) + [] == Dec(b[3]) && b[..3] + [b[3]] == b;
  }

  /** The text read so far, recovered from the state. */
  function Consumed(st: Scan4): string {
    Dotted(st.done) + if st.saw then Dec(st.cur) else []
  }

  lemma DecDigit(n: nat, c: char)
    requires IsDigit(c)
    ensures Dec(n * 10 + DigitValue(c)) == if n == 0 then [c] else Dec(n) + [c]
  {
  }

  lemma {:induction false} StepConsumes(st: Scan4, c: char)
    requires Step4(st, c).Some? && (!st.saw ==> st.cur == 0)
    ensures var next := Step4(st, c).value; Consumed(next) == Consumed(st) + [c] && (!next.saw ==> next.cur == 0)
  {
    if IsDigit(c) {
      var t := if st.saw then Dec(st.cur) else [];
      DecDigit(st.cur, c);
      Associate(Dotted(st.done), t, [c]);
      assert t + [c] == if st.saw && st.cur > 0 then Dec(st.cur) + [c] else [c];
    } else {
      DottedSnoc(st.done, st.cur);
    }
  }

  lemma {:induction false} ParseConsumes(st: Scan4, s: string)
    requires Parse4From(st, s).Some? && |st.done| <= 3 && (!st.saw ==> st.cur == 0)
    ensures |Parse4From(st, s).value| == 4 && Consumed(st) + s == Text4(Parse4From(st, s).value)
    decreases |s|
  {
    if s == [] {
      assert Consumed(st) + s == Consumed(st);
      assert (st.done + [st.cur])[..3] == st.done;
    } else {
      StepConsumes(st, s[0]);
      ParseConsumes(Step4(st, s[0]).value, s[1..]);
      assert s == [s[0]] + s[1..];
    }
  }

  /** A text parses exactly when it is the printed text of an address, and then to that
      address. */
  lemma {:induction false} Parse4Iff(s: string, b: seq<Byte>)
    ensures Parse4(s) == Some(b) <==> |b| == 4 && s == Text4(b)
  {
    if Parse4(s).Some? {
      ParseConsumes(Start4, s);
    }
    if |b| == 4 {
      ParsePrint4(b);
    }
  }

  // ----- printing

  /** The digits of a number, the last one first. */
  method Print(n: nat) returns (s: string)
    ensures s == Dec(n)
  {
    s := [Digit(n % 10)];
    var rest: nat := n / 10;
    while rest > 0
      invariant Dec(n) == (if rest == 0 then [] else Dec(rest)) + s
    {
      Associate(if rest < 10 then [] else Dec(rest / 10), [Digit(rest % 10)], s);
      s, rest := [Digit(rest % 10)] + s, rest / 10;
    }
    assert [] + s == s;
  }

  lemma {:induction false} TextStep(src: seq<Byte>, i: nat)
    requires 0 < i < |src|
    ensures Dotted(src[..i]) == Dotted(src[..i - 1]) + Dec(src[i - 1]) + ['.']
  {
    assert src[..i][..i - 1] == src[..i - 1];
  }

  /** The text of an address, which reads back as it; fails when the text and its terminator
      do not fit. */
  method InetNtop4(src: seq<Byte>, size: nat) returns (dst: Option<string>)
    requires |src| == 4
    ensures dst == if |Text4(src)| < size then Some(Text4(src)) else None
    ensures dst.Some? ==> Parse4(dst.value) == Some(src)
  {
    var tmp := Print(src[0]);
    assert Dotted(src[..0]) == [] && [] + tmp == tmp;
    for i := 1 to 4
      invariant tmp == Dotted(src[..i - 1]) + Dec(src[i - 1])
    {
      var digits := Print(src[i]);
      TextStep(src, i);
      tmp := tmp + ['.'] + digits;
    }
    ParsePrint4(src);
    if |tmp| >= size {
      return None;
    }
    dst := Some(tmp);
  }
}

/** The check of ipaddress.hpp. */
module IpAddress {
  import opened Common
  import opened Inet4

  function Value(s: string): nat
    requires forall i :: 0 <= i < |s| ==> IsDigit(s[i])
  {
    if s == [] then 0 else Value(s[..|s| - 1]) * 10 + DigitValue(s[|s| - 1])
  }

  /** One part between dots: one to three digits, at most 255, written as the number is. */
  predicate PartOk(t: string) {
    1 <= |t| <= 3 && (forall i :: 0 <= i < |t| ==> IsDigit(t[i])) && Value(t) <= 255 && Dec(Value(t)) == t
  }

  function Dots(s: string): nat {
    if s == [] then 0 else Dots(s[1..]) + if s[0] == '.' then 1 else 0
  }

  /** The parts of `s`, the first continuing `t`, up to the last dot or the end. */
  predicate PartsOk(t: string, s: string)
    decreases |s|
  {
    if s == [] then true
    else if s[0] == '.' then PartOk(t) && PartsOk([], s[1..])
    else if |s| == 1 then PartOk(t + s)
    else PartsOk(t + [s[0]], s[1..])
  }

  predicate Check(s: string) {
    Dots(s) == 3 && PartsOk([], s) && s[|s| - 1] != '.'
  }

  /** The body of the loop for one part. */
  method CheckPart(temp: string) returns (ok: bool)
    ensures ok <==> PartOk(temp)
  {
    if |temp| == 0 || |temp| > 3 {
      return false;
    }
    for j := 0 to |temp|
      invariant forall k :: 0 <= k < j ==> IsDigit(temp[k])
    {
      if !IsDigit(temp[j]) {
        return false;
      }
    }
    var n := Value(temp);
    ok := n <= 255 && Dec(n) == temp;
  }

  method IsIPv4(ip: string) returns (ok: bool)
    ensures ok <==> Check(ip)
  {
    var dots := 0;
    assert ip[0..] == ip;
    for i := 0 to |ip|
      invariant dots + Dots(ip[i..]) == Dots(ip)
    {
      assert ip[i..][0] == ip[i] && ip[i..][1..] == ip[i + 1..];
      if ip[i] == '.' {
        dots := dots + 1;
      }
    }
    assert ip[|ip|..] == [];
    if dots != 3 {
      return false;
    }
    var temp := "";
    for i := 0 to |ip|
      invariant PartsOk([], ip) == PartsOk(temp, ip[i..])
    {
      assert ip[i..][0] == ip[i] && ip[i..][1..] == ip[i + 1..];
      ghost var t := temp;
      if ip[i] != '.' {
        temp := temp + [ip[i]];
      }
      if ip[i] == '.' || i == |ip| - 1 {
        assert i == |ip| - 1 ==> ip[i..] == [ip[i]];
        var part := CheckPart(temp);
        if !part {
          return false;
        }
        temp := "";
      }
    }
    ok := ip[|ip| - 1] != '.';
  }

  lemma {:induction false} ValueDec(n: nat)
    ensures Value(Dec(n)) == n
  {
    if n >= 10 {
      ValueDec(n / 10);
      assert Dec(n)[..|Dec(n)| - 1] == Dec(n / 10);
    }
  }

  lemma PartDec(x: Byte)
    ensures PartOk(Dec(x))
  {
    ValueDec(x);
  }

  // ----- the check and the parser accept the same texts

  /** Octets joined by dots. */
  function Joined(xs: seq<Byte>): string
    requires xs != []
  {
    Dotted(xs[..|xs| - 1]) + Dec(xs[|xs| - 1])
  }

  lemma {:induction false} DotsAppend(s: string, t: string)
    ensures Dots(s + t) == Dots(s) + Dots(t)
  {
    if s == [] {
      assert s + t == t;
    } else {
      DotsAppend(s[1..], t);
      assert (s + t)[1..] == s[1..] + t;
    }
  }

  lemma {:induction false} NoDots(s: string)
    requires forall i :: 0 <= i < |s| ==> IsDigit(s[i])
    ensures Dots(s) == 0
  {
    if s != [] { NoDots(s[1..]); }
  }

  lemma {:induction false} DotsDotted(done: seq<Byte>)
    ensures Dots(Dotted(done)) == |done|
  {
    if done != [] {
      var init, t := Dotted(done[..|done| - 1]), Dec(done[|done| - 1]);
      DotsDotted(done[..|done| - 1]);
      NoDots(t);
      DotsAppend(init + t, ['.']);
      DotsAppend(init, t);
    }
  }

  /** Digits are gathered into the part. */
  lemma {:induction false} PartsDigits(t: string, u: string, rest: string)
    requires rest != [] && forall i :: 0 <= i < |u| ==> IsDigit(u[i])
    ensures PartsOk(t, u + rest) == PartsOk(t + u, rest)
    decreases |u|
  {
    if u == [] {
      assert u + rest == rest && t + u == t;
    } else {
      assert (u + rest)[1..] == u[1..] + rest;
      PartsDigits(t + [u[0]], u[1..], rest);
      assert t + [u[0]] + u[1..] == t + u;
    }
  }

  lemma {:induction false} PartsDotted(done: seq<Byte>, rest: string)
    ensures PartsOk([], Dotted(done) + rest) == PartsOk([], rest)
  {
    if done == [] {
      assert Dotted(done) + rest == rest;
    } else {
      var init, x := done[..|done| - 1], done[|done| - 1];
      assert Dotted(done) + rest == Dotted(init) + (Dec(x) + (['.'] + rest));
      PartsDotted(init, Dec(x) + (['.'] + rest));
      PartsDigits([], Dec(x), ['.'] + rest);
      assert [] + Dec(x) == Dec(x) && (['.'] + rest)[1..] == rest;
      PartDec(x);
    }
  }

  /** A printed address passes the check. */
  lemma {:induction false} TextPasses(b: seq<Byte>)
    requires |b| == 4
    ensures Check(Text4(b))
  {
    var t := Dec(b[3]);
    var last := |t| - 1;
    DotsDotted(b[..3]);
    NoDots(t);
    DotsAppend(Dotted(b[..3]), t);
    PartsDotted(b[..3], t);
    assert t == t[..last] + t[last..];
    PartsDigits([], t[..last], t[last..]);
    assert [] + t[..last] + t[last..] == t;
    assert Text4(b)[|Text4(b)| - 1] == t[last];
    PartDec(b[3]);
  }

  lemma {:induction false} Split(t: string, s: string)
    requires s != []
    ensures t + s == t + [s[0]] + s[1..]
  {
  }

  lemma {:induction false} JoinedCons(x: Byte, xs: seq<Byte>)
    requires xs != []
    ensures Joined([x] + xs) == Dec(x) + ['.'] + Joined(xs)
  {
    var init, last := xs[..|xs| - 1], xs[|xs| - 1];
    var all := [x] + xs;
    assert all[..|all| - 1] == [x] + init && all[|all| - 1] == last;
    DottedCons(x, init);
    Associate(Dec(x) + ['.'], Dotted(init), Dec(last));
  }

  /** What passes the parts check is made of printed octets. */
  lemma {:induction false} PartsAreOctets(t: string, s: string) returns (xs: seq<Byte>)
    requires s != [] && s[|s| - 1] != '.' && PartsOk(t, s)
    ensures |xs| == Dots(s) + 1 && t + s == Joined(xs)
    decreases |s|
  {
    if s[0] == '.' {
      var x: Byte := Value(t);
      var rest := PartsAreOctets([], s[1..]);
      xs := [x] + rest;
      JoinedCons(x, rest);
      assert [] + s[1..] == s[1..];
      Split(t, s);
    } else if |s| == 1 {
      var x: Byte := Value(t + s);
      xs := [x];
    } else {
      xs := PartsAreOctets(t + [s[0]], s[1..]);
      Split(t, s);
    }
  }

  /** The two parsers accept one language: the printed texts of addresses. */
  lemma {:induction false} SameLanguage(s: string)
    ensures Check(s) <==> Parse4(s).Some?
    ensures Check(s) <==> exists b: seq<Byte> :: |b| == 4 && s == Text4(b)
  {
    if Check(s) {
      var b := PartsAreOctets([], s);
      assert [] + s == s && Joined(b) == Text4(b);
      Parse4Iff(s, b);
    }
    if exists b: seq<Byte> :: |b| == 4 && s == Text4(b) {
      var b: seq<Byte> :| |b| == 4 && s == Text4(b);
      TextPasses(b);
      Parse4Iff(s, b);
    }
    if Parse4(s).Some? {
      Parse4Iff(s, Parse4(s).value);
    }
  }
}
