/** Which texts the parser of IPv6 addresses accepts, and as what: just what RFC 4291 says. */
module Inet6Language {
  import opened Common
  import opened Inet4
  import opened Inet6
  import opened Inet6Parser
  import Rfc4291

  /** What reading on from between two fields gives. */
  function ReadOn(bytes: seq<Byte>, colon: Option<nat>, s: string): Option<seq<Byte>> {
    match Run6(Scan6(bytes, colon, 0, 0, []), s)
    case None => None
    case Some(st) => Finish(st)
  }

  lemma HexIs(c: char)
    ensures HexValue(c).Some? <==> Rfc4291.IsHex(c)
    ensures Rfc4291.IsHex(c) ==> HexValue(c) == Some(Rfc4291.HexValue(c))
  {
  }

  lemma {:induction false} ValueSnoc(digits: string, c: char)
    ensures Rfc4291.Value(digits + [c]) == 16 * Rfc4291.Value(digits) + Rfc4291.HexValue(c)
  {
    assert (digits + [c])[..|digits|] == digits;
  }

  lemma {:induction false} ValueNat(digits: string)
    requires forall i :: 0 <= i < |digits| ==> Rfc4291.IsHex(digits[i])
    ensures Rfc4291.Value(digits) >= 0
  {
    if digits != [] {
      ValueNat(digits[..|digits| - 1]);
    }
  }

  /** The state after the digits `t` of a field. */
  function Within(bytes: seq<Byte>, colon: Option<nat>, t: string): Scan6
    requires forall i :: 0 <= i < |t| ==> Rfc4291.IsHex(t[i])
  {
    ValueNat(t);
    Scan6(bytes, colon, |t|, Rfc4291.Value(t), t)
  }

  lemma {:induction false} ReadsDigit(bytes: seq<Byte>, colon: Option<nat>, t: string, s: string)
    requires forall i :: 0 <= i < |t| ==> Rfc4291.IsHex(t[i])
    requires s != [] && Rfc4291.IsHex(s[0])
    ensures Run6(Within(bytes, colon, t), s)
         == if |t| >= 4 then None else Run6(Within(bytes, colon, t + [s[0]]), s[1..])
  {
    HexIs(s[0]);
    ValueSnoc(t, s[0]);
  }

  lemma {:induction false} ReadsDigits(bytes: seq<Byte>, colon: Option<nat>, s: string, k: nat)
    requires k <= |s| && forall i :: 0 <= i < k ==> Rfc4291.IsHex(s[i])
    ensures k <= 4 ==> Run6(Scan6(bytes, colon, 0, 0, []), s) == Run6(Within(bytes, colon, s[..k]), s[k..])
    ensures k > 4 ==> Run6(Scan6(bytes, colon, 0, 0, []), s) == None
  {
    if k == 0 {
      assert s[..0] == [] && s[0..] == s;
    } else {
      ReadsDigits(bytes, colon, s, k - 1);
      if k <= 5 {
        ReadsDigit(bytes, colon, s[..k - 1], s[k - 1..]);
        assert s[k - 1..][1..] == s[k..] && s[..k - 1] + [s[k - 1]] == s[..k];
      }
    }
  }

  lemma {:induction false} FieldBytes(bytes: seq<Byte>, t: string)
    requires forall i :: 0 <= i < |t| ==> Rfc4291.IsHex(t[i])
    ensures Rfc4291.Value(t) >= 0 && PushWord(bytes, Rfc4291.Value(t)) == bytes + Rfc4291.Field(t)
  {
    ValueNat(t);
  }

  /** A text that is one field. */
  lemma {:induction false} ReadsLast(bytes: seq<Byte>, colon: Option<nat>, s: string)
    requires s != [] && Rfc4291.Lead(s) == |s|
    ensures ReadOn(bytes, colon, s)
         == if |s| > 4 || |bytes| + 2 > 16 then None else Spread(bytes + Rfc4291.Field(s), colon)
  {
    ReadsDigits(bytes, colon, s, |s|);
    if |s| <= 4 {
      assert s[..|s|] == s && s[|s|..] == [];
      FieldBytes(bytes, s);
    }
  }

  /** A field and a colon. */
  lemma {:induction false} ReadsField(bytes: seq<Byte>, colon: Option<nat>, s: string, k: nat)
    requires k == Rfc4291.Lead(s) && 1 <= k < |s| && s[k] == ':'
    ensures ReadOn(bytes, colon, s)
         == if k > 4 || k + 1 == |s| || |bytes| + 2 > 16 then None
            else ReadOn(bytes + Rfc4291.Field(s[..k]), colon, s[k + 1..])
  {
    ReadsDigits(bytes, colon, s, k);
    if k <= 4 {
      HexIs(':');
      FieldBytes(bytes, s[..k]);
      assert s[k..][1..] == s[k + 1..] && s[k..][0] == ':';
    }
  }

  lemma {:induction false} ReadsSecondColon(bytes: seq<Byte>, colon: Option<nat>, s: string)
    requires s != [] && s[0] == ':'
    ensures ReadOn(bytes, colon, s) == if colon.Some? then None else ReadOn(bytes, Some(|bytes|), s[1..])
  {
    HexIs(':');
  }

  /** Anything else that follows the digits makes it an IPv4 address, or malformed. */
  lemma {:induction false} ReadsOther(bytes: seq<Byte>, colon: Option<nat>, s: string, k: nat)
    requires k == Rfc4291.Lead(s) && k < |s| && s[k] != ':'
    ensures ReadOn(bytes, colon, s)
         == if k > 4 || s[k] != '.' || |bytes| + 4 > 16 || Parse4(s).None? then None
            else Spread(bytes + Parse4(s).value, colon)
  {
    ReadsDigits(bytes, colon, s, k);
    if k <= 4 {
      HexIs(s[k]);
      assert s[..k] + s[k..] == s && s[k..][0] == s[k];
    }
  }

  lemma {:induction false} LeadOf(t: string, rest: string)
    requires forall i :: 0 <= i < |t| ==> Rfc4291.IsHex(t[i])
    requires rest == [] || !Rfc4291.IsHex(rest[0])
    ensures Rfc4291.Lead(t + rest) == |t|
  {
    if t == [] {
      assert t + rest == rest;
    } else {
      LeadOf(t[1..], rest);
      assert (t + rest)[1..] == t[1..] + rest;
    }
  }

  /** An IPv4 address starts with one to three digits and a dot. */
  lemma {:induction false} QuadLead(b: seq<Byte>)
    requires |b| == 4
    ensures var k := Rfc4291.Lead(Text4(b)); 1 <= k <= 3 && k < |Text4(b)| && Text4(b)[k] == '.'
  {
    var first, rest := Dec(b[0]), ['.'] + (Dotted(b[1..3]) + Dec(b[3]));
    DottedCons(b[0], b[1..3]);
    assert [b[0]] + b[1..3] == b[..3];
    Associate(first + ['.'], Dotted(b[1..3]), Dec(b[3]));
    assert Text4(b) == first + rest;
    LeadOf(first, rest);
  }

  lemma {:induction false} QuadWords(s: string, b: seq<Byte>)
    requires var k := Rfc4291.Lead(s); k < |s| && s[k] != ':'
    ensures Rfc4291.Words(s, b) <==> Parse4(s) == Some(b)
    ensures Rfc4291.Words(s, b) ==> |b| == 4 && Rfc4291.Lead(s) <= 4 && s[Rfc4291.Lead(s)] == '.'
  {
    Parse4Iff(s, b);
    if |b| == 4 {
      TextIs(b);
      QuadLead(b);
    }
  }

  lemma {:induction false} MoreWords(s: string, k: nat, r: seq<Byte>)
    requires k == Rfc4291.Lead(s) && 1 <= k <= 4 && k + 1 < |s| && s[k] == ':'
    ensures Rfc4291.Words(s, Rfc4291.Field(s[..k]) + r) <==> Rfc4291.Words(s[k + 1..], r)
  {
    var f := Rfc4291.Field(s[..k]);
    assert (f + r)[..2] == f && (f + r)[2..] == r;
  }

  lemma {:induction false} FieldFirst(s: string, k: nat, r: seq<Byte>)
    requires k == Rfc4291.Lead(s) && k < |s| && s[k] == ':' && Rfc4291.Words(s, r)
    ensures 1 <= k <= 4 && k + 1 < |s| && |r| >= 2 && r == Rfc4291.Field(s[..k]) + r[2..] && Rfc4291.Words(s[k + 1..], r[2..])
  {
    assert r == r[..2] + r[2..];
  }

  /** The rest of a text, read from between two fields, has some bytes that end in `address`. */
  ghost predicate Ends(bytes: seq<Byte>, colon: Option<nat>, s: string, address: seq<Byte>) {
    exists r :: Rfc4291.Words(s, r) && Spread(bytes + r, colon) == Some(address)
  }

  lemma {:induction false} EndsLast(bytes: seq<Byte>, colon: Option<nat>, s: string, address: seq<Byte>)
    requires s != [] && Rfc4291.Lead(s) == |s|
    ensures Ends(bytes, colon, s, address) <==> |s| <= 4 && Spread(bytes + Rfc4291.Field(s), colon) == Some(address)
  {
    if |s| <= 4 && Spread(bytes + Rfc4291.Field(s), colon) == Some(address) {
      assert Rfc4291.Words(s, Rfc4291.Field(s));
    }
  }

  lemma {:induction false} EndsField(bytes: seq<Byte>, colon: Option<nat>, s: string, k: nat, address: seq<Byte>)
    requires k == Rfc4291.Lead(s) && 1 <= k <= 4 && k + 1 < |s| && s[k] == ':'
    ensures Ends(bytes, colon, s, address) <==> Ends(bytes + Rfc4291.Field(s[..k]), colon, s[k + 1..], address)
  {
    var f := Rfc4291.Field(s[..k]);
    if r :| Rfc4291.Words(s, r) && Spread(bytes + r, colon) == Some(address) {
      FieldFirst(s, k, r);
      Associate(bytes, f, r[2..]);
      assert Rfc4291.Words(s[k + 1..], r[2..]);
    }
    if r :| Rfc4291.Words(s[k + 1..], r) && Spread(bytes + f + r, colon) == Some(address) {
      MoreWords(s, k, r);
      Associate(bytes, f, r);
      assert Rfc4291.Words(s, f + r);
    }
  }

  lemma {:induction false} EndsOther(bytes: seq<Byte>, colon: Option<nat>, s: string, k: nat, address: seq<Byte>)
    requires k == Rfc4291.Lead(s) && k < |s| && s[k] != ':'
    ensures Ends(bytes, colon, s, address) <==> ReadOn(bytes, colon, s) == Some(address)
  {
    ReadsOther(bytes, colon, s, k);
    if r :| Rfc4291.Words(s, r) && Spread(bytes + r, colon) == Some(address) {
      QuadWords(s, r);
    }
    if ReadOn(bytes, colon, s) == Some(address) {
      var b := Parse4(s).value;
      Parse4Iff(s, b);
      QuadWords(s, b);
    }
  }

  /** Behind two colons just the remaining fields are read. */
  lemma {:induction false} ReadsEnd(bytes: seq<Byte>, c: nat, s: string, address: seq<Byte>)
    requires s != []
    ensures ReadOn(bytes, Some(c), s) == Some(address) <==> Ends(bytes, Some(c), s, address)
    decreases |s|
  {
    var k := Rfc4291.Lead(s);
    if k == |s| {
      ReadsLast(bytes, Some(c), s);
      EndsLast(bytes, Some(c), s, address);
    } else if s[k] != ':' {
      EndsOther(bytes, Some(c), s, k, address);
    } else if k == 0 {
      ReadsSecondColon(bytes, Some(c), s);
    } else {
      ReadsField(bytes, Some(c), s, k);
      if k <= 4 && k + 1 < |s| {
        EndsField(bytes, Some(c), s, k, address);
        ReadsEnd(bytes + Rfc4291.Field(s[..k]), c, s[k + 1..], address);
      }
    }
  }

  /** Behind two colons: the remaining fields, or none. */
  ghost predicate Behind(bytes: seq<Byte>, s: string, address: seq<Byte>) {
    exists r :: Rfc4291.Side(s, r) && Spread(bytes + r, Some(|bytes|)) == Some(address)
  }

  lemma {:induction false} ReadsBehind(bytes: seq<Byte>, s: string, address: seq<Byte>)
    ensures ReadOn(bytes, Some(|bytes|), s) == Some(address) <==> Behind(bytes, s, address)
  {
    if s == [] {
      EmptyPlus(bytes);
      assert Rfc4291.Side(s, []);
    } else {
      ReadsEnd(bytes, |bytes|, s, address);
      if r :| Rfc4291.Words(s, r) && Spread(bytes + r, Some(|bytes|)) == Some(address) {
        assert Rfc4291.Side(s, r);
      }
    }
  }

  /** Fields, two colons, and fields again. */
  ghost predicate Split(bytes: seq<Byte>, s: string, left: string, l: seq<Byte>, right: string, address: seq<Byte>) {
    && s == left + "::" + right && left != [] && Rfc4291.Words(left, l) && '.' !in left
    && Behind(bytes + l, right, address)
  }

  ghost predicate Splits(bytes: seq<Byte>, s: string, address: seq<Byte>) {
    exists left, l, right :: Split(bytes, s, left, l, right, address)
  }

  lemma {:induction false} LeadPrefix(s: string, t: string)
    requires |t| <= |s| && forall i :: 0 <= i < |t| ==> t[i] == s[i]
    ensures Rfc4291.Lead(s) < |t| ==> Rfc4291.Lead(t) == Rfc4291.Lead(s)
    ensures Rfc4291.Lead(s) >= |t| ==> Rfc4291.Lead(t) == |t|
  {
    var j, k := Rfc4291.Lead(t), Rfc4291.Lead(s);
    assert j < |t| ==> !Rfc4291.IsHex(s[j]);
    assert k < |t| ==> !Rfc4291.IsHex(t[k]);
  }

  /** The fields before the two colons begin like the text. */
  lemma {:induction false} LeftLead(s: string, left: string, right: string, k: nat)
    requires s == left + "::" + right && k == Rfc4291.Lead(s)
    ensures k < |s| && k <= |left| && Rfc4291.Lead(left) == k
    ensures if k < |left| then left[k] == s[k] else s[k] == ':'
    ensures k == |left| ==> k + 2 <= |s| && s[k + 1..] == [':'] + right
    ensures k < |left| ==> s[k + 1..] == left[k + 1..] + "::" + right
  {
    assert s[|left|] == ':' && s[|left| + 1] == ':';
    assert !Rfc4291.IsHex(s[|left|]);
    LeadPrefix(s, left);
  }

  /** Not after a single field, or what is not one. */
  lemma {:induction false} NoSplit(bytes: seq<Byte>, s: string, k: nat, address: seq<Byte>)
    requires k == Rfc4291.Lead(s) && (k == |s| || s[k] != ':' || k == 0 || k > 4 || k + 1 == |s|)
    ensures !Splits(bytes, s, address)
  {
    forall left, l, right
      ensures !Split(bytes, s, left, l, right, address)
    {
      if s == left + "::" + right && left != [] {
        LeftLead(s, left, right, k);
        if k < |left| && left[k] != ':' {
          QuadWords(left, l);
        }
      }
    }
  }

  lemma {:induction false} SameHead(s: string, left: string, right: string, k: nat)
    requires s == left + "::" + right && k < |left|
    ensures left[..k] == s[..k] && ('.' !in left ==> '.' !in left[k + 1..])
  {
  }

  lemma {:induction false} SplitLonger(bytes: seq<Byte>, s: string, k: nat, left: string, l: seq<Byte>, right: string,
                                       address: seq<Byte>)
    requires k == Rfc4291.Lead(s) && 1 <= k <= 4 && k + 1 < |s| && s[k] == ':' && Split(bytes, s, left, l, right, address)
    requires k < |left|
    ensures Splits(bytes + Rfc4291.Field(s[..k]), s[k + 1..], address)
  {
    var f := Rfc4291.Field(s[..k]);
    LeftLead(s, left, right, k);
    FieldFirst(left, k, l);
    SameHead(s, left, right, k);
    Associate(bytes, f, l[2..]);
    assert Split(bytes + f, s[k + 1..], left[k + 1..], l[2..], right, address);
  }

  lemma {:induction false} SplitHere(bytes: seq<Byte>, s: string, k: nat, left: string, l: seq<Byte>, right: string,
                                     address: seq<Byte>)
    requires k == Rfc4291.Lead(s) && Split(bytes, s, left, l, right, address) && k == |left|
    ensures k + 1 < |s| && s[k + 1] == ':' && Behind(bytes + Rfc4291.Field(s[..k]), s[k + 2..], address)
  {
    LeftLead(s, left, right, k);
    assert left == s[..k] && right == s[k + 2..];
  }

  lemma {:induction false} Glued(head: string, left: string, more: string)
    requires more == head + [':'] + left
    ensures more[..|head|] == head && more[|head|] == ':' && more[|head| + 1..] == left && more == head + ([':'] + left)
  {
  }

  lemma {:induction false} GluedText(s: string, k: nat, left: string, right: string, more: string)
    requires k < |s| && s[k] == ':' && s[k + 1..] == left + "::" + right && more == s[..k] + [':'] + left
    ensures s == more + "::" + right
  {
    assert s == s[..k] + [':'] + s[k + 1..];
  }

  lemma {:induction false} NoDot(head: string, left: string)
    requires (forall i :: 0 <= i < |head| ==> Rfc4291.IsHex(head[i])) && '.' !in left
    ensures '.' !in head + [':'] + left
  {
  }

  lemma {:induction false} LongerLeft(s: string, k: nat, left: string, right: string, more: string)
    requires k == Rfc4291.Lead(s) && k < |s| && s[k] == ':' && s[k + 1..] == left + "::" + right
    requires more == s[..k] + [':'] + left && '.' !in left
    ensures s == more + "::" + right && '.' !in more
    ensures Rfc4291.Lead(more) == k < |more| && more[k] == ':' && more[..k] == s[..k] && more[k + 1..] == left
  {
    Glued(s[..k], left, more);
    GluedText(s, k, left, right, more);
    NoDot(s[..k], left);
    LeadOf(s[..k], [':'] + left);
  }

  lemma {:induction false} SplitMore(bytes: seq<Byte>, s: string, k: nat, left: string, l: seq<Byte>, right: string,
                                     address: seq<Byte>)
    requires k == Rfc4291.Lead(s) && 1 <= k <= 4 && k + 1 < |s| && s[k] == ':'
    requires Split(bytes + Rfc4291.Field(s[..k]), s[k + 1..], left, l, right, address)
    ensures Splits(bytes, s, address)
  {
    var f, more := Rfc4291.Field(s[..k]), s[..k] + [':'] + left;
    LongerLeft(s, k, left, right, more);
    MoreWords(more, k, l);
    Associate(bytes, f, l);
    assert Split(bytes, s, more, f + l, right, address);
  }

  lemma {:induction false} HeadCut(s: string, k: nat)
    requires k + 1 < |s| && s[k] == ':' && s[k + 1] == ':'
    ensures s == s[..k] + "::" + s[k + 2..]
  {
  }

  lemma {:induction false} OneField(s: string, k: nat)
    requires k == Rfc4291.Lead(s) && 1 <= k <= 4
    ensures s[..k] != [] && '.' !in s[..k] && Rfc4291.Words(s[..k], Rfc4291.Field(s[..k]))
  {
    LeadPrefix(s, s[..k]);
  }

  lemma {:induction false} SplitFirst(bytes: seq<Byte>, s: string, k: nat, address: seq<Byte>)
    requires k == Rfc4291.Lead(s) && 1 <= k <= 4 && k + 1 < |s| && s[k] == ':' && s[k + 1] == ':'
    requires Behind(bytes + Rfc4291.Field(s[..k]), s[k + 2..], address)
    ensures Splits(bytes, s, address)
  {
    HeadCut(s, k);
    OneField(s, k);
    assert Split(bytes, s, s[..k], Rfc4291.Field(s[..k]), s[k + 2..], address);
  }

  lemma {:induction false} SplitsField(bytes: seq<Byte>, s: string, k: nat, rest: string, address: seq<Byte>)
    requires k == Rfc4291.Lead(s) && 1 <= k <= 4 && k + 1 < |s| && s[k] == ':' && rest == s[k + 1..]
    ensures var more := bytes + Rfc4291.Field(s[..k]);
            Splits(bytes, s, address) <==> Splits(more, rest, address) || (rest[0] == ':' && Behind(more, rest[1..], address))
  {
    var more := bytes + Rfc4291.Field(s[..k]);
    assert rest[1..] == s[k + 2..];
    if left, l, right :| Split(bytes, s, left, l, right, address) {
      LeftLead(s, left, right, k);
      if k < |left| {
        SplitLonger(bytes, s, k, left, l, right, address);
      } else {
        SplitHere(bytes, s, k, left, l, right, address);
      }
    }
    if left, l, right :| Split(more, rest, left, l, right, address) {
      SplitMore(bytes, s, k, left, l, right, address);
    }
    if rest[0] == ':' && Behind(more, rest[1..], address) {
      SplitFirst(bytes, s, k, address);
    }
  }

  /** Up to two colons: fields to the end, or fields, two colons and fields again, or the
      second of two colons. */
  lemma {:induction false} ReadsStart(bytes: seq<Byte>, s: string, address: seq<Byte>)
    requires s != []
    ensures ReadOn(bytes, None, s) == Some(address)
            <==> || Ends(bytes, None, s, address) || Splits(bytes, s, address)
                 || (s[0] == ':' && Behind(bytes, s[1..], address))
    decreases |s|
  {
    var k := Rfc4291.Lead(s);
    if k == |s| {
      ReadsLast(bytes, None, s);
      EndsLast(bytes, None, s, address);
      NoSplit(bytes, s, k, address);
    } else if s[k] != ':' {
      EndsOther(bytes, None, s, k, address);
      NoSplit(bytes, s, k, address);
    } else if k == 0 {
      ReadsSecondColon(bytes, None, s);
      ReadsBehind(bytes, s[1..], address);
      NoSplit(bytes, s, k, address);
    } else {
      ReadsField(bytes, None, s, k);
      if k > 4 || k + 1 == |s| {
        NoSplit(bytes, s, k, address);
      } else {
        EndsField(bytes, None, s, k, address);
        SplitsField(bytes, s, k, s[k + 1..], address);
        ReadsStart(bytes + Rfc4291.Field(s[..k]), s[k + 1..], address);
      }
    }
  }

  lemma {:induction false} SpreadIff(bytes: seq<Byte>, c: nat, address: seq<Byte>)
    requires c <= |bytes|
    ensures Spread(bytes, Some(c)) == Some(address)
            <==> |bytes| < 16 && address == bytes[..c] + seq(16 - |bytes|, _ => 0) + bytes[c..]
  {
    if |bytes| < 16 {
      assert Zeros(16 - |bytes|) == seq(16 - |bytes|, _ => 0);
    }
  }

  lemma {:induction false} SpreadSides(l: seq<Byte>, r: seq<Byte>, address: seq<Byte>)
    ensures Spread(l + r, Some(|l|)) == Some(address)
            <==> |l| + |r| < 16 && address == l + seq(16 - |l| - |r|, _ => 0) + r
  {
    SpreadIff(l + r, |l|, address);
    assert (l + r)[..|l|] == l && (l + r)[|l|..] == r;
    if |l| + |r| < 16 {
      assert seq(16 - |l + r|, _ => 0) == seq(16 - |l| - |r|, _ => 0);
    }
  }

  lemma {:induction false} BehindIff(left: string, l: seq<Byte>, right: string, address: seq<Byte>)
    requires Rfc4291.Side(left, l) && '.' !in left
    ensures Behind(l, right, address) <==> exists r :: Rfc4291.Shortened(left, l, right, r, address)
  {
    forall r
      ensures Spread(l + r, Some(|l|)) == Some(address) <==> |l| + |r| < 16 && address == l + seq(16 - |l| - |r|, _ => 0) + r
    {
      SpreadSides(l, r, address);
    }
    if r :| Rfc4291.Side(right, r) && Spread(l + r, Some(|l|)) == Some(address) {
      assert Rfc4291.Shortened(left, l, right, r, address);
    }
    if r :| Rfc4291.Shortened(left, l, right, r, address) {
      assert Rfc4291.Side(right, r);
    }
  }

  /** The text denotes the address by two colons somewhere. */
  ghost predicate Short(s: string, left: string, l: seq<Byte>, right: string, r: seq<Byte>, address: seq<Byte>) {
    s == left + "::" + right && Rfc4291.Shortened(left, l, right, r, address)
  }

  lemma {:induction false} ColonFirst(s: string, left: string, l: seq<Byte>, right: string, r: seq<Byte>, address: seq<Byte>)
    requires Short(s, left, l, right, r, address)
    ensures |s| >= 2 && (s[0] == ':' <==> left == []) && (left == [] ==> l == [] && s[1] == ':' && right == s[2..])
  {
    assert left != [] ==> (Rfc4291.Lead(left) == 0 <==> !Rfc4291.IsHex(left[0]));
  }

  lemma {:induction false} DenotedAtColon(s: string, address: seq<Byte>)
    requires |s| >= 2 && s[0] == ':' && s[1] == ':' && Behind([], s[2..], address)
    ensures Rfc4291.Denotes(s, address)
  {
    BehindIff([], [], s[2..], address);
    var r: seq<Byte> :| Rfc4291.Shortened([], [], s[2..], r, address);
    HeadCut(s, 0);
    assert s == [] + "::" + s[2..];
  }

  lemma {:induction false} DenotesAtColon(s: string, address: seq<Byte>)
    requires s != [] && s[0] == ':' && Rfc4291.Denotes(s, address)
    ensures |s| >= 2 && s[1] == ':' && Behind([], s[2..], address)
  {
    var left: string, l: seq<Byte>, right: string, r: seq<Byte> :|
      s == left + "::" + right && Rfc4291.Shortened(left, l, right, r, address);
    ColonFirst(s, left, l, right, r, address);
    BehindIff([], [], right, address);
  }

  lemma {:induction false} EndsWhole(s: string, address: seq<Byte>)
    ensures Ends([], None, s, address) <==> |address| == 16 && Rfc4291.Words(s, address)
  {
    forall r: seq<Byte>
      ensures [] + r == r
    {
    }
    if |address| == 16 && Rfc4291.Words(s, address) {
      assert Spread([] + address, None) == Some(address);
    }
  }

  lemma {:induction false} SplitsWhole(s: string, address: seq<Byte>)
    requires s != [] && s[0] != ':'
    ensures Splits([], s, address)
            <==> exists left: string, l: seq<Byte>, right: string, r: seq<Byte> ::
                   s == left + "::" + right && Rfc4291.Shortened(left, l, right, r, address)
  {
    if left: string, l: seq<Byte>, right: string :| Split([], s, left, l, right, address) {
      EmptyPlus(l);
      BehindIff(left, l, right, address);
      var r: seq<Byte> :| Rfc4291.Shortened(left, l, right, r, address);
    }
    if left: string, l: seq<Byte>, right: string, r: seq<Byte> :|
      s == left + "::" + right && Rfc4291.Shortened(left, l, right, r, address) {
      ColonFirst(s, left, l, right, r, address);
      EmptyPlus(l);
      BehindIff(left, l, right, address);
      assert Split([], s, left, l, right, address);
    }
  }

  /** A text is read, as an address, exactly when it denotes that address by RFC 4291. */
  lemma {:induction false} ParseIff(s: string, address: seq<Byte>)
    ensures Parse6(s) == Some(address) <==> Rfc4291.Denotes(s, address)
  {
    if s == [] {
    } else if s[0] == ':' {
      if |s| >= 2 && s[1] == ':' {
        ReadsSecondColon([], None, s[1..]);
        ReadsBehind([], s[2..], address);
        assert s[1..][1..] == s[2..];
        if Behind([], s[2..], address) {
          DenotedAtColon(s, address);
        }
      }
      if Rfc4291.Denotes(s, address) {
        DenotesAtColon(s, address);
      }
    } else {
      ReadsStart([], s, address);
      EndsWhole(s, address);
      SplitsWhole(s, address);
    }
  }
}
