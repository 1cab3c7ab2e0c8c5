/** Framing of H.264 and H.265 NAL units: the byte stream with start codes and the stream
    with lengths, and the bytes inserted against accidental start codes (sections 7.3.1.1
    and 7.4.2 of ITU-T H.265). */
module Nal {
  import opened Common

  type Bytes = seq<Byte>

  const MAX_LENGTH := 10000000

  // ----- start codes

  predicate LongAt(s: Bytes, p: nat) {
    p + 4 <= |s| && s[p] == 0 && s[p + 1] == 0 && s[p + 2] == 0 && s[p + 3] == 1
  }

  predicate ShortAt(s: Bytes, p: nat) {
    p + 3 <= |s| && s[p] == 0 && s[p + 1] == 0 && s[p + 2] == 1
  }

  /** The places of the start codes, found from `p` on. */
  function Starts(s: Bytes, p: nat): seq<nat>
    decreases |s| - p
  {
    if p >= |s| then []
    else if LongAt(s, p) then [p] + Starts(s, p + 4)
    else if ShortAt(s, p) then [p] + Starts(s, p + 3)
    else Starts(s, p + 1)
  }

  ghost predicate Increasing(at: seq<nat>, low: nat, high: nat) {
    && (forall i :: 0 <= i < |at| ==> low <= at[i] < high)
    && (forall i, j :: 0 <= i < j < |at| ==> at[i] < at[j])
  }

  /** The text cut before each of the given places, without what precedes the first. */
  function Pieces(s: Bytes, at: seq<nat>): seq<Bytes>
    requires Increasing(at, 0, |s|)
    decreases |at|
  {
    if at == [] then []
    else
      var end := if |at| == 1 then |s| else at[1];
      [s[at[0]..end]] + Pieces(s, at[1..])
  }

  lemma {:induction false} StartsIncrease(s: Bytes, p: nat)
    ensures Increasing(Starts(s, p), p, |s|)
    decreases |s| - p
  {
    if p < |s| {
      if LongAt(s, p) {
        StartsIncrease(s, p + 4);
      } else if ShortAt(s, p) {
        StartsIncrease(s, p + 3);
      } else {
        StartsIncrease(s, p + 1);
      }
    }
  }

  /** The NAL units of a byte stream, each with its start code. */
  function SplitAnnexB(s: Bytes): seq<Bytes> {
    StartsIncrease(s, 0);
    Pieces(s, Starts(s, 0))
  }

  method FindStarts(data: Bytes) returns (at: seq<nat>)
    ensures at == Starts(data, 0)
  {
    at := [];
    var p := 0;
    assert [] + Starts(data, 0) == Starts(data, 0);
    while p < |data|
      invariant Starts(data, 0) == at + Starts(data, p)
      decreases |data| - p
    {
      if LongAt(data, p) {
        at, p := at + [p], p + 4;
      } else if ShortAt(data, p) {
        at, p := at + [p], p + 3;
      } else {
        p := p + 1;
      }
    }
    assert at + [] == at;
  }

  method AnnexB2Nalus(data: Bytes) returns (ok: bool, nalus: seq<Bytes>)
    ensures ok <==> |data| >= 4
    ensures nalus == if ok then SplitAnnexB(data) else []
  {
    nalus := [];
    if |data| < 4 {
      return false, nalus;
    }
    StartsIncrease(data, 0);
    var at := FindStarts(data);
    for i := 0 to |at|
      invariant Increasing(at[i..], 0, |data|)
      invariant SplitAnnexB(data) == nalus + Pieces(data, at[i..])
    {
      assert at[i..][0] == at[i] && at[i..][1..] == at[i + 1..];
      var end := if i + 1 < |at| then at[i + 1] else |data|;
      nalus := nalus + [data[at[i]..end]];
    }
    ok := true;
  }

  function Concat(parts: seq<Bytes>): Bytes {
    if parts == [] then [] else parts[0] + Concat(parts[1..])
  }

  lemma {:induction false} PiecesConcat(s: Bytes, at: seq<nat>)
    requires Increasing(at, 0, |s|)
    ensures Concat(Pieces(s, at)) == if at == [] then [] else s[at[0]..]
    decreases |at|
  {
    if |at| > 0 {
      PiecesConcat(s, at[1..]);
    }
  }

  /** The stream from its first start code on. */
  function FromFirst(s: Bytes): Bytes {
    StartsIncrease(s, 0);
    if Starts(s, 0) == [] then [] else s[Starts(s, 0)[0]..]
  }

  /** Nothing is lost: the units add up to the stream from its first start code on. */
  lemma {:induction false} SplitConcat(s: Bytes)
    ensures Concat(SplitAnnexB(s)) == FromFirst(s)
  {
    StartsIncrease(s, 0);
    PiecesConcat(s, Starts(s, 0));
  }

  // ----- lengths

  function Write4Bytes(n: nat): Bytes {
    [n / 16777216 % 256, n / 65536 % 256, n / 256 % 256, n % 256]
  }

  function Read4Bytes(s: Bytes): nat
    requires |s| >= 4
  {
    s[0] as int * 16777216 + s[1] as int * 65536 + s[2] as int * 256 + s[3] as int
  }

  const StartCode: Bytes := [0, 0, 0, 1]

  /** `Overrun`: a length or a unit reaches past the end of the data, where the source
      reads on. */
  datatype Unframed = Units(nalus: seq<Bytes>) | Refused | Overrun

  function Unframe(s: Bytes): Unframed
    decreases |s|
  {
    if s == [] then Units([])
    else if |s| < 4 then Overrun
    else
      var n := Read4Bytes(s);
      if n > MAX_LENGTH then Refused
      else if |s| < 4 + n then Overrun
      else
        match Unframe(s[4 + n..])
        case Units(rest) => Units([StartCode + s[4..4 + n]] + rest)
        case Refused => Refused
        case Overrun => Overrun
  }

  function Frame(nals: seq<Bytes>): Bytes {
    if nals == [] then [] else Write4Bytes(|nals[0]|) + nals[0] + Frame(nals[1..])
  }

  function Prefixed(done: seq<Bytes>, more: Unframed): Unframed {
    match more
    case Units(rest) => Units(done + rest)
    case Refused => Refused
    case Overrun => Overrun
  }

  lemma {:induction false} PrefixedOne(done: seq<Bytes>, one: Bytes, more: Unframed)
    ensures Prefixed(done, Prefixed([one], more)) == Prefixed(done + [one], more)
  {
    if more.Units? {
      assert done + ([one] + more.nalus) == done + [one] + more.nalus;
    }
  }

  method Avcc2Nalus(data: Bytes) returns (r: Unframed)
    ensures r == if |data| < 4 then Refused else Unframe(data)
  {
    if |data| < 4 {
      return Refused;
    }
    var p, nalus := data, [];
    while p != []
      invariant Unframe(data) == Prefixed(nalus, Unframe(p))
      decreases |p|
    {
      if |p| < 4 {
        return Overrun;
      }
      var n := Read4Bytes(p);
      if n > MAX_LENGTH {
        return Refused;
      }
      if |p| < 4 + n {
        return Overrun;
      }
      PrefixedOne(nalus, StartCode + p[4..4 + n], Unframe(p[4 + n..]));
      nalus, p := nalus + [StartCode + p[4..4 + n]], p[4 + n..];
    }
    r := Units(nalus);
  }

  function WithStartCodes(nals: seq<Bytes>): seq<Bytes> {
    if nals == [] then [] else [[0, 0, 0, 1] + nals[0]] + WithStartCodes(nals[1..])
  }

  lemma {:induction false} ReadWrite4(n: nat, rest: Bytes)
    requires n < 0x1_0000_0000
    ensures Read4Bytes(Write4Bytes(n) + rest) == n
  {
    assert n == n / 16777216 * 16777216 + n / 65536 % 256 * 65536 + n / 256 % 256 * 256 + n % 256 by {
      assert n / 256 / 256 == n / 65536 && n / 65536 / 256 == n / 16777216;
    }
  }

  /** Reading a framed list gives its units, with start codes, in order. */
  lemma {:induction false} UnframeFrame(nals: seq<Bytes>)
    requires forall i :: 0 <= i < |nals| ==> |nals[i]| <= 10000000
    ensures Unframe(Frame(nals)) == Units(WithStartCodes(nals))
    decreases |nals|
  {
    if nals != [] {
      var n, rest := |nals[0]|, Frame(nals[1..]);
      var s := Frame(nals);
      assert s == Write4Bytes(n) + (nals[0] + rest);
      ReadWrite4(n, nals[0] + rest);
      assert s[4..4 + n] == nals[0] && s[4 + n..] == rest;
      UnframeFrame(nals[1..]);
    }
  }

  /** A unit announced, highest byte first, as longer than ten million bytes is refused, and
      one that is cut off is read past the end. */
  lemma {:induction false} RefusedOrOverrun(s: Bytes)
    requires |s| >= 4
    ensures var n := 0x1000000 * s[0] as int + 0x10000 * s[1] as int + 0x100 * s[2] as int + s[3] as int;
            && (n > 10000000 ==> Unframe(s) == Refused)
            && (n <= 10000000 && |s| < 4 + n ==> Unframe(s) == Overrun)
            && (Unframe(s).Units? ==> |Unframe(s).nalus| > 0 && Unframe(s).nalus[0] == [0, 0, 0, 1] + s[4..4 + n])
  {
  }

  // ----- splitting what was joined

  /** The pattern lies at `p` in the bytes. */
  predicate Occurs(s: Bytes, p: nat, pattern: Bytes) {
    p + |pattern| <= |s| && s[p..p + |pattern|] == pattern
  }

  lemma {:induction false} OccursThree(s: Bytes, p: nat, a: Byte, b: Byte, c: Byte)
    ensures Occurs(s, p, [a, b, c]) <==> p + 3 <= |s| && s[p] == a && s[p + 1] == b && s[p + 2] == c
  {
    if p + 3 <= |s| {
      assert s[p..p + 3] == [s[p], s[p + 1], s[p + 2]];
    }
  }

  /** No start code anywhere. */
  ghost predicate Clean(s: Bytes) {
    forall p :: 0 <= p ==> !Occurs(s, p, [0, 0, 1])
  }

  lemma {:induction false} CleanIs(s: Bytes)
    ensures Clean(s) <==> forall p :: 0 <= p ==> !ShortAt(s, p)
  {
    forall p | 0 <= p
      ensures ShortAt(s, p) <==> Occurs(s, p, [0, 0, 1])
    {
      OccursThree(s, p, 0, 0, 1);
    }
  }

  lemma {:induction false} NoneAcross(s: Bytes, p: nat, end: nat)
    requires p < end <= |s| && (end == |s| || LongAt(s, end))
    requires forall q :: p <= q && q + 3 <= end ==> !ShortAt(s, q)
    ensures !ShortAt(s, p) && !LongAt(s, p)
  {
    if p + 4 <= end {
      assert !ShortAt(s, p) && !ShortAt(s, p + 1);
    } else if end < |s| {
      assert p + 3 == end || p + 3 == end + 1 || p + 3 == end + 2;
    }
  }

  /** From inside a clean unit on, nothing is found before the next start code. */
  lemma {:induction false} NoStartInside(s: Bytes, p: nat, end: nat)
    requires p <= end <= |s| && (end == |s| || LongAt(s, end))
    requires forall q :: p <= q && q + 3 <= end ==> !ShortAt(s, q)
    ensures Starts(s, p) == Starts(s, end)
    decreases end - p
  {
    if p < end {
      NoneAcross(s, p, end);
      NoStartInside(s, p + 1, end);
    }
  }

  /** Where the start codes of joined units lie. */
  function Marks(nals: seq<Bytes>, at: nat): seq<nat> {
    if nals == [] then [] else [at] + Marks(nals[1..], at + 4 + |nals[0]|)
  }

  lemma {:induction false} CleanInside(s: Bytes, at: nat, end: nat)
    requires at <= end <= |s| && Clean(s[at..end])
    ensures forall q :: at <= q && q + 3 <= end ==> !ShortAt(s, q)
  {
    CleanIs(s[at..end]);
    forall q | at <= q && q + 3 <= end
      ensures !ShortAt(s, q)
    {
      assert !ShortAt(s[at..end], q - at);
    }
  }

  lemma {:induction false} JoinsStart(nals: seq<Bytes>)
    ensures if nals == [] then Concat(WithStartCodes(nals)) == []
            else |Concat(WithStartCodes(nals))| >= 4 && LongAt(Concat(WithStartCodes(nals)), 0)
  {
  }

  lemma {:induction false} FourParts(a: Bytes, b: Bytes, c: Bytes, d: Bytes)
    ensures a + ((b + c) + d) == a + b + c + d
    ensures var s := a + b + c + d;
            && s[|a|..|a| + |b|] == b && s[|a| + |b|..|a| + |b| + |c|] == c
            && s[|a|..|a| + |b| + |c|] == b + c && s[|a| + |b| + |c|..] == d
  {
  }

  lemma {:induction false} LongShifted(pre: Bytes, s: Bytes)
    requires LongAt(s, 0)
    ensures LongAt(pre + s, |pre|)
  {
  }

  /** The unit `u` with its start code lies at `p`, and a start code or nothing follows. */
  ghost predicate UnitAt(s: Bytes, p: nat, u: Bytes) {
    var end := p + 4 + |u|;
    end <= |s| && LongAt(s, p) && s[p + 4..end] == u && (end == |s| || LongAt(s, end))
  }

  /** The first of the joined units, and what follows it. */
  lemma {:induction false} JoinedStep(pre: Bytes, nals: seq<Bytes>)
    requires nals != []
    ensures var s, end := pre + Concat(WithStartCodes(nals)), |pre| + 4 + |nals[0]|;
            && s == pre + StartCode + nals[0] + Concat(WithStartCodes(nals[1..]))
            && end <= |s| && s[|pre| + 4..end] == nals[0] && s[|pre|..end] == StartCode + nals[0]
  {
    var more := Concat(WithStartCodes(nals[1..]));
    assert WithStartCodes(nals)[1..] == WithStartCodes(nals[1..]);
    FourParts(pre, StartCode, nals[0], more);
  }

  lemma {:induction false} JoinedUnit(pre: Bytes, nals: seq<Bytes>)
    requires nals != []
    ensures UnitAt(pre + Concat(WithStartCodes(nals)), |pre|, nals[0])
  {
    JoinsStart(nals);
    LongShifted(pre, Concat(WithStartCodes(nals)));
    JoinedStep(pre, nals);
    JoinsStart(nals[1..]);
    if nals[1..] != [] {
      LongShifted(pre + StartCode + nals[0], Concat(WithStartCodes(nals[1..])));
    }
  }

  lemma {:induction false} StartsUnit(s: Bytes, p: nat, u: Bytes)
    requires UnitAt(s, p, u) && Clean(u)
    ensures Starts(s, p) == [p] + Starts(s, p + 4 + |u|)
  {
    var end := p + 4 + |u|;
    assert Clean(s[p + 4..end]);
    CleanInside(s, p + 4, end);
    NoStartInside(s, p + 4, end);
  }

  /** The same text, divided behind the first unit. */
  lemma {:induction false} JoinedTail(pre: Bytes, nals: seq<Bytes>) returns (pre': Bytes)
    requires nals != []
    ensures |pre'| == |pre| + 4 + |nals[0]|
    ensures pre + Concat(WithStartCodes(nals)) == pre' + Concat(WithStartCodes(nals[1..]))
  {
    JoinedStep(pre, nals);
    pre' := pre + StartCode + nals[0];
  }

  lemma {:induction false} StartsJoined(pre: Bytes, nals: seq<Bytes>)
    requires forall i :: 0 <= i < |nals| ==> Clean(nals[i])
    ensures Starts(pre + Concat(WithStartCodes(nals)), |pre|) == Marks(nals, |pre|)
    decreases |nals|
  {
    if nals == [] {
      assert pre + Concat(WithStartCodes(nals)) == pre;
    } else {
      JoinedUnit(pre, nals);
      StartsUnit(pre + Concat(WithStartCodes(nals)), |pre|, nals[0]);
      var pre' := JoinedTail(pre, nals);
      StartsJoined(pre', nals[1..]);
    }
  }

  lemma {:induction false} PiecesJoined(pre: Bytes, nals: seq<Bytes>)
    requires var s := pre + Concat(WithStartCodes(nals)); Increasing(Marks(nals, |pre|), 0, |s|)
    ensures Pieces(pre + Concat(WithStartCodes(nals)), Marks(nals, |pre|)) == WithStartCodes(nals)
    decreases |nals|
  {
    if nals != [] {
      var at, pre' := Marks(nals, |pre|), pre + StartCode + nals[0];
      JoinedStep(pre, nals);
      assert |pre'| == |pre| + 4 + |nals[0]|;
      assert at[1..] == Marks(nals[1..], |pre'|) && forall i :: 0 < i < |at| ==> at[1..][i - 1] == at[i];
      PiecesJoined(pre', nals[1..]);
    }
  }

  /** Every start code in the text is found, a short one perhaps as part of a long one. */
  lemma {:induction false} StartsComplete(s: Bytes, p: nat, q: nat) returns (i: nat)
    requires p <= q && ShortAt(s, q)
    ensures i < |Starts(s, p)| && (Starts(s, p)[i] == q || Starts(s, p)[i] == q - 1)
    decreases |s| - p
  {
    if LongAt(s, p) {
      assert s[p + 2] == 0 && s[p + 3] == 1 && q != p && q != p + 2 && q != p + 3;
      if q == p + 1 {
        i := 0;
      } else {
        var j := StartsComplete(s, p + 4, q);
        i := j + 1;
      }
    } else if ShortAt(s, p) {
      assert s[p + 2] == 1 && q != p + 1 && q != p + 2;
      if q == p {
        i := 0;
      } else {
        var j := StartsComplete(s, p + 3, q);
        i := j + 1;
      }
    } else {
      i := StartsComplete(s, p + 1, q);
    }
  }

  lemma {:induction false} PieceAt(s: Bytes, at: seq<nat>, i: nat)
    requires Increasing(at, 0, |s|) && i < |at|
    ensures |Pieces(s, at)| == |at|
    ensures Pieces(s, at)[i] == s[at[i]..if i + 1 < |at| then at[i + 1] else |s|]
    decreases |at|
  {
    if i > 0 {
      PieceAt(s, at[1..], i - 1);
    } else if |at| > 1 {
      PieceAt(s, at[1..], 0);
    }
  }

  lemma {:induction false} ShiftedStart(s: Bytes, begin: nat, end: nat, nal: Bytes, q: nat)
    requires begin <= end <= |s| && s[begin..end] == StartCode + nal && ShortAt(nal, q)
    ensures ShortAt(s, begin + 4 + q) && begin + 4 + q < end
  {
    assert forall k :: 0 <= k < end - begin ==> s[begin + k] == (StartCode + nal)[k];
  }

  lemma {:induction false} NoneBetween(at: seq<nat>, i: nat, j: nat, high: nat)
    requires Increasing(at, 0, high) && i < |at| && j < |at|
    ensures at[j] <= at[i] || (i + 1 < |at| && at[j] >= at[i + 1])
  {
  }

  /** What follows a long start code in a unit of a split stream has no start code. */
  lemma {:induction false} PieceClean(s: Bytes, i: nat, nal: Bytes)
    requires i < |SplitAnnexB(s)| && SplitAnnexB(s)[i] == StartCode + nal
    ensures Clean(nal)
  {
    var at := Starts(s, 0);
    StartsIncrease(s, 0);
    if i < |at| {
      PieceAt(s, at, i);
    } else if at != [] {
      PieceAt(s, at, 0);
    }
    var begin := at[i];
    var end := if i + 1 < |at| then at[i + 1] else |s|;
    CleanIs(nal);
    forall q | 0 <= q
      ensures !ShortAt(nal, q)
    {
      if ShortAt(nal, q) {
        ShiftedStart(s, begin, end, nal, q);
        var j := StartsComplete(s, 0, begin + 4 + q);
        NoneBetween(at, i, j, |s|);
      }
    }
  }

  lemma {:induction false} StartCodesAt(nals: seq<Bytes>, i: nat)
    requires i < |nals|
    ensures |WithStartCodes(nals)| == |nals| && WithStartCodes(nals)[i] == StartCode + nals[i]
  {
    if i > 0 {
      StartCodesAt(nals[1..], i - 1);
    } else if |nals| > 1 {
      StartCodesAt(nals[1..], 0);
    }
  }

  /** Splitting joined units gives them back exactly when no unit contains a start code. */
  lemma {:induction false} SplitJoinedIff(nals: seq<Bytes>)
    ensures SplitAnnexB(Concat(WithStartCodes(nals))) == WithStartCodes(nals)
            <==> forall i :: 0 <= i < |nals| ==> Clean(nals[i])
  {
    var s := Concat(WithStartCodes(nals));
    if forall i :: 0 <= i < |nals| ==> Clean(nals[i]) {
      assert [] + s == s;
      StartsJoined([], nals);
      StartsIncrease(s, 0);
      PiecesJoined([], nals);
    }
    if SplitAnnexB(s) == WithStartCodes(nals) {
      forall i | 0 <= i < |nals|
        ensures Clean(nals[i])
      {
        StartCodesAt(nals, i);
        PieceClean(s, i, nals[i]);
      }
    }
  }

  /** From lengths to start codes and back to the list, for clean units of legal length. */
  lemma {:induction false} FramesRoundTrip(nals: seq<Bytes>)
    requires forall i :: 0 <= i < |nals| ==> |nals[i]| <= 10000000 && Clean(nals[i])
    ensures Unframe(Frame(nals)).Units?
    ensures SplitAnnexB(Concat(Unframe(Frame(nals)).nalus)) == WithStartCodes(nals)
  {
    UnframeFrame(nals);
    SplitJoinedIff(nals);
  }

  // ----- emulation prevention

  /** Inserts 3 after two zeros when the next byte is at most 3; `z` zeros came before. */
  function Protect(z: nat, s: Bytes): Bytes
    requires z <= 2
    decreases |s|
  {
    if s == [] then []
    else if z == 2 && s[0] <= 3 then [3, s[0]] + Protect(if s[0] == 0 then 1 else 0, s[1..])
    else [s[0]] + Protect(if s[0] == 0 then z + 1 else 0, s[1..])
  }

  /** Drops a 3 after two zeros. */
  function Unprotect(s: Bytes): Bytes
    decreases |s|
  {
    if s == [] then []
    else if |s| >= 3 && s[0] == 0 && s[1] == 0 && s[2] == 3 then [0, 0] + Unprotect(s[3..])
    else [s[0]] + Unprotect(s[1..])
  }

  lemma {:induction false} UnprotectAt(s: Bytes, i: nat)
    requires i < |s|
    ensures Unprotect(s[i..]) == if i + 2 < |s| && s[i] == 0 && s[i + 1] == 0 && s[i + 2] == 3 then [0, 0] + Unprotect(s[i + 3..])
                                 else [s[i]] + Unprotect(s[i + 1..])
  {
    var t := s[i..];
    assert t[1..] == s[i + 1..] && (|t| >= 3 ==> t[3..] == s[i + 3..]);
  }

  method RemoveEmulationPreventionBytes(input: Bytes, output: array<Byte>) returns (size: nat)
    requires output.Length >= |input|
    modifies output
    ensures size <= |input| && output[..size] == Unprotect(input)
  {
    size := 0;
    var i := 0;
    ghost var done: Bytes := [];
    assert input[0..] == input;
    while i < |input|
      invariant size == |done| <= i <= |input| && output[..size] == done
      invariant Unprotect(input) == done + Unprotect(input[i..])
      decreases |input| - i
    {
      UnprotectAt(input, i);
      if i + 2 < |input| && input[i] == 0 && input[i + 1] == 0 && input[i + 2] == 3 {
        output[size], output[size + 1] := input[i], input[i + 1];
        Associate(done, [0, 0], Unprotect(input[i + 3..]));
        size, i, done := size + 2, i + 3, done + [0, 0];
      } else {
        output[size] := input[i];
        Associate(done, [input[i]], Unprotect(input[i + 1..]));
        done := done + [input[i]];
        size, i := size + 1, i + 1;
      }
    }
  }

  lemma {:induction false} ProtectLonger(z: nat, s: Bytes)
    requires z <= 2
    ensures |Protect(z, s)| >= |s|
    decreases |s|
  {
    if s != [] {
      ProtectLonger(if s[0] != 0 then 0 else if z == 2 then 1 else z + 1, s[1..]);
    }
  }

  lemma {:induction false} ProtectAfterOne(s: Bytes)
    requires s == [] || s[0] != 0
    ensures Protect(1, s) == Protect(0, s)
  {
  }

  lemma {:induction false} ProtectAfterTwo(s: Bytes)
    ensures Protect(2, s) == (if s != [] && s[0] <= 3 then [3] else []) + Protect(0, s)
  {
  }

  lemma {:induction false} CopiesFirst(b: Byte, t: Bytes)
    requires !(b == 0 && |t| >= 2 && t[0] == 0 && t[1] == 3)
    ensures Unprotect([b] + t) == [b] + Unprotect(t)
  {
    assert ([b] + t)[1..] == t;
  }

  lemma {:induction false} ProtectTwoZeros(rest: Bytes)
    ensures Protect(0, [0, 0] + rest) == [0, 0] + Protect(2, rest)
  {
    assert ([0, 0] + rest)[1..] == [0] + rest && ([0] + rest)[1..] == rest;
  }

  lemma {:induction false} DropsThree(t: Bytes)
    ensures Unprotect([0, 0] + ([3] + t)) == [0, 0] + Unprotect(t)
  {
    assert ([0, 0] + ([3] + t))[3..] == t;
  }

  lemma {:induction false} KeepsTwo(t: Bytes)
    requires t == [] || t[0] > 3
    ensures Unprotect([0, 0] + t) == [0, 0] + Unprotect(t)
  {
    assert [0, 0] + t == [0] + ([0] + t);
    CopiesFirst(0, [0] + t);
    CopiesFirst(0, t);
    assert [0, 0] + Unprotect(t) == [0] + ([0] + Unprotect(t));
  }

  lemma {:induction false} TwoZeros(rest: Bytes)
    ensures Unprotect([0, 0] + Protect(2, rest)) == [0, 0] + Unprotect(Protect(0, rest))
  {
    var t := Protect(0, rest);
    ProtectAfterTwo(rest);
    if rest != [] && rest[0] <= 3 {
      DropsThree(t);
    } else {
      assert [] + t == t;
      KeepsTwo(t);
    }
  }

  lemma {:induction false} UnprotectFrom(s: Bytes, i: nat)
    requires i <= |s| && forall p :: 0 <= p < i ==> !Occurs(s, p, [0, 0, 3])
    ensures Unprotect(s) == s[..i] + Unprotect(s[i..])
  {
    if i == 0 {
      assert s[..0] + s[0..] == s;
    } else {
      UnprotectFrom(s, i - 1);
      OccursThree(s, i - 1, 0, 0, 3);
      UnprotectAt(s, i - 1);
      Associate(s[..i - 1], [s[i - 1]], Unprotect(s[i..]));
      assert s[..i - 1] + [s[i - 1]] == s[..i];
    }
  }

  /** What is removed is just the 3 of the first place where 3 follows two zeros, and so on
      behind it; without such a place the bytes stay as they are. */
  lemma {:induction false} RemovesFirst(s: Bytes, i: nat)
    requires i <= |s| && forall p :: 0 <= p < i ==> !Occurs(s, p, [0, 0, 3])
    ensures i == |s| ==> Unprotect(s) == s
    ensures Occurs(s, i, [0, 0, 3]) ==> Unprotect(s) == s[..i + 2] + Unprotect(s[i + 3..])
  {
    UnprotectFrom(s, i);
    OccursThree(s, i, 0, 0, 3);
    if i == |s| {
      assert s[..i] + [] == s;
    } else if Occurs(s, i, [0, 0, 3]) {
      UnprotectAt(s, i);
      Associate(s[..i], [0, 0], Unprotect(s[i + 3..]));
      assert s[..i] + [0, 0] == s[..i + 2];
    }
  }

  /** Removal undoes insertion, for every byte string. */
  lemma {:induction false} UnprotectProtect(s: Bytes)
    ensures Unprotect(Protect(0, s)) == s
    decreases |s|
  {
    if s != [] {
      if s[0] != 0 {
        CopiesFirst(s[0], Protect(0, s[1..]));
        UnprotectProtect(s[1..]);
      } else if |s| == 1 || s[1] != 0 {
        ProtectAfterOne(s[1..]);
        CopiesFirst(0, Protect(0, s[1..]));
        UnprotectProtect(s[1..]);
      } else {
        var rest := s[2..];
        assert s == [0, 0] + rest;
        ProtectTwoZeros(rest);
        UnprotectProtect(rest);
        TwoZeros(rest);
      }
    }
  }

  function Zeros(z: nat): Bytes
    requires z <= 2
  {
    if z == 0 then [] else if z == 1 then [0] else [0, 0]
  }

  /** No start code before, in or just after an inserted byte. */
  lemma {:induction false} CleanInserted(b: Byte, t: Bytes, p: nat)
    requires b <= 3
    requires b == 0 && p >= 3 ==> !ShortAt([0] + t, p - 3)
    requires b != 0 && p >= 4 ==> !ShortAt(t, p - 4)
    ensures !ShortAt([0, 0, 3, b] + t, p)
  {
  }

  lemma {:induction false} CleanCopied(z: nat, b: Byte, t: Bytes, p: nat)
    requires z <= 2 && b != 0 && (z == 2 ==> b > 3)
    requires p > z ==> !ShortAt(t, p - z - 1)
    ensures !ShortAt(Zeros(z) + ([b] + t), p)
  {
  }

  lemma {:induction false} ProtectInserts(s: Bytes)
    requires s != [] && s[0] <= 3
    ensures Zeros(2) + Protect(2, s) == [0, 0, 3, s[0]] + Protect(if s[0] == 0 then 1 else 0, s[1..])
  {
  }

  lemma {:induction false} ProtectCounts(z: nat, s: Bytes)
    requires z < 2 && s != [] && s[0] == 0
    ensures Zeros(z) + Protect(z, s) == Zeros(z + 1) + Protect(z + 1, s[1..])
  {
    assert Zeros(z) + [0] == Zeros(z + 1);
    Associate(Zeros(z), [0], Protect(z + 1, s[1..]));
  }

  lemma {:induction false} ProtectCopies(z: nat, s: Bytes)
    requires z <= 2 && s != [] && s[0] != 0 && (z == 2 ==> s[0] > 3)
    ensures Protect(z, s) == [s[0]] + Protect(0, s[1..])
  {
  }

  lemma {:induction false} InsertedClean(s: Bytes, p: nat)
    requires s != [] && s[0] <= 3
    ensures !ShortAt(Zeros(2) + Protect(2, s), p)
    decreases |s|, 0
  {
    ProtectInserts(s);
    var z: nat := if s[0] == 0 then 1 else 0;
    if p >= 4 - z {
      ProtectedClean(z, s[1..], p - 4 + z);
      assert Zeros(0) + Protect(z, s[1..]) == Protect(z, s[1..]);
    }
    CleanInserted(s[0], Protect(z, s[1..]), p);
  }

  /** A protected string contains no start code, whatever it protects. */
  lemma {:induction false} ProtectedClean(z: nat, s: Bytes, p: nat)
    requires z <= 2
    ensures !ShortAt(Zeros(z) + Protect(z, s), p)
    decreases |s|, 1
  {
    if s == [] {
    } else if z == 2 && s[0] <= 3 {
      InsertedClean(s, p);
    } else if s[0] == 0 {
      ProtectCounts(z, s);
      ProtectedClean(z + 1, s[1..], p);
    } else {
      ProtectCopies(z, s);
      if p > z {
        ProtectedClean(0, s[1..], p - z - 1);
        assert Zeros(0) + Protect(0, s[1..]) == Protect(0, s[1..]);
      }
      CleanCopied(z, s[0], Protect(0, s[1..]), p);
    }
  }

  lemma {:induction false} ProtectClean(raw: Bytes)
    ensures Clean(Protect(0, raw))
  {
    assert Zeros(0) + Protect(0, raw) == Protect(0, raw);
    CleanIs(Protect(0, raw));
    forall p | 0 <= p
      ensures !ShortAt(Protect(0, raw), p)
    {
      ProtectedClean(0, raw, p);
    }
  }

  /** So a stream of protected units splits back into them, whatever they carry. */
  lemma {:induction false} ProtectedUnitsSplit(nals: seq<Bytes>)
    requires forall i :: 0 <= i < |nals| ==> exists raw :: nals[i] == Protect(0, raw)
    ensures SplitAnnexB(Concat(WithStartCodes(nals))) == WithStartCodes(nals)
  {
    forall i | 0 <= i < |nals|
      ensures Clean(nals[i])
    {
      var raw :| nals[i] == Protect(0, raw);
      ProtectClean(raw);
    }
    SplitJoinedIff(nals);
  }
}
