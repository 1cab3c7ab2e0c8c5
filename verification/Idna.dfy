/** Host names in ASCII: the label encoder of idna.c, which leaps from one code point to
    the next in 32-bit arithmetic and writes into a bounded buffer. */
module Idna {
  import opened Common
  import opened Utf8
  import opened Punycode
  import Rfc3492

  const UINT_MAX := 0xFFFF_FFFF

  datatype Rc = Ok | Einval | E2big

  /** What of a text fits into `room` characters. */
  function Cut(s: string, room: nat): string {
    if |s| <= room then s else s[..room]
  }

  function Put(out: string, room: nat, c: char): string {
    if |out| < room then out + [c] else out
  }

  lemma {:induction false} PutCut(s: string, room: nat, c: char)
    ensures Put(Cut(s, room), room, c) == Cut(s + [c], room)
  {
  }

  function Counts(cps: seq<nat>): seq<nat> {
    Deltas(cps, INITIAL_N, 0, 0)
  }

  /** A label in ASCII: itself, or its Punycode form behind a prefix. */
  function Label(cps: seq<nat>): string {
    if Counts(cps) == [] then TextOf(Basic(cps)) else "xn--" + Encoded(cps)
  }

  /** Some count of the label's Punycode form does not fit 32 bits. */
  ghost predicate Overflows(cps: seq<nat>) {
    exists i :: 0 <= i < |Counts(cps)| && Counts(cps)[i] > UINT_MAX
  }

  // ----- digits and bias

  method CutOff(k: nat, bias: nat) returns (t: nat)
    ensures t == Threshold(k, bias)
  {
    t := 1;
    if k > bias {
      t := k - bias;
    }
    if t > 26 {
      t := 26;
    }
  }

  method WriteVarInt(delta: nat, bias: nat, out: string, room: nat, ghost full: string) returns (out': string)
    requires out == Cut(full, room)
    ensures out' == Cut(full + VarInt(delta, 36, bias), room)
  {
    var k: nat, q: nat := 36, delta;
    out' := out;
    ghost var done := full;
    var t := CutOff(k, bias);
    while q >= t
      invariant t == Threshold(k, bias)
      invariant out' == Cut(done, room) && done + VarInt(q, k, bias) == full + VarInt(delta, 36, bias)
      decreases q
    {
      var c := Symbol(Low(q, t));
      PutCut(done, room, c);
      Associate(done, [c], VarInt(High(q, t), k + 36, bias));
      out' := Put(out', room, c);
      done := done + [c];
      k, q := k + 36, High(q, t);
      t := CutOff(k, bias);
    }
    PutCut(done, room, Symbol(q));
    out' := Put(out', room, Symbol(q));
  }

  method ShrinkLoop(delta0: nat) returns (delta: nat, bias: nat)
    ensures (delta, bias) == Shrink(delta0, 0)
  {
    delta, bias := delta0, 0;
    while delta > 35 * 26 / 2
      invariant Shrink(delta0, 0) == Shrink(delta, bias)
    {
      delta, bias := delta / 35, bias + 36;
    }
  }

  lemma Damping(d: nat)
    ensures d / 2 / 350 == d / 700
  {
  }

  method AdaptBias(delta0: nat, h: nat, first: bool) returns (bias: nat)
    requires h > 0
    ensures bias == Adapt(delta0, h, first)
  {
    var delta: nat := delta0 / 2;
    if first {
      Damping(delta0);
      delta := delta / 350;
    }
    delta := Scaled(delta, h);
    delta, bias := ShrinkLoop(delta);
    bias := bias + Tapered(delta);
  }

  // ----- the state of the encoder

  /** The encoder's variables: steps counted, characters written and still to write, bias,
      and whether nothing has been written. */
  datatype Enc = Enc(delta: nat, h: nat, todo: nat, bias: nat, first: bool)

  ghost predicate Agrees(st: Decoder, e: Enc) {
    e.bias == st.bias && |st.out| == e.h && (e.first <==> st.i == 0)
  }

  /** The counts `ds` are written, and the scan for `n` has reached place `j`. */
  ghost predicate Tracks(cps: seq<nat>, ds: seq<nat>, n: nat, j: nat, e: Enc)
    requires j <= |cps|
  {
    && Counts(cps) == ds + Deltas(cps, n, j, e.delta)
    && e.todo == |Deltas(cps, n, j, e.delta)| && e.h + e.todo == |cps|
    && (forall i :: 0 <= i < |ds| ==> ds[i] <= UINT_MAX)
    && Agrees(Run(Start(Basic(cps)), ds), e)
  }

  /** What fits of the prefix `full` and the digits of `ds`. */
  ghost predicate Written(cps: seq<nat>, ds: seq<nat>, full: string, out: string, room: nat) {
    out == Cut(full + Digits(Start(Basic(cps)), ds), room)
  }

  lemma {:induction false} TracksPass(cps: seq<nat>, ds: seq<nat>, n: nat, j: nat, e: Enc)
    requires j < |cps| && cps[j] != n && n <= 0x10FFFF && Tracks(cps, ds, n, j, e)
    ensures Tracks(cps, ds, n, j + 1, e.(delta := if cps[j] < n then e.delta + 1 else e.delta))
  {
  }

  lemma {:induction false} TracksEmit(cps: seq<nat>, ds: seq<nat>, n: nat, j: nat, e: Enc)
    requires j < |cps| && cps[j] == n && n <= 0x10FFFF && e.delta <= UINT_MAX && Tracks(cps, ds, n, j, e)
    ensures e.todo > 0
    ensures Tracks(cps, ds + [e.delta], n, j + 1, Enc(0, e.h + 1, e.todo - 1, Adapt(e.delta, e.h + 1, e.first), false))
  {
    RunSnoc(Start(Basic(cps)), ds, e.delta);
    Regroup(ds, e.delta, Deltas(cps, n, j + 1, 0));
  }

  lemma {:induction false} TracksRound(cps: seq<nat>, ds: seq<nat>, n: nat, e: Enc)
    requires n <= 0x10FFFF && Tracks(cps, ds, n, |cps|, e)
    ensures Tracks(cps, ds, n + 1, 0, e.(delta := e.delta + 1))
  {
  }

  lemma {:induction false} TracksLeap(cps: seq<nat>, ds: seq<nat>, n: nat, m: nat, e: Enc, delta: nat)
    requires n <= m <= 0x10FFFF && forall k :: 0 <= k < |cps| ==> cps[k] <= 0x10FFFF
    requires forall k :: 0 <= k < |cps| ==> cps[k] < n || cps[k] >= m
    requires delta == e.delta + (m - n) * (e.h + 1) && Tracks(cps, ds, n, 0, e)
    ensures Tracks(cps, ds, m, 0, e.(delta := delta))
  {
    CountsLeft(cps, n, 0, e.delta);
    Leap(cps, n, m, e.delta);
  }

  lemma {:induction false} OverflowAhead(cps: seq<nat>, ds: seq<nat>, n: nat, j: nat, e: Enc)
    requires j <= |cps| && n <= 0x10FFFF && n in cps[j..] && e.delta > UINT_MAX && Tracks(cps, ds, n, j, e)
    ensures Overflows(cps)
  {
    NextAtLeast(cps, n, j, e.delta);
    assert Counts(cps)[|ds|] == Deltas(cps, n, j, e.delta)[0];
  }

  // ----- the loops

  /** The least code point not below `n`. */
  method NextPoint(cps: seq<nat>, n: nat) returns (m: nat)
    requires exists k :: 0 <= k < |cps| && cps[k] >= n
    requires forall k :: 0 <= k < |cps| ==> cps[k] <= 0x10FFFF
    ensures m in cps && m >= n && forall k :: 0 <= k < |cps| ==> cps[k] < n || cps[k] >= m
  {
    m := UINT_MAX;
    for k := 0 to |cps|
      invariant forall i :: 0 <= i < k ==> cps[i] < n || cps[i] >= m
      invariant m == UINT_MAX || (m in cps && m >= n)
    {
      if cps[k] >= n && cps[k] < m {
        m := cps[k];
      }
    }
  }

  lemma {:induction false} InTail(cps: seq<nat>, j: nat, n: nat)
    requires j < |cps|
    ensures n in cps[j..] <==> cps[j] == n || n in cps[j + 1..]
  {
    assert cps[j..] == [cps[j]] + cps[j + 1..];
  }

  /** Writes one count and adapts the bias. */
  method Emit(cps: seq<nat>, ghost ds: seq<nat>, ghost n: nat, ghost j: nat, e: Enc, out: string, room: nat,
              ghost full: string)
    returns (e': Enc, out': string)
    requires j < |cps| && cps[j] == n && n <= 0x10FFFF && e.delta <= UINT_MAX && e.todo > 0
    requires Tracks(cps, ds, n, j, e) && Written(cps, ds, full, out, room)
    ensures Tracks(cps, ds + [e.delta], n, j + 1, e') && e'.delta == 0 && e'.todo == e.todo - 1
    ensures Written(cps, ds + [e.delta], full, out', room)
  {
    TracksEmit(cps, ds, n, j, e);
    DigitsSnoc(Start(Basic(cps)), ds, e.delta);
    Associate(full, Digits(Start(Basic(cps)), ds), VarInt(e.delta, 36, e.bias));
    out' := WriteVarInt(e.delta, e.bias, out, room, full + Digits(Start(Basic(cps)), ds));
    var bias := AdaptBias(e.delta, e.h + 1, e.first);
    e' := Enc(0, e.h + 1, e.todo - 1, bias, false);
  }

  /** One scan of the text for `n`, writing its counts. */
  method Scan(cps: seq<nat>, ghost ds0: seq<nat>, n: nat, e0: Enc, before: string, room: nat, ghost full: string)
    returns (rc: Rc, e: Enc, out: string, ghost ds: seq<nat>)
    requires n <= 0x10FFFF && n in cps && |cps| < UINT_MAX && e0.delta <= UINT_MAX
    requires Tracks(cps, ds0, n, 0, e0) && Written(cps, ds0, full, before, room)
    ensures rc == Ok || (rc == E2big && Overflows(cps))
    ensures rc == Ok ==> Tracks(cps, ds, n, |cps|, e) && e.delta <= |cps| && e.todo < e0.todo
    ensures rc == Ok ==> Written(cps, ds, full, out, room)
  {
    rc, e, out, ds := Ok, e0, before, ds0;
    ghost var seen := false;
    for j := 0 to |cps|
      invariant Tracks(cps, ds, n, j, e) && e.delta <= UINT_MAX
      invariant Written(cps, ds, full, out, room)
      invariant if seen then e.delta <= j && e.todo < e0.todo else e.todo == e0.todo && n in cps[j..]
    {
      InTail(cps, j, n);
      if cps[j] != n {
        TracksPass(cps, ds, n, j, e);
        if cps[j] < n {
          if e.delta == UINT_MAX {
            OverflowAhead(cps, ds, n, j + 1, e.(delta := e.delta + 1));
            rc := E2big;
            return;
          }
          e := e.(delta := e.delta + 1);
        }
      } else {
        TracksEmit(cps, ds, n, j, e);
        ghost var d := e.delta;
        e, out := Emit(cps, ds, n, j, e, out, room, full);
        ds, seen := ds + [d], true;
      }
    }
  }

  /** The division of the source is an exact check of the leap. */
  lemma LeapFits(delta: nat, x: nat, y: nat)
    requires delta <= UINT_MAX && y > 0
    ensures 0 <= x * y
    ensures x > (UINT_MAX - delta) / y <==> delta + x * y > UINT_MAX
  {
    var q := (UINT_MAX - delta) / y;
    if x > q {
      assert x * y >= (q + 1) * y;
    } else {
      assert x * y <= q * y;
    }
  }

  lemma {:induction false} SomeLeft(cps: seq<nat>, ds: seq<nat>, n: nat, e: Enc)
    requires e.todo > 0 && n <= 0x110000 && Tracks(cps, ds, n, 0, e)
    requires forall k :: 0 <= k < |cps| ==> cps[k] <= 0x10FFFF
    ensures exists k :: 0 <= k < |cps| && cps[k] >= n
  {
    CountsLeft(cps, n, 0, e.delta);
    if forall k :: 0 <= k < |cps| ==> cps[k] < n {
      AllInserted(cps, n, 0, |cps|);
    }
  }

  /** Counts the empty scans before the next code point at once. */
  method LeapTo(cps: seq<nat>, ghost ds: seq<nat>, n: nat, e: Enc) returns (rc: Rc, m: nat, e': Enc)
    requires forall k :: 0 <= k < |cps| ==> cps[k] <= 0x10FFFF
    requires e.todo > 0 && n <= 0x110000 && e.delta <= UINT_MAX && Tracks(cps, ds, n, 0, e)
    ensures rc == Ok || (rc == E2big && Overflows(cps))
    ensures rc == Ok ==> m in cps && m <= 0x10FFFF && Tracks(cps, ds, m, 0, e') && e'.delta <= UINT_MAX && e'.todo == e.todo
  {
    SomeLeft(cps, ds, n, e);
    m := NextPoint(cps, n);
    var x: nat, y: nat := m - n, e.h + 1;
    LeapFits(e.delta, x, y);
    var delta: nat := e.delta + x * y;
    TracksLeap(cps, ds, n, m, e, delta);
    rc, e' := Ok, e.(delta := delta);
    if x > (UINT_MAX - e.delta) / y {
      OverflowAhead(cps, ds, m, 0, e');
      rc := E2big;
    }
  }

  /** One leap, the scan after it, and the step to the next round. */
  method Round(cps: seq<nat>, ghost ds0: seq<nat>, n0: nat, e0: Enc, before: string, room: nat, ghost full: string)
    returns (rc: Rc, n: nat, e: Enc, out: string, ghost ds: seq<nat>)
    requires forall k :: 0 <= k < |cps| ==> cps[k] <= 0x10FFFF
    requires |cps| < UINT_MAX && e0.todo > 0 && n0 <= 0x110000 && e0.delta <= UINT_MAX
    requires Tracks(cps, ds0, n0, 0, e0) && Written(cps, ds0, full, before, room)
    ensures rc == Ok || (rc == E2big && Overflows(cps))
    ensures rc == Ok ==>
              n <= 0x110000 && e.todo < e0.todo && e.delta <= UINT_MAX
              && Tracks(cps, ds, n, 0, e) && Written(cps, ds, full, out, room)
  {
    rc, n, e := LeapTo(cps, ds0, n0, e0);
    out, ds := before, ds0;
    if rc == Ok {
      rc, e, out, ds := Scan(cps, ds0, n, e, before, room, full);
      if rc == Ok {
        TracksRound(cps, ds, n, e);
        e, n := e.(delta := e.delta + 1), n + 1;
      }
    }
  }

  lemma {:induction false} TracksStart(cps: seq<nat>, e: Enc)
    requires forall k :: 0 <= k < |cps| ==> cps[k] <= 0x10FFFF
    requires e == Enc(0, |Basic(cps)|, |Counts(cps)|, INITIAL_BIAS, true)
    ensures Tracks(cps, [], INITIAL_N, 0, e)
  {
    CountsLeft(cps, INITIAL_N, 0, 0);
    assert [] + Counts(cps) == Counts(cps);
  }

  lemma {:induction false} AllWritten(cps: seq<nat>, ds: seq<nat>, n: nat, e: Enc)
    requires Tracks(cps, ds, n, 0, e) && e.todo == 0
    ensures ds == Counts(cps) && !Overflows(cps)
  {
    assert ds + [] == ds;
  }

  /** All scans, until nothing is left to write. */
  method WriteCounts(cps: seq<nat>, h: nat, todo: nat, before: string, room: nat, ghost full: string)
    returns (rc: Rc, out: string)
    requires forall k :: 0 <= k < |cps| ==> cps[k] <= 0x10FFFF
    requires h == |Basic(cps)| && todo == |Counts(cps)| && |cps| < UINT_MAX
    requires before == Cut(full, room)
    ensures rc == if Overflows(cps) then E2big else Ok
    ensures rc == Ok ==> out == Cut(full + Digits(Start(Basic(cps)), Counts(cps)), room)
  {
    var n: nat, e := INITIAL_N, Enc(0, h, todo, INITIAL_BIAS, true);
    ghost var ds: seq<nat> := [];
    rc, out := Ok, before;
    TracksStart(cps, e);
    assert full + [] == full;
    while e.todo > 0
      invariant rc == Ok && Tracks(cps, ds, n, 0, e) && Written(cps, ds, full, out, room) && e.delta <= UINT_MAX && n <= 0x110000
      decreases e.todo
    {
      rc, n, e, out, ds := Round(cps, ds, n, e, out, room, full);
      if rc != Ok {
        return;
      }
    }
    AllWritten(cps, ds, n, e);
  }

  lemma {:induction false} PutAscii(full: string, done: seq<nat>, c: nat, room: nat)
    requires c < 128 && forall i :: 0 <= i < |done| ==> done[i] < 128
    ensures Put(Cut(full + TextOf(done), room), room, c as char) == Cut(full + TextOf(done + [c]), room)
  {
    PutCut(full + TextOf(done), room, c as char);
    assert TextOf(done + [c]) == TextOf(done) + [c as char];
    Associate(full, TextOf(done), [c as char]);
  }

  lemma {:induction false} BasicGrows(cps: seq<nat>, k: nat, len: nat)
    requires k <= len <= |cps|
    ensures Inserted(cps, INITIAL_N, 0, k) <= Inserted(cps, INITIAL_N, 0, len)
  {
    if k < len {
      BasicGrows(cps, k, len - 1);
    }
  }

  /** The ASCII characters, stopping at the last one. */
  method WriteBasic(cps: seq<nat>, h: nat, before: string, room: nat, ghost full: string) returns (out: string)
    requires h == |Basic(cps)| && before == Cut(full, room)
    ensures out == Cut(full + TextOf(Basic(cps)), room)
  {
    out := before;
    var x := 0;
    assert full + TextOf([]) == full;
    for k := 0 to |cps|
      invariant |Inserted(cps, INITIAL_N, 0, k)| == x && x <= h
      invariant forall i :: 0 <= i < x ==> Inserted(cps, INITIAL_N, 0, k)[i] < 128
      invariant out == Cut(full + TextOf(Inserted(cps, INITIAL_N, 0, k)), room)
      invariant Inserted(cps, INITIAL_N, 0, k) <= Basic(cps)
    {
      BasicGrows(cps, k + 1, |cps|);
      if cps[k] < 128 {
        PutAscii(full, Inserted(cps, INITIAL_N, 0, k), cps[k], room);
        out := Put(out, room, cps[k] as char);
        x := x + 1;
        if x == h {
          assert Inserted(cps, INITIAL_N, 0, k + 1) == Basic(cps);
          return;
        }
      }
    }
  }

  // ----- one label

  lemma {:induction false} InsertedPrefix(cps: seq<nat>, c: nat, len: nat)
    requires len <= |cps|
    ensures Inserted(cps + [c], INITIAL_N, 0, len) == Inserted(cps, INITIAL_N, 0, len)
  {
    if len > 0 {
      InsertedPrefix(cps, c, len - 1);
    }
  }

  /** Decodes a label, counting ASCII and other characters. */
  method ReadLabel(s: seq<Byte>) returns (cps: Option<seq<Scalar>>, h: nat, todo: nat)
    ensures cps == DecodeAll(s)
    ensures cps.Some? ==> h == |Basic(cps.value)| && h + todo == |cps.value|
  {
    h, todo := 0, 0;
    var rest, done: seq<Scalar> := s, [];
    PrependNothing(DecodeAll(s));
    while rest != []
      invariant DecodeAll(s) == Prepend(done, DecodeAll(rest))
      invariant h == |Basic(done)| && h + todo == |done|
      decreases |rest|
    {
      var r := Decode1(rest);
      if r.None? {
        cps := None;
        return;
      }
      var (c, n) := r.value;
      InsertedPrefix(done, c, |done|);
      if c < 128 {
        h := h + 1;
      } else {
        todo := todo + 1;
      }
      PrependPrepend(done, [c], DecodeAll(rest[n..]));
      rest, done := rest[n..], done + [c];
    }
    PrependNothing(Some(done));
    cps := Some(done);
  }

  lemma {:induction false} LabelParts(cps: seq<nat>, full: string, start: string)
    requires Counts(cps) != []
    requires start == full + "xn--" + TextOf(Basic(cps)) + (if Basic(cps) == [] then [] else ['-'])
    ensures start + Digits(Start(Basic(cps)), Counts(cps)) == full + Label(cps)
  {
  }

  method WritePrefix(before: string, room: nat, ghost full: string) returns (out: string)
    requires before == Cut(full, room)
    ensures out == Cut(full + "xn--", room)
  {
    PutCut(full, room, 'x');
    PutCut(full + "x", room, 'n');
    PutCut(full + "xn", room, '-');
    PutCut(full + "xn-", room, '-');
    out := Put(before, room, 'x');
    out := Put(out, room, 'n');
    out := Put(out, room, '-');
    out := Put(out, room, '-');
  }

  method WriteLabel(cps: seq<nat>, h: nat, todo: nat, before: string, room: nat, ghost full: string)
    returns (rc: Rc, out: string)
    requires forall k :: 0 <= k < |cps| ==> cps[k] <= 0x10FFFF
    requires before == Cut(full, room) && |cps| < UINT_MAX && h == |Basic(cps)| && h + todo == |cps|
    ensures rc == if Overflows(cps) then E2big else Ok
    ensures rc == Ok ==> out == Cut(full + Label(cps), room)
  {
    CountsLeft(cps, INITIAL_N, 0, 0);
    var basic := Basic(cps);
    if todo == 0 {
      out := WriteBasic(cps, h, before, room, full);
      return Ok, out;
    }
    out := WritePrefix(before, room, full);
    out := WriteBasic(cps, h, out, room, full + "xn--");
    ghost var start := full + "xn--" + TextOf(basic);
    if h > 0 {
      PutCut(start, room, '-');
      out := Put(out, room, '-');
      start := start + ['-'];
    }
    rc, out := WriteCounts(cps, h, todo, out, room, start);
    LabelParts(cps, full, start);
  }

  /** The ASCII form of one label, or as much of it as fits. The source decodes the label
      again for each of its loops; here the code points are kept. */
  method ToAsciiLabel(s: seq<Byte>, before: string, room: nat, ghost full: string)
    returns (rc: Rc, out: string)
    requires before == Cut(full, room) && |s| < UINT_MAX
    ensures match DecodeAll(s)
            case None => rc == Einval
            case Some(cps) => if Overflows(cps) then rc == E2big else rc == Ok && out == Cut(full + Label(cps), room)
  {
    var decoded, h, todo := ReadLabel(s);
    if decoded.None? {
      return Einval, before;
    }
    DecodedLength(s);
    rc, out := WriteLabel(decoded.value, h, todo, before, room, full);
  }

  lemma {:induction false} NotAllBasic(cps: seq<nat>, k: nat, len: nat)
    requires k < len <= |cps| && cps[k] >= 128
    ensures |Inserted(cps, INITIAL_N, 0, len)| < len
  {
    if k < len - 1 {
      NotAllBasic(cps, k, len - 1);
    }
  }

  lemma {:induction false} LabelForm(cps: seq<nat>, k: nat)
    requires k < |cps| && cps[k] >= 128 && forall i :: 0 <= i < |cps| ==> cps[i] <= 0x10FFFF
    ensures |Label(cps)| >= 4 && Label(cps)[..4] == "xn--" && Label(cps)[4..] == Encoded(cps)
  {
    CountsLeft(cps, INITIAL_N, 0, 0);
    NotAllBasic(cps, k, |cps|);
  }

  /** A label with other than ASCII characters is written as the prefix and a text that the
      decoder of RFC 3492 maps back to the label; an ASCII label is written as it is. */
  lemma {:induction false} LabelDecodes(cps: seq<nat>)
    requires forall k :: 0 <= k < |cps| ==> cps[k] <= 0x10FFFF
    ensures if exists k :: 0 <= k < |cps| && cps[k] >= 128
            then |Label(cps)| >= 4 && Label(cps)[..4] == "xn--" && Rfc3492.Decode(Label(cps)[4..]) == Some(cps)
            else Rfc3492.Codes(Label(cps)) == cps
  {
    if k :| 0 <= k < |cps| && cps[k] >= 128 {
      LabelForm(cps, k);
      DecodeEncoded(cps);
    } else {
      CountsLeft(cps, INITIAL_N, 0, 0);
      AllInserted(cps, INITIAL_N, 0, |cps|);
    }
  }

  /** What the encoding adds to a label is in lower case. */
  lemma {:induction false} LabelIsLower(cps: seq<nat>)
    requires exists k :: 0 <= k < |cps| && cps[k] >= 128
    requires forall k :: 0 <= k < |cps| ==> cps[k] <= 0x10FFFF
    ensures |Label(cps)| >= 4
    ensures var s := Label(cps)[4..];
            var p := Rfc3492.LastDelimiter(s);
            forall i :: 0 <= i < |s| && (p == |s| || i > p) ==> 'a' <= s[i] <= 'z' || '0' <= s[i] <= '9'
  {
    var k :| 0 <= k < |cps| && cps[k] >= 128;
    LabelForm(cps, k);
    EncodedLower(cps);
  }

  lemma {:induction false} UmlautLabel(cps: seq<nat>)
    requires cps == [0xFC]
    ensures Label(cps) == "xn--tda"
  {
    LabelForm(cps, 0);
    UmlautEncoded();
    assert Label(cps) == Label(cps)[..4] + Label(cps)[4..];
    assert "xn--" + "tda" == "xn--tda";
  }

  /** What overflows: a count of 2^32 or more. */
  lemma {:induction false} OverflowsIff(cps: seq<nat>)
    ensures Overflows(cps) <==> exists i :: 0 <= i < |Counts(cps)| && Counts(cps)[i] >= 0x1_0000_0000
    ensures Counts(cps) == Deltas(cps, 128, 0, 0)
  {
    assert forall i :: 0 <= i < |Counts(cps)| ==> (Counts(cps)[i] > UINT_MAX <==> Counts(cps)[i] >= 0x1_0000_0000);
  }

  // ----- host names

  /** The full stop, and the three other characters that separate labels. */
  predicate IsDot(c: nat) {
    c == 0x2E || c == 0x3002 || c == 0xFF0E || c == 0xFF61
  }

  predicate NoDot(cps: seq<nat>) {
    forall k :: 0 <= k < |cps| ==> !IsDot(cps[k])
  }

  /** The place of the first separator, or the length of the text. */
  function FirstDot(cps: seq<nat>): (d: nat)
    ensures d <= |cps| && NoDot(cps[..d]) && (d < |cps| ==> IsDot(cps[d]))
  {
    if cps == [] || IsDot(cps[0]) then 0
    else
      var d := FirstDot(cps[1..]);
      assert cps[..d + 1] == [cps[0]] + cps[1..][..d];
      d + 1
  }

  /** A host name in ASCII: its labels, with full stops for all separators. */
  function Converted(cps: seq<nat>): string
    decreases |cps|
  {
    var d := FirstDot(cps);
    if d == |cps| then (if cps == [] then [] else Label(cps))
    else Label(cps[..d]) + ['.'] + Converted(cps[d + 1..])
  }

  ghost predicate AllFit(cps: seq<nat>)
    decreases |cps|
  {
    var d := FirstDot(cps);
    if d == |cps| then cps != [] ==> !Overflows(cps)
    else !Overflows(cps[..d]) && AllFit(cps[d + 1..])
  }

  lemma {:induction false} FirstDotIs(part: seq<nat>, c: nat, more: seq<nat>)
    requires NoDot(part) && IsDot(c)
    ensures var cps := part + [c] + more;
            FirstDot(cps) == |part| && cps[..|part|] == part && cps[|part| + 1..] == more
  {
    var cps := part + [c] + more;
    if part != [] {
      assert cps[1..] == part[1..] + [c] + more;
      FirstDotIs(part[1..], c, more);
    }
  }

  /** Labels end at full stops, ideographic ones, and the fullwidth and halfwidth forms of
      these (section 3.1 of RFC 3490), and nowhere else. */
  lemma {:induction false} SplitsAtDots(part: seq<nat>, c: nat, more: seq<nat>)
    requires forall k :: 0 <= k < |part| ==> part[k] !in {0x2E, 0x3002, 0xFF0E, 0xFF61}
    ensures Converted(part) == (if part == [] then [] else Label(part))
    ensures AllFit(part) <==> part == [] || !Overflows(part)
    ensures c in {0x2E, 0x3002, 0xFF0E, 0xFF61} ==>
              && Converted(part + [c] + more) == Label(part) + "." + Converted(more)
              && (AllFit(part + [c] + more) <==> !Overflows(part) && AllFit(more))
  {
    assert NoDot(part) && FirstDot(part) == |part|;
    if c in {0x2E, 0x3002, 0xFF0E, 0xFF61} {
      FirstDotIs(part, c, more);
    }
  }

  /** What is left to do for the texts `s` and, later, `t`. */
  ghost predicate SameRest(s: seq<Byte>, done: string, t: seq<Byte>) {
    && (DecodeAll(s).Some? <==> DecodeAll(t).Some?)
    && (DecodeAll(s).Some? ==>
          && Converted(DecodeAll(s).value) == done + Converted(DecodeAll(t).value)
          && (AllFit(DecodeAll(s).value) <==> AllFit(DecodeAll(t).value)))
  }

  lemma {:induction false} SplitsAt(t: seq<Byte>, m: nat, part: seq<Scalar>, c: Scalar, n: nat)
    requires Reaches(t, m, part) && m < |t| && Decode1(t[m..]) == Some((c, n)) && m + n <= |t|
    ensures DecodeAll(t) == Prepend(part + [c], DecodeAll(t[m + n..]))
  {
    ReachesSlice(t, m, part);
    SliceSlice(t, m, m + n);
    DecodeCons(t[m..]);
    PrependPrepend(part, [c], DecodeAll(t[m + n..]));
  }

  lemma {:induction false} LabelDone(s: seq<Byte>, done: string, t: seq<Byte>, m: nat, part: seq<Scalar>,
                                     c: Scalar, n: nat)
    requires SameRest(s, done, t) && Reaches(t, m, part) && NoDot(part) && IsDot(c)
    requires m < |t| && Decode1(t[m..]) == Some((c, n)) && m + n <= |t|
    ensures !Overflows(part) ==> SameRest(s, done + Label(part) + ['.'], t[m + n..])
    ensures Overflows(part) && DecodeAll(s).Some? ==> !AllFit(DecodeAll(s).value)
  {
    SplitsAt(t, m, part, c, n);
    var r := DecodeAll(t[m + n..]);
    if r.Some? {
      FirstDotIs(part, c, r.value);
      Associate(done, Label(part) + ['.'], Converted(r.value));
      Associate(done, Label(part), ['.']);
    }
  }

  lemma {:induction false} RestDone(s: seq<Byte>, done: string, t: seq<Byte>, part: seq<Scalar>)
    requires SameRest(s, done, t) && Reaches(t, |t|, part) && NoDot(part)
    ensures DecodeAll(t) == Some(part) && DecodeAll(s).Some?
    ensures Converted(DecodeAll(s).value) == if t == [] then done else done + Label(part)
    ensures AllFit(DecodeAll(s).value) <==> t == [] || !Overflows(part)
  {
    ReachesSlice(t, |t|, part);
    assert t[..|t|] == t;
    assert FirstDot(part) == |part|;
    assert t == [] ==> done + [] == done;
    assert t != [] ==> part != [];
  }

  method DottedLabel(t: seq<Byte>, m: nat, before: string, room: nat, ghost full: string, ghost part: seq<Scalar>)
    returns (rc: Rc, out: string)
    requires Reaches(t, m, part) && m <= |t| < UINT_MAX && before == Cut(full, room)
    ensures rc == if Overflows(part) then E2big else Ok
    ensures rc == Ok ==> out == Cut(full + Label(part) + ['.'], room)
  {
    ReachesSlice(t, m, part);
    rc, out := ToAsciiLabel(t[..m], before, room, full);
    if rc == Ok {
      PutCut(full + Label(part), room, '.');
      out := Put(out, room, '.');
    }
  }

  /** What follows the last separator, if anything, and the zero. */
  method LastLabel(s: seq<Byte>, t: seq<Byte>, before: string, room: nat, ghost full: string, ghost part: seq<Scalar>)
    returns (rc: Rc, out: string)
    requires |t| < UINT_MAX && before == Cut(full, room)
    requires SameRest(s, full, t) && Reaches(t, |t|, part) && NoDot(part)
    ensures rc == Ok <==> DecodeAll(s).Some? && AllFit(DecodeAll(s).value)
    ensures rc == Ok ==> out == Cut(Converted(DecodeAll(s).value) + ['\0'], room)
  {
    RestDone(s, full, t, part);
    rc, out := Ok, before;
    ghost var all := full;
    if t != [] {
      rc, out := ToAsciiLabel(t, out, room, full);
      if rc != Ok {
        return;
      }
      all := full + Label(part);
    }
    PutCut(all, room, '\0');
    out := Put(out, room, '\0');
  }

  /** A whole host name: succeeds exactly when it is decodable and no label overflows, and
      then writes the ASCII form and a zero, or as much of them as fits. */
  method ToAscii(s: seq<Byte>, room: nat) returns (rc: Rc, out: string)
    requires |s| < UINT_MAX
    ensures rc == Ok <==> DecodeAll(s).Some? && AllFit(DecodeAll(s).value)
    ensures rc == Ok ==> out == Cut(Converted(DecodeAll(s).value) + ['\0'], room)
  {
    out := [];
    var tail, si := s, 0;
    ghost var full: string, part: seq<Scalar> := [], [];
    while si < |tail|
      invariant si <= |tail| <= |s| && out == Cut(full, room)
      invariant SameRest(s, full, tail) && Reaches(tail, si, part) && NoDot(part)
      decreases |tail|, |tail| - si
    {
      var r := Decode1(tail[si..]);
      if r.None? {
        ReachesSlice(tail, si, part);
        return Einval, out;
      }
      var (c, n) := r.value;
      if !IsDot(c) {
        ReachesSnoc(tail, si, part, c, n);
        si, part := si + n, part + [c];
      } else {
        LabelDone(s, full, tail, si, part, c, n);
        rc, out := DottedLabel(tail, si, out, room, full, part);
        if rc != Ok {
          return;
        }
        full := full + Label(part) + ['.'];
        tail, si, part := tail[si + n..], 0, [];
      }
    }
    rc, out := LastLabel(s, tail, out, room, full, part);
  }
}
