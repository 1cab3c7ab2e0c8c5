/** Punycode, after RFC 3492: the encoder in its simplest form, as a state machine that
    counts one step at a time, and what the decoder of the standard makes of its output. */
module Punycode {
  import opened Common
  import ModArith
  import Rfc3492

  const INITIAL_N := 128
  const INITIAL_BIAS := 72

  // ----- generalized variable-length integers (section 3.3)

  function Threshold(k: nat, bias: nat): (t: nat)
    ensures 1 <= t <= 26
  {
    if k <= bias + 1 then 1 else if k >= bias + 26 then 26 else k - bias
  }

  function Symbol(d: nat): char
    requires d < 36
  {
    if d < 26 then 'a' + d as char else '0' + (d - 26) as char
  }

  /** The first digit of `q`, which is not the last, and what remains. */
  function Low(q: nat, t: nat): (d: nat)
    requires 1 <= t <= 26 && t <= q
    ensures t <= d < 36
  {
    t + (q - t) % (36 - t)
  }

  function High(q: nat, t: nat): (r: nat)
    requires 1 <= t <= 26 && t <= q
    ensures r < q
  {
    ModArith.Quotient(q - t, 36 - t);
    (q - t) / (36 - t)
  }

  function VarInt(q: nat, k: nat, bias: nat): string
    decreases q
  {
    var t := Threshold(k, bias);
    if q < t then [Symbol(q)] else [Symbol(Low(q, t))] + VarInt(High(q, t), k + 36, bias)
  }

  lemma SymbolDigit(d: nat)
    requires d < 36
    ensures Rfc3492.Digit(Symbol(d)) == Some(d) && Symbol(d) != '-'
  {
  }

  lemma ThresholdAgrees(k: nat, bias: nat)
    ensures Rfc3492.Clamp(k, bias) == Threshold(k, bias)
  {
  }

  lemma {:induction false} ReadsDigit(d: nat, k: nat, bias: nat, i: nat, w: nat, rest: string)
    requires d < 36
    ensures var t := Threshold(k, bias);
            Rfc3492.Read([Symbol(d)] + rest, k, bias, i, w)
            == if d < t then Some((i + d * w, rest)) else Rfc3492.Read(rest, k + 36, bias, i + d * w, w * (36 - t))
  {
    SymbolDigit(d);
    ThresholdAgrees(k, bias);
    assert ([Symbol(d)] + rest)[1..] == rest;
  }

  lemma Positional(q: nat, t: nat, w: nat)
    requires 1 <= t <= 26 && t <= q
    ensures Low(q, t) * w + High(q, t) * (w * (36 - t)) == q * w
  {
    var d, q', y := Low(q, t), High(q, t), 36 - t;
    assert d + q' * y == q;
    assert q * w == d * w + (q' * y) * w;
    assert (q' * y) * w == q' * (w * y);
  }

  lemma Weights(q: nat, t: nat, i: nat, w: nat) returns (i': nat, w': nat)
    requires 1 <= t <= 26 && t <= q
    ensures i' == i + Low(q, t) * w && w' == w * (36 - t) && i' + High(q, t) * w' == i + q * w
  {
    Positional(q, t, w);
    i', w' := i + Low(q, t) * w, w * (36 - t);
  }

  lemma {:induction false} ReadsVarInt(q: nat, k: nat, bias: nat, i: nat, w: nat, rest: string)
    ensures Rfc3492.Read(VarInt(q, k, bias) + rest, k, bias, i, w) == Some((i + q * w, rest))
    decreases q
  {
    var t := Threshold(k, bias);
    if q < t {
      ReadsDigit(q, k, bias, i, w, rest);
    } else {
      var d, more := Low(q, t), VarInt(High(q, t), k + 36, bias) + rest;
      assert VarInt(q, k, bias) + rest == [Symbol(d)] + more;
      var i', w' := Weights(q, t, i, w);
      assert Rfc3492.Read([Symbol(d)] + more, k, bias, i, w) == Rfc3492.Read(more, k + 36, bias, i', w') by {
        ReadsDigit(d, k, bias, i, w, more);
      }
      ReadsVarInt(High(q, t), k + 36, bias, i', w', rest);
    }
  }

  // ----- bias adaptation (section 6.1)

  function Shrink(delta: nat, k: nat): (nat, nat) {
    if delta > 455 then Shrink(delta / 35, k + 36) else (delta, k)
  }

  function Scaled(delta: nat, points: nat): nat
    requires points > 0
  {
    delta + delta / points
  }

  function Tapered(delta: nat): nat {
    36 * delta / (delta + 38)
  }

  function Adapt(delta: nat, points: nat, first: bool): nat
    requires points > 0
  {
    var (rest, k) := Shrink(Scaled(if first then delta / 700 else delta / 2, points), 0);
    k + Tapered(rest)
  }

  lemma {:induction false} ShrinkAgrees(delta: nat, k: nat)
    ensures var (rest, k') := Shrink(delta, k); Rfc3492.Halve(delta, k) == k' + Tapered(rest)
  {
    if delta > 455 {
      ShrinkAgrees(delta / 35, k + 36);
    }
  }

  lemma AdaptAgrees(delta: nat, points: nat, first: bool)
    requires points > 0
    ensures Rfc3492.Adapt(delta, points, first) == Adapt(delta, points, first)
  {
    ShrinkAgrees(Scaled(if first then delta / 700 else delta / 2, points), 0);
  }

  // ----- what the decoder is to do with the counts (section 6.2)

  /** The variables of the decoder, as the encoder follows them. */
  datatype Decoder = Decoder(n: nat, i: nat, bias: nat, out: seq<nat>)

  function Start(basic: seq<nat>): Decoder {
    Decoder(INITIAL_N, 0, INITIAL_BIAS, basic)
  }

  function InsertAt(s: seq<nat>, at: nat, c: nat): (r: seq<nat>)
    requires at <= |s|
    ensures |r| == |s| + 1
  {
    s[..at] + [c] + s[at..]
  }

  /** The decoder after an integer has raised its counter to `i`. */
  function Insert(st: Decoder, i: nat): Decoder
    requires i >= st.i
  {
    var len := |st.out| + 1;
    var n, at := st.n + i / len, i % len;
    Decoder(n, at + 1, Adapt(i - st.i, len, st.i == 0), InsertAt(st.out, at, n))
  }

  /** The loop of the decoder, from a state. */
  function LoopFrom(st: Decoder, s: string): Option<seq<nat>> {
    Rfc3492.Loop(st.n, st.i, st.bias, st.out, s)
  }

  // ----- encoding, counting one step at a time (sections 3.1 and 3.2)

  /** The counts from each insertion to the next, scanning the text once for every value
      of `n`, from place `j` on, `delta` steps after the last insertion. */
  function Deltas(cps: seq<nat>, n: nat, j: nat, delta: nat): seq<nat>
    requires j <= |cps|
    decreases 0x110000 - n, |cps| - j
  {
    if n > 0x10FFFF then []
    else if j == |cps| then Deltas(cps, n + 1, 0, delta + 1)
    else if cps[j] < n then Deltas(cps, n, j + 1, delta + 1)
    else if cps[j] == n then [delta] + Deltas(cps, n, j + 1, 0)
    else Deltas(cps, n, j + 1, delta)
  }

  /** The decoder after one count. */
  function Advance(st: Decoder, d: nat): Decoder {
    Insert(st, st.i + d)
  }

  /** The decoder after a list of counts. */
  function Run(st: Decoder, ds: seq<nat>): Decoder {
    if ds == [] then st
    else Advance(Run(st, ds[..|ds| - 1]), ds[|ds| - 1])
  }

  /** The text that stands for a list of counts. */
  function Digits(st: Decoder, ds: seq<nat>): string {
    if ds == [] then []
    else var n := |ds| - 1; Digits(st, ds[..n]) + VarInt(ds[n], 36, Run(st, ds[..n]).bias)
  }

  lemma {:induction false} DecodesOne(st: Decoder, d: nat, rest: string)
    ensures LoopFrom(st, VarInt(d, 36, st.bias) + rest) == LoopFrom(Advance(st, d), rest)
  {
    ReadsVarInt(d, 36, st.bias, st.i, 1, rest);
    AdaptAgrees(d, |st.out| + 1, st.i == 0);
    assert VarInt(d, 36, st.bias) != [];
  }

  /** The decoder reads the counts back from their text. */
  lemma {:induction false} DecodesDigits(st: Decoder, ds: seq<nat>, rest: string)
    ensures LoopFrom(st, Digits(st, ds) + rest) == LoopFrom(Run(st, ds), rest)
    decreases |ds|
  {
    if ds == [] {
      assert [] + rest == rest;
    } else {
      var n := |ds| - 1;
      var last := Run(st, ds[..n]);
      var t := VarInt(ds[n], 36, last.bias);
      assert Digits(st, ds) + rest == Digits(st, ds[..n]) + (t + rest);
      DecodesDigits(st, ds[..n], t + rest);
      DecodesOne(last, ds[n], rest);
    }
  }

  // ----- the counts insert every character in its place

  /** Inserted before the scan for `n` reaches place `j`. */
  predicate Done(c: nat, k: nat, n: nat, j: nat) {
    c < n || (c == n && k < j)
  }

  /** Of the first `len` characters, those already inserted. */
  function Inserted(cps: seq<nat>, n: nat, j: nat, len: nat): (r: seq<nat>)
    requires len <= |cps|
    ensures |r| <= len
  {
    if len == 0 then []
    else
      var c := cps[len - 1];
      Inserted(cps, n, j, len - 1) + if Done(c, len - 1, n, j) then [c] else []
  }

  lemma {:induction false} InsertedSame(cps: seq<nat>, n: nat, j: nat, n': nat, j': nat, len: nat)
    requires len <= |cps| && forall k :: 0 <= k < len ==> (Done(cps[k], k, n, j) <==> Done(cps[k], k, n', j'))
    ensures Inserted(cps, n, j, len) == Inserted(cps, n', j', len)
  {
    if len > 0 {
      assert Done(cps[len - 1], len - 1, n, j) <==> Done(cps[len - 1], len - 1, n', j');
      InsertedSame(cps, n, j, n', j', len - 1);
    }
  }

  /** Inserting the character at `j` puts it after those before it. */
  lemma {:induction false} InsertedNext(cps: seq<nat>, n: nat, j: nat, len: nat)
    requires j < len <= |cps| && cps[j] == n
    ensures var before, all := Inserted(cps, n, j, j), Inserted(cps, n, j, len);
            && |before| <= |all| && all[..|before|] == before
            && Inserted(cps, n, j + 1, len) == before + [n] + all[|before|..]
    decreases len
  {
    if len == j + 1 {
      InsertedSame(cps, n, j, n, j + 1, j);
    } else {
      InsertedNext(cps, n, j, len - 1);
      assert Done(cps[len - 1], len - 1, n, j) <==> Done(cps[len - 1], len - 1, n, j + 1);
    }
  }

  /** The decoder is where the count says: its counter and the count make up whole rounds
      through the output and the place before `j`. */
  ghost predicate InStep(cps: seq<nat>, n: nat, j: nat, delta: nat, st: Decoder)
    requires j <= |cps|
  {
    && st.out == Inserted(cps, n, j, |cps|)
    && st.n <= n && st.i + delta == (n - st.n) * (|st.out| + 1) + |Inserted(cps, n, j, j)|
  }

  lemma {:induction false} InsertInStep(cps: seq<nat>, n: nat, j: nat, delta: nat, st: Decoder)
    requires j < |cps| && cps[j] == n && InStep(cps, n, j, delta, st)
    ensures InStep(cps, n, j + 1, 0, Insert(st, st.i + delta))
  {
    var len, at := |st.out| + 1, |Inserted(cps, n, j, j)|;
    InsertedNext(cps, n, j, |cps|);
    ModArith.Unique(st.i + delta, len, n - st.n, at);
    InsertedSame(cps, n, j, n, j + 1, j);
  }

  lemma {:induction false} ScanInStep(cps: seq<nat>, n: nat, j: nat, delta: nat, st: Decoder)
    requires j < |cps| && cps[j] != n && InStep(cps, n, j, delta, st)
    ensures InStep(cps, n, j + 1, if cps[j] < n then delta + 1 else delta, st)
  {
    InsertedSame(cps, n, j, n, j + 1, j);
    InsertedSame(cps, n, j, n, j + 1, |cps|);
  }

  lemma {:induction false} RoundInStep(cps: seq<nat>, n: nat, delta: nat, st: Decoder)
    requires InStep(cps, n, |cps|, delta, st)
    ensures InStep(cps, n + 1, 0, delta + 1, st)
  {
    InsertedSame(cps, n, |cps|, n + 1, 0, |cps|);
    assert (n + 1 - st.n) * (|st.out| + 1) == (n - st.n) * (|st.out| + 1) + (|st.out| + 1);
  }

  lemma {:induction false} RunSnoc(st: Decoder, ds: seq<nat>, d: nat)
    ensures Run(st, ds + [d]) == Advance(Run(st, ds), d)
  {
    var all := ds + [d];
    assert all[..|all| - 1] == ds && all[|all| - 1] == d;
  }

  lemma {:induction false} RunInStep(cps: seq<nat>, n: nat, j: nat, delta: nat, st: Decoder, ds: seq<nat>)
    requires j < |cps| && cps[j] == n && InStep(cps, n, j, delta, Run(st, ds))
    ensures InStep(cps, n, j + 1, 0, Run(st, ds + [delta]))
  {
    InsertInStep(cps, n, j, delta, Run(st, ds));
    RunSnoc(st, ds, delta);
  }

  lemma {:induction false} AllInserted(cps: seq<nat>, n: nat, j: nat, len: nat)
    requires len <= |cps| && forall k :: 0 <= k < |cps| ==> cps[k] < n
    ensures Inserted(cps, n, j, len) == cps[..len]
  {
    if len > 0 {
      AllInserted(cps, n, j, len - 1);
      assert cps[..len] == cps[..len - 1] + [cps[len - 1]];
    }
  }

  lemma {:induction false} RunEnds(cps: seq<nat>, n: nat, j: nat, delta: nat, st: Decoder)
    requires j <= |cps| && InStep(cps, n, j, delta, st) && forall k :: 0 <= k < |cps| ==> cps[k] < n
    ensures st.out == cps
  {
    AllInserted(cps, n, j, |cps|);
  }

  lemma {:induction false} Regroup(ds: seq<nat>, d: nat, more: seq<nat>)
    ensures ds + ([d] + more) == ds + [d] + more
  {
  }

  lemma {:induction false} RunInserts(cps: seq<nat>, n: nat, j: nat, delta: nat, st: Decoder, ds: seq<nat>)
    requires j < |cps| && cps[j] == n <= 0x10FFFF && InStep(cps, n, j, delta, Run(st, ds))
    requires forall k :: 0 <= k < |cps| ==> cps[k] <= 0x10FFFF
    ensures Run(st, ds + Deltas(cps, n, j, delta)).out == cps
    decreases 0x110000 - n, |cps| - j, 0
  {
    RunInStep(cps, n, j, delta, st, ds);
    RunInsertsAll(cps, n, j + 1, 0, st, ds + [delta]);
    Regroup(ds, delta, Deltas(cps, n, j + 1, 0));
  }

  /** Following the counts to the end inserts everything. */
  lemma {:induction false} RunInsertsAll(cps: seq<nat>, n: nat, j: nat, delta: nat, st: Decoder, ds: seq<nat>)
    requires j <= |cps| && InStep(cps, n, j, delta, Run(st, ds)) && n <= 0x110000
    requires forall k :: 0 <= k < |cps| ==> cps[k] <= 0x10FFFF
    ensures Run(st, ds + Deltas(cps, n, j, delta)).out == cps
    decreases 0x110000 - n, |cps| - j, 1
  {
    if n > 0x10FFFF {
      RunEnds(cps, n, j, delta, Run(st, ds));
      assert ds + [] == ds;
    } else if j == |cps| {
      RoundInStep(cps, n, delta, Run(st, ds));
      RunInsertsAll(cps, n + 1, 0, delta + 1, st, ds);
    } else if cps[j] == n {
      RunInserts(cps, n, j, delta, st, ds);
    } else {
      ScanInStep(cps, n, j, delta, Run(st, ds));
      RunInsertsAll(cps, n, j + 1, if cps[j] < n then delta + 1 else delta, st, ds);
    }
  }

  lemma {:induction false} DigitsSnoc(st: Decoder, ds: seq<nat>, d: nat)
    ensures Digits(st, ds + [d]) == Digits(st, ds) + VarInt(d, 36, Run(st, ds).bias)
  {
    var all := ds + [d];
    assert all[..|all| - 1] == ds && all[|all| - 1] == d;
  }

  // ----- whole labels

  lemma {:induction false} BasicIsAscii(cps: seq<nat>, len: nat)
    requires len <= |cps|
    ensures forall i :: 0 <= i < |Inserted(cps, INITIAL_N, 0, len)| ==> Inserted(cps, INITIAL_N, 0, len)[i] < 128
  {
    if len > 0 {
      BasicIsAscii(cps, len - 1);
    }
  }

  function Basic(cps: seq<nat>): (b: seq<nat>)
    ensures forall i :: 0 <= i < |b| ==> b[i] < 128
  {
    BasicIsAscii(cps, |cps|);
    Inserted(cps, INITIAL_N, 0, |cps|)
  }

  function TextOf(codes: seq<nat>): string
    requires forall i :: 0 <= i < |codes| ==> codes[i] < 128
  {
    seq(|codes|, i requires 0 <= i < |codes| => codes[i] as char)
  }

  /** The Punycode form of a text: its basic characters, a delimiter if there are any, and
      the counts. */
  function Encoded(cps: seq<nat>): string {
    var basic := Basic(cps);
    TextOf(basic) + (if basic == [] then [] else ['-']) + Digits(Start(basic), Deltas(cps, INITIAL_N, 0, 0))
  }

  /** A digit as it is to be written: section 5 recommends lower case. */
  predicate IsLower(c: char) {
    'a' <= c <= 'z' || '0' <= c <= '9'
  }

  lemma {:induction false} VarIntLower(q: nat, k: nat, bias: nat)
    ensures forall c :: c in VarInt(q, k, bias) ==> IsLower(c)
    decreases q
  {
    var t := Threshold(k, bias);
    if q < t {
      SymbolDigit(q);
    } else {
      SymbolDigit(Low(q, t));
      VarIntLower(High(q, t), k + 36, bias);
    }
  }

  lemma {:induction false} DigitsLower(st: Decoder, ds: seq<nat>)
    ensures forall c :: c in Digits(st, ds) ==> IsLower(c)
    decreases |ds|
  {
    if ds != [] {
      var n := |ds| - 1;
      VarIntLower(ds[n], 36, Run(st, ds[..n]).bias);
      DigitsLower(st, ds[..n]);
    }
  }

  lemma {:induction false} NoDelimiter(s: string)
    requires '-' !in s
    ensures Rfc3492.LastDelimiter(s) == |s|
  {
    if s != [] {
      NoDelimiter(s[1..]);
    }
  }

  lemma {:induction false} FindsDelimiter(t: string, s: string)
    requires '-' !in s
    ensures Rfc3492.LastDelimiter(t + ['-'] + s) == |t|
  {
    if t == [] {
      NoDelimiter(s);
      assert (t + ['-'] + s)[1..] == s;
    } else {
      FindsDelimiter(t[1..], s);
      assert (t + ['-'] + s)[1..] == t[1..] + ['-'] + s;
    }
  }

  lemma {:induction false} DecodesCounts(cps: seq<nat>)
    requires forall k :: 0 <= k < |cps| ==> cps[k] <= 0x10FFFF
    ensures var st := Start(Basic(cps)); LoopFrom(st, Digits(st, Deltas(cps, INITIAL_N, 0, 0))) == Some(cps)
  {
    var st, ds := Start(Basic(cps)), Deltas(cps, INITIAL_N, 0, 0);
    RunInsertsAll(cps, INITIAL_N, 0, 0, st, []);
    assert [] + ds == ds && Digits(st, ds) + [] == Digits(st, ds);
    DecodesDigits(st, ds, []);
  }

  lemma {:induction false} TailLower(head: string, tail: string, i: nat)
    requires |head| <= i < |head + tail| && forall c :: c in tail ==> IsLower(c)
    ensures var c := (head + tail)[i]; 'a' <= c <= 'z' || '0' <= c <= '9'
  {
    assert (head + tail)[i] == tail[i - |head|] && tail[i - |head|] in tail;
  }

  /** Whatever follows the last delimiter is in lower case, and so are all digits. */
  lemma {:induction false} EncodedLower(cps: seq<nat>)
    ensures var s := Encoded(cps);
            var p := Rfc3492.LastDelimiter(s);
            forall i :: 0 <= i < |s| && (p == |s| || i > p) ==> 'a' <= s[i] <= 'z' || '0' <= s[i] <= '9'
  {
    var basic := Basic(cps);
    var t, digits := TextOf(basic), Digits(Start(basic), Deltas(cps, INITIAL_N, 0, 0));
    DigitsLower(Start(basic), Deltas(cps, INITIAL_N, 0, 0));
    var head := t + if basic == [] then [] else ['-'];
    if basic == [] {
      assert head == [] && head + digits == digits;
      NoDelimiter(digits);
    } else {
      FindsDelimiter(t, digits);
    }
    forall i | |head| <= i < |head + digits|
      ensures 'a' <= (head + digits)[i] <= 'z' || '0' <= (head + digits)[i] <= '9'
    {
      TailLower(head, digits, i);
    }
  }

  /** The decoder of RFC 3492 reads back every text. */
  lemma {:induction false} DecodeEncoded(cps: seq<nat>)
    requires forall k :: 0 <= k < |cps| ==> cps[k] <= 0x10FFFF
    ensures Rfc3492.Decode(Encoded(cps)) == Some(cps)
  {
    var basic := Basic(cps);
    var t, digits := TextOf(basic), Digits(Start(basic), Deltas(cps, INITIAL_N, 0, 0));
    DecodesCounts(cps);
    DigitsLower(Start(basic), Deltas(cps, INITIAL_N, 0, 0));
    if basic == [] {
      NoDelimiter(digits);
      assert Encoded(cps) == digits;
    } else {
      FindsDelimiter(t, digits);
      assert (t + ['-'] + digits)[..|t|] == t && (t + ['-'] + digits)[|t| + 1..] == digits;
      assert Rfc3492.Codes(t) == basic;
    }
  }

  // ----- for the encoder that counts in leaps

  /** So many counts are left as characters are not yet inserted. */
  lemma {:induction false} CountsLeft(cps: seq<nat>, n: nat, j: nat, delta: nat)
    requires j <= |cps| && n <= 0x110000 && forall k :: 0 <= k < |cps| ==> cps[k] <= 0x10FFFF
    ensures |Deltas(cps, n, j, delta)| + |Inserted(cps, n, j, |cps|)| == |cps|
    decreases 0x110000 - n, |cps| - j
  {
    if n > 0x10FFFF {
      AllInserted(cps, n, j, |cps|);
    } else if j == |cps| {
      InsertedSame(cps, n, j, n + 1, 0, |cps|);
      CountsLeft(cps, n + 1, 0, delta + 1);
    } else if cps[j] == n {
      InsertedNext(cps, n, j, |cps|);
      CountsLeft(cps, n, j + 1, 0);
    } else {
      InsertedSame(cps, n, j, n, j + 1, |cps|);
      CountsLeft(cps, n, j + 1, if cps[j] < n then delta + 1 else delta);
    }
  }

  /** A whole scan that inserts nothing counts every inserted character, and one more. */
  lemma {:induction false} EmptyScan(cps: seq<nat>, n: nat, j: nat, delta: nat)
    requires j <= |cps| && n <= 0x10FFFF && n !in cps
    ensures |Inserted(cps, n, 0, j)| <= |Inserted(cps, n, 0, |cps|)|
    ensures Deltas(cps, n, j, delta)
         == Deltas(cps, n + 1, 0, delta + |Inserted(cps, n, 0, |cps|)| - |Inserted(cps, n, 0, j)| + 1)
    decreases |cps| - j
  {
    if j < |cps| {
      EmptyScan(cps, n, j + 1, if cps[j] < n then delta + 1 else delta);
    }
  }

  /** Leaping from `n` to the next value in the text. */
  lemma {:induction false} Leap(cps: seq<nat>, n: nat, m: nat, delta: nat)
    requires n <= m <= 0x10FFFF && forall c :: n <= c < m ==> c !in cps
    ensures Deltas(cps, n, 0, delta) == Deltas(cps, m, 0, delta + (m - n) * (|Inserted(cps, n, 0, |cps|)| + 1))
    decreases m - n
  {
    if n < m {
      var y := |Inserted(cps, n, 0, |cps|)| + 1;
      EmptyScan(cps, n, 0, delta);
      InsertedSame(cps, n, 0, n + 1, 0, |cps|);
      Leap(cps, n + 1, m, delta + y);
      assert (m - n) * y == y + (m - (n + 1)) * y;
    }
  }

  /** The next count is at least what has been counted. */
  lemma {:induction false} NextAtLeast(cps: seq<nat>, n: nat, j: nat, delta: nat)
    requires j <= |cps| && n <= 0x10FFFF && n in cps[j..]
    ensures var ds := Deltas(cps, n, j, delta); ds != [] && ds[0] >= delta
    decreases |cps| - j
  {
    if cps[j] != n {
      assert cps[j..] == [cps[j]] + cps[j + 1..];
      NextAtLeast(cps, n, j + 1, if cps[j] < n then delta + 1 else delta);
    }
  }

  /** For instance, of "u" with two dots 124 steps are counted. */
  lemma {:induction false} UmlautCounts()
    ensures Basic([0xFC]) == [] && Deltas([0xFC], 128, 0, 0) == [124]
  {
    var cps: seq<nat> := [0xFC];
    assert Inserted(cps, 128, 0, 1) == Inserted(cps, 128, 0, 0);
    Leap(cps, 128, 252, 0);
    CountsLeft(cps, 252, 1, 0);
    assert Inserted(cps, 252, 1, 1) == [252];
  }

  lemma {:induction false} UmlautDigits()
    ensures VarInt(124, 36, 72) == "tda"
  {
    assert VarInt(0, 108, 72) == "a";
    assert Low(3, 1) == 3 && High(3, 1) == 0;
    assert VarInt(3, 72, 72) == "d" + VarInt(0, 108, 72);
    assert Low(124, 1) == 19 && High(124, 1) == 3;
    assert VarInt(124, 36, 72) == "t" + VarInt(3, 72, 72);
  }

  lemma {:induction false} UmlautEncoded()
    ensures Encoded([0xFC]) == "tda"
  {
    UmlautCounts();
    UmlautDigits();
    var st := Start([]);
    assert [124][..0] == [];
    assert Digits(st, [124]) == VarInt(124, 36, 72);
    assert TextOf([]) == "";
  }
}
