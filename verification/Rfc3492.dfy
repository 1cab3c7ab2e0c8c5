/** The decoding procedure of RFC 3492, written from sections 5, 6.1 and 6.2 with their
    numbers, apart from any encoder: what is encoded elsewhere is measured against it. */
module Rfc3492 {
  import opened Common

  /** The value of a digit; letters count in either case (section 5). */
  function Digit(c: char): Option<nat> {
    if 'a' <= c <= 'z' then Some(c as int - 97)
    else if 'A' <= c <= 'Z' then Some(c as int - 65)
    else if '0' <= c <= '9' then Some(c as int - 22)
    else None
  }

  function Clamp(k: nat, bias: nat): nat {
    if k <= bias + 1 then 1 else if k >= bias + 26 then 26 else k - bias
  }

  /** The loop of section 6.1. */
  function Halve(delta: nat, k: nat): nat {
    if delta > 455 then Halve(delta / 35, k + 36) else k + 36 * delta / (delta + 38)
  }

  function Spread(d: nat, points: nat): nat
    requires points > 0
  {
    d + d / points
  }

  function Adapt(delta: nat, points: nat, first: bool): nat
    requires points > 0
  {
    Halve(Spread(if first then delta / 700 else delta / 2, points), 0)
  }

  function Weighted(i: nat, d: nat, w: nat): nat {
    i + d * w
  }

  /** Adds the integer at the start of `s`, times `w`, to `i`. */
  function Read(s: string, k: nat, bias: nat, i: nat, w: nat): (r: Option<(nat, string)>)
    ensures r.Some? ==> |r.value.1| < |s|
    decreases |s|
  {
    if s == [] || Digit(s[0]).None? then None
    else
      var d, t := Digit(s[0]).value, Clamp(k, bias);
      if d < t then Some((Weighted(i, d, w), s[1..]))
      else Read(s[1..], k + 36, bias, Weighted(i, d, w), Weighted(0, w, 36 - t))
  }

  /** The position `j` as turns through `len` places, and the place in the last. */
  function Turn(j: nat, len: nat): (r: (nat, nat))
    requires len > 0
    ensures r.1 < len
  {
    (j / len, j % len)
  }

  function InsertAt(output: seq<nat>, at: nat, c: nat): seq<nat>
    requires at <= |output|
  {
    output[..at] + [c] + output[at..]
  }

  /** The main loop of section 6.2, from any state of its variables. */
  function Loop(n: nat, i: nat, bias: nat, output: seq<nat>, s: string): Option<seq<nat>>
    decreases |s|
  {
    if s == [] then Some(output)
    else
      match Read(s, 36, bias, i, 1)
      case None => None
      case Some((j, rest)) =>
        if j < i then None
        else
          var len := |output| + 1;
          var (turns, at) := Turn(j, len);
          Loop(n + turns, at + 1, Adapt(j - i, len, i == 0), InsertAt(output, at, n + turns), rest)
  }

  /** The place of the last delimiter, or the length of the text. */
  function LastDelimiter(s: string): (p: nat)
    ensures p <= |s|
  {
    if s == [] then 0
    else
      var p := LastDelimiter(s[1..]);
      if p < |s| - 1 then p + 1 else if s[0] == '-' then 0 else |s|
  }

  function Codes(s: string): seq<nat> {
    seq(|s|, i requires 0 <= i < |s| => s[i] as int)
  }

  /** What a text decodes to, if to anything. */
  function Decode(s: string): Option<seq<nat>> {
    var p := LastDelimiter(s);
    if p == |s| || p == 0 then Loop(128, 0, 72, [], s)
    else if exists i :: 0 <= i < p && s[i] as int >= 128 then None
    else Loop(128, 0, 72, Codes(s[..p]), s[p + 1..])
  }
}
