/** The text of addresses as section 4 of RFC 5952 recommends it, written from its rules and
    apart from any printer: what is printed elsewhere is measured against it. */
module Rfc5952 {
  import opened Common

  const DIGITS := "0123456789abcdef"

  function Decimal(x: Byte): string {
    if x < 10 then [DIGITS[x]]
    else if x < 100 then [DIGITS[x / 10], DIGITS[x % 10]]
    else [DIGITS[x / 100], DIGITS[x / 10 % 10], DIGITS[x % 10]]
  }

  function Dotted(a: Byte, b: Byte, c: Byte, d: Byte): string {
    Decimal(a) + ['.'] + Decimal(b) + ['.'] + Decimal(c) + ['.'] + Decimal(d)
  }

  /** Section 4.1: no leading zeros. */
  function Strip(s: string): string {
    if |s| > 1 && s[0] == '0' then Strip(s[1..]) else s
  }

  /** A field, in lower case (section 4.3). */
  function Field(high: Byte, low: Byte): string {
    Strip([DIGITS[high / 16], DIGITS[high % 16], DIGITS[low / 16], DIGITS[low % 16]])
  }

  /** The fields from the `i`th up to the `j`th, with colons between them. */
  function Fields(src: seq<Byte>, i: nat, j: nat): string
    requires |src| == 16 && j <= 8
  {
    if i >= j then []
    else if i + 1 == j then Field(src[2 * j - 2], src[2 * j - 1])
    else Fields(src, i, j - 1) + [':'] + Field(src[2 * j - 2], src[2 * j - 1])
  }

  predicate IsZero(src: seq<Byte>, k: nat)
    requires |src| == 16 && k < 8
  {
    src[2 * k] == 0 && src[2 * k + 1] == 0
  }

  /** Section 4.2: the longest run of zero fields, but none of a single field; the first of
      those that are equally long. Looks for runs of `len` from the `base`th field on. */
  function Run(src: seq<Byte>, base: nat, len: nat): (r: Option<(nat, nat)>)
    requires |src| == 16
    ensures r.Some? ==> r.value.0 + r.value.1 <= 8
    decreases len, 9 - base
  {
    if len < 2 then None
    else if base + len > 8 then Run(src, 0, len - 1)
    else if forall k :: base <= k < base + len ==> IsZero(src, k) then Some((base, len))
    else Run(src, base + 1, len)
  }

  /** Section 5: the last four bytes in decimal, for addresses that carry one of IPv4 in the
      forms of section 2.5.5 of RFC 4291. */
  function Text(src: seq<Byte>): string
    requires |src| == 16
  {
    match Run(src, 0, 8)
    case None => Fields(src, 0, 8)
    case Some((i, n)) =>
      var tail := Dotted(src[12], src[13], src[14], src[15]);
      if i == 0 && n == 6 then "::" + tail
      else if i == 0 && n == 5 && src[10] == 255 && src[11] == 255 then "::ffff:" + tail
      else Fields(src, 0, i) + "::" + Fields(src, i + n, 8)
  }
}
