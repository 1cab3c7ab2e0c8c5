/** What texts of IPv6 addresses mean, written from section 2.2 of RFC 4291 and apart from
    any parser: what is read elsewhere is measured against it. */
module Rfc4291 {
  import opened Common
  import Rfc5952

  predicate IsHex(c: char) {
    '0' <= c <= '9' || 'a' <= c <= 'f' || 'A' <= c <= 'F'
  }

  function HexValue(c: char): int {
    if c <= '9' then c as int - 48 else if c <= 'F' then c as int - 55 else c as int - 87
  }

  /** How many hexadecimal digits a text starts with. */
  function Lead(s: string): (k: nat)
    ensures k <= |s| && (forall i :: 0 <= i < k ==> IsHex(s[i])) && (k < |s| ==> !IsHex(s[k]))
  {
    if s == [] || !IsHex(s[0]) then 0 else 1 + Lead(s[1..])
  }

  function Value(digits: string): int {
    if digits == [] then 0 else 16 * Value(digits[..|digits| - 1]) + HexValue(digits[|digits| - 1])
  }

  /** The two bytes of a field. */
  function Field(digits: string): seq<Byte> {
    [Value(digits) / 256 % 256, Value(digits) % 256]
  }

  /** Fields of one to four digits with colons between them; in place of the last two there
      may be an IPv4 address in decimal. */
  predicate Words(s: string, bytes: seq<Byte>)
    decreases |s|
  {
    var k := Lead(s);
    if k == |s| then 1 <= k <= 4 && bytes == Field(s)
    else if s[k] == ':' then
      && 1 <= k <= 4 && k + 1 < |s| && |bytes| >= 2
      && bytes[..2] == Field(s[..k]) && Words(s[k + 1..], bytes[2..])
    else |bytes| == 4 && s == Rfc5952.Dotted(bytes[0], bytes[1], bytes[2], bytes[3])
  }

  predicate Side(s: string, bytes: seq<Byte>) {
    if s == [] then bytes == [] else Words(s, bytes)
  }

  /** Two colons, once, stand for as many zero fields as there is room for, at least one. */
  predicate Shortened(left: string, l: seq<Byte>, right: string, r: seq<Byte>, address: seq<Byte>) {
    && Side(left, l) && '.' !in left && Side(right, r)
    && |l| + |r| < 16 && address == l + seq(16 - |l| - |r|, _ => 0) + r
  }

  ghost predicate Denotes(s: string, address: seq<Byte>) {
    || (|address| == 16 && Words(s, address))
    || exists left: string, l: seq<Byte>, right: string, r: seq<Byte> ::
         s == left + "::" + right && Shortened(left, l, right, r, address)
  }
}
