/** Well-formed UTF-8, as `core::str::from_utf8` accepts it, and the character classes the address codec needs. */
module Utf8 {
  import opened Bytes

  /** One character: its code point and the number of bytes it takes. */
  datatype Char = Char(code: nat, width: nat)

  predicate Continues(b: Byte) {
    0x80 <= b < 0xc0
  }

  /** The width a lead byte announces; 0 for a byte that cannot start a character. */
  function Width(b: Byte): nat {
    if b < 0x80 then 1
    else if b < 0xc2 then 0
    else if b < 0xe0 then 2
    else if b < 0xf0 then 3
    else if b < 0xf5 then 4
    else 0
  }

  /** The second byte may not make the form overlong, a surrogate, or too large. */
  predicate SecondOk(lead: Byte, second: Byte) {
    && Continues(second)
    && (lead == 0xe0 ==> second >= 0xa0)
    && (lead == 0xed ==> second < 0xa0)
    && (lead == 0xf0 ==> second >= 0x90)
    && (lead == 0xf4 ==> second < 0x90)
  }

  /** Appends the six payload bits of a continuation byte. */
  function Group(high: nat, b: Byte): nat
    requires Continues(b)
  {
    high * 64 + (b - 0x80)
  }

  function First(s: seq<Byte>): (r: Option<Char>)
    requires s != []
    ensures r.Some? ==> 1 <= r.value.width <= |s|
  {
    var w := Width(s[0]);
    if w == 1 then Some(Char(s[0], 1))
    else if w == 0 || |s| < w || !SecondOk(s[0], s[1]) then None
    else if w == 2 then Some(Char(Group(s[0] - 0xc0, s[1]), 2))
    else if !Continues(s[2]) then None
    else if w == 3 then Some(Char(Group(Group(s[0] - 0xe0, s[1]), s[2]), 3))
    else if !Continues(s[3]) then None
    else Some(Char(Group(Group(Group(s[0] - 0xf0, s[1]), s[2]), s[3]), 4))
  }

  predicate Valid(s: seq<Byte>)
    decreases |s|
  {
    s == [] || (First(s).Some? && Valid(s[First(s).value.width..]))
  }

  /** The Unicode White_Space property. */
  predicate IsWhitespace(c: nat) {
    || 0x09 <= c <= 0x0d || c == 0x20 || c == 0x85 || c == 0xa0 || c == 0x1680
    || 0x2000 <= c <= 0x200a || c == 0x2028 || c == 0x2029 || c == 0x202f || c == 0x205f || c == 0x3000
  }

  /** The general category Cc. */
  predicate IsControl(c: nat) {
    c < 0x20 || 0x7f <= c <= 0x9f
  }

  /** Neither slash, whitespace nor control character anywhere. */
  predicate Printable(s: seq<Byte>)
    requires Valid(s)
    decreases |s|
  {
    s == [] ||
    (var c := First(s).value;
     c.code != 0x2f && !IsWhitespace(c.code) && !IsControl(c.code) && Printable(s[c.width..]))
  }

  /** An ASCII byte is never part of a longer character, so text can be cut at it. */
  lemma {:induction false} ValidSplit(a: seq<Byte>, ascii: Byte, b: seq<Byte>)
    requires ascii < 0x80 && Valid(a + [ascii] + b)
    ensures Valid(a) && Valid(b)
    decreases |a|
  {
    var s := a + [ascii] + b;
    var w := First(s).value.width;
    if a == [] {
      assert s[1..] == b;
    } else {
      assert s[|a|] == ascii && !Continues(ascii);
      assert w <= |a|;
      assert forall i | 0 <= i < w :: s[i] == a[i];
      assert First(a) == First(s);
      assert s[w..] == a[w..] + [ascii] + b;
      ValidSplit(a[w..], ascii, b);
    }
  }
}
