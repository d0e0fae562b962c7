/**
 Unpadded base32 (crates/identity/src/peer_id.rs): bits are regrouped from eights to fives
 and back through a small bit buffer.
 */
module Base32 {
  import opened Bytes
  import opened Radix

  function Pow2(n: nat): (p: nat)
    ensures p >= 1
  {
    PowMonotone(2, n, n);
    Pow(2, n)
  }

  lemma Pow2Add(a: nat, b: nat)
    ensures Pow2(a + b) == Pow2(a) * Pow2(b)
  {
    PowAdd(2, a, b);
  }

  /** `p` shifted left to make room for `d` below `base`. */
  function Join(p: nat, base: nat, d: nat): nat {
    p * base + d
  }

  function Top(acc: nat, low: nat): nat
    requires low >= 1
  {
    acc / low
  }

  function Rest(acc: nat, low: nat): nat
    requires low >= 1
  {
    acc % low
  }

  /** The number with leading part `p` continued by the digits `s`. */
  function Number(p: nat, s: seq<nat>, base: nat): nat
    decreases |s|
  {
    if s == [] then p else Number(Join(p, base, s[0]), s[1..], base)
  }

  /** Complete groups, and the bits still in the buffer. */
  datatype Groups = Groups(out: seq<nat>, acc: nat, bits: nat)

  /** Moves `win`-bit digits through the buffer and emits every complete `wout`-bit group. */
  function Regroup(s: seq<nat>, win: nat, wout: nat, acc: nat, bits: nat): (g: Groups)
    requires wout > 0
    ensures g.bits < wout
    decreases |s|, bits
  {
    if bits >= wout then
      var rest := Regroup(s, win, wout, Rest(acc, Pow2(bits - wout)), bits - wout);
      rest.(out := [Top(acc, Pow2(bits - wout))] + rest.out)
    else if s == [] then Groups([], acc, bits)
    else Regroup(s[1..], win, wout, Join(acc, Pow2(win), s[0]), bits + win)
  }

  lemma Monotone(a: nat, b: nat, c: nat)
    requires a <= b
    ensures a * c <= b * c
  {
  }

  lemma Successor(a: nat, c: nat)
    ensures (a + 1) * c == a * c + c
  {
  }

  lemma CutJoin(acc: nat, low: nat)
    requires low >= 1
    ensures Join(Top(acc, low), low, Rest(acc, low)) == acc && Rest(acc, low) < low
  {
  }

  lemma TopBound(acc: nat, low: nat, high: nat)
    requires low >= 1 && acc < high * low
    ensures Top(acc, low) < high
  {
    CutJoin(acc, low);
    if Top(acc, low) >= high {
      Monotone(high, Top(acc, low), low);
    }
  }

  lemma JoinAssociates(p: nat, x: nat, a: nat, y: nat, b: nat)
    ensures Join(Join(p, x, a), y, b) == Join(p, x * y, Join(a, y, b))
  {
    calc {
      (p * x + a) * y + b;
      (p * x) * y + a * y + b;
      { assert (p * x) * y == p * (x * y); }
      p * (x * y) + (a * y + b);
    }
  }

  lemma JoinBound(a: nat, x: nat, y: nat, b: nat)
    requires a < x && b < y
    ensures Join(a, y, b) < x * y
  {
    Monotone(a + 1, x, y);
    Successor(a, y);
  }

  lemma JoinCount(n: nat, width: nat, bits: nat)
    ensures Join(n + 1, width, bits) == Join(n, width, bits + width)
  {
    Successor(n, width);
  }

  /** Regrouping loses no bit: the emitted groups and the buffer hold the number read. */
  lemma {:induction false} RegroupKeeps(s: seq<nat>, win: nat, wout: nat, acc: nat, bits: nat, p: nat)
    requires wout > 0 && acc < Pow2(bits) && Digits(s, Pow2(win))
    ensures var g := Regroup(s, win, wout, acc, bits);
            && g.acc < Pow2(g.bits) && Digits(g.out, Pow2(wout))
            && Number(Join(p, Pow2(bits), acc), s, Pow2(win)) == Join(Number(p, g.out, Pow2(wout)), Pow2(g.bits), g.acc)
    decreases |s|, bits
  {
    hide Join, Top, Rest, Pow2;
    if bits >= wout {
      var low := Pow2(bits - wout);
      Pow2Add(wout, bits - wout);
      TopBound(acc, low, Pow2(wout));
      CutJoin(acc, low);
      JoinAssociates(p, Pow2(wout), Top(acc, low), low, Rest(acc, low));
      RegroupKeeps(s, win, wout, Rest(acc, low), bits - wout, Join(p, Pow2(wout), Top(acc, low)));
      var rest := Regroup(s, win, wout, Rest(acc, low), bits - wout);
      assert ([Top(acc, low)] + rest.out)[1..] == rest.out;
    } else if s != [] {
      Pow2Add(bits, win);
      JoinAssociates(p, Pow2(bits), acc, Pow2(win), s[0]);
      JoinBound(acc, Pow2(bits), Pow2(win), s[0]);
      RegroupKeeps(s[1..], win, wout, Join(acc, Pow2(win), s[0]), bits + win, p);
    }
  }

  lemma {:induction false} RegroupCounts(s: seq<nat>, win: nat, wout: nat, acc: nat, bits: nat)
    requires wout > 0
    ensures var g := Regroup(s, win, wout, acc, bits); Join(|s|, win, bits) == Join(|g.out|, wout, g.bits)
    decreases |s|, bits
  {
    hide Top, Rest, Pow2;
    if bits >= wout {
      var low := Pow2(bits - wout);
      RegroupCounts(s, win, wout, Rest(acc, low), bits - wout);
      hide Join;
      var rest := Regroup(s, win, wout, Rest(acc, low), bits - wout);
      JoinCounts(|s|, win, bits - wout, wout, |rest.out|, rest.bits);
    } else if s != [] {
      hide Join;
      RegroupCounts(s[1..], win, wout, Join(acc, Pow2(win), s[0]), bits + win);
      JoinCount(|s[1..]|, win, bits);
    }
  }

  lemma JoinCounts(n: nat, win: nat, bits: nat, wout: nat, m: nat, rest: nat)
    requires Join(n, win, bits) == Join(m, wout, rest)
    ensures Join(n, win, bits + wout) == Join(m + 1, wout, rest)
  {
    Successor(m, wout);
  }

  function ToDigits(input: seq<Byte>): (d: seq<nat>)
    ensures d == input && Digits(d, 256)
  {
    seq(|input|, i requires 0 <= i < |input| => input[i])
  }

  /** The five-bit groups of the text; a last partial group is filled up with zero bits. */
  function EncodeGroups(input: seq<Byte>): seq<nat> {
    var g := Regroup(ToDigits(input), 8, 5, 0, 0);
    if g.bits == 0 then g.out else g.out + [Join(g.acc, Pow2(5 - g.bits), 0) % 32]
  }

  function DecodeGroups(values: seq<nat>): seq<nat> {
    Regroup(values, 5, 8, 0, 0).out
  }

  lemma {:induction false} NumberSnoc(p: nat, s: seq<nat>, x: nat, base: nat)
    ensures Number(p, s + [x], base) == Join(Number(p, s, base), base, x)
    decreases |s|
  {
    hide Join;
    if s == [] {
      assert s + [x] == [x] && [x][1..] == [];
    } else {
      assert (s + [x])[1..] == s[1..] + [x];
      NumberSnoc(Join(p, base, s[0]), s[1..], x, base);
    }
  }

  /** Digit strings of one length are told apart by their numbers. */
  lemma {:induction false} NumberUnique(x: seq<nat>, y: seq<nat>, base: nat)
    requires |x| == |y| && Digits(x, base) && Digits(y, base) && Number(0, x, base) == Number(0, y, base)
    ensures x == y
    decreases |x|
  {
    hide Join;
    if x != [] {
      var n := |x| - 1;
      assert x == x[..n] + [x[n]] && y == y[..n] + [y[n]];
      NumberSnoc(0, x[..n], x[n], base);
      NumberSnoc(0, y[..n], y[n], base);
      JoinUnique(Number(0, x[..n], base), x[n], Number(0, y[..n], base), y[n], base);
      NumberUnique(x[..n], y[..n], base);
    }
  }

  lemma JoinUnique(p: nat, a: nat, q: nat, b: nat, base: nat)
    requires a < base && b < base && Join(p, base, a) == Join(q, base, b)
    ensures p == q && a == b
  {
    if p < q {
      Monotone(p + 1, q, base);
      Successor(p, base);
    } else if q < p {
      Monotone(q + 1, p, base);
      Successor(q, base);
    }
  }

  lemma Widths()
    ensures Pow2(8) == 256 && Pow2(5) == 32
  {
  }

  /** What the encoder wrote: the number, shifted left by the padding. */
  lemma EncodeNumber(input: seq<Byte>)
    ensures Digits(EncodeGroups(input), 32)
    ensures var pad := 5 * |EncodeGroups(input)| - 8 * |input|;
            0 <= pad < 5 && Number(0, EncodeGroups(input), 32) == Join(Number(0, ToDigits(input), 256), Pow2(pad), 0)
  {
    Widths();
    var g := Regroup(ToDigits(input), 8, 5, 0, 0);
    RegroupKeeps(ToDigits(input), 8, 5, 0, 0, 0);
    RegroupCounts(ToDigits(input), 8, 5, 0, 0);
    assert Join(0, Pow2(0), 0) == 0;
    var n, pad := Number(0, g.out, 32), 5 - g.bits;
    hide Regroup, Number;
    if g.bits == 0 {
      assert Pow2(0) == 1;
    } else {
      Pow2Add(g.bits, pad);
      hide Pow2;
      LastGroup(g.acc, Pow2(g.bits), Pow2(pad));
      hide Join;
      NumberSnoc(0, g.out, Join(g.acc, Pow2(pad), 0) % 32, 32);
      JoinAssociates(n, Pow2(g.bits), g.acc, Pow2(pad), 0);
    }
  }

  lemma LastGroup(acc: nat, held: nat, pad: nat)
    requires acc < held && held * pad == 32 && pad >= 1
    ensures Join(acc, pad, 0) % 32 == Join(acc, pad, 0)
  {
    JoinBound(acc, held, pad, 0);
  }

  /** Decoding the groups of any byte string gives the bytes back. */
  lemma GroupsRoundTrip(input: seq<Byte>)
    ensures DecodeGroups(EncodeGroups(input)) == input
  {
    Widths();
    EncodeNumber(input);
    var v := EncodeGroups(input);
    var pad := 5 * |v| - 8 * |input|;
    var g := Regroup(v, 5, 8, 0, 0);
    RegroupKeeps(v, 5, 8, 0, 0, 0);
    RegroupCounts(v, 5, 8, 0, 0);
    assert Join(0, Pow2(0), 0) == 0;
    hide Number, Regroup, EncodeGroups, Pow2;
    assert |g.out| == |input| && g.bits == pad;
    JoinUnique(Number(0, g.out, 256), g.acc, Number(0, ToDigits(input), 256), 0, Pow2(pad));
    NumberUnique(g.out, ToDigits(input), 256);
  }

  // ---- characters ----

  function Letter(v: nat): (c: char)
    requires v < 32
    ensures CharValue(c) == Some(v)
  {
    if v < 26 then ('a' as int + v) as char else ('2' as int + (v - 26)) as char
  }

  /** `base32_value`: upper and lower case count alike. */
  function CharValue(c: char): (r: Option<nat>)
    ensures r.Some? ==> r.value < 32
  {
    if 'a' <= c <= 'z' then Some(c as int - 'a' as int)
    else if 'A' <= c <= 'Z' then Some(c as int - 'A' as int)
    else if '2' <= c <= '7' then Some(26 + c as int - '2' as int)
    else None
  }

  function Letters(d: seq<nat>): (s: string)
    requires Digits(d, 32)
    ensures |s| == |d| && forall i | 0 <= i < |d| :: s[i] == Letter(d[i])
  {
    seq(|d|, i requires 0 <= i < |d| => Letter(d[i]))
  }

  function Encode(input: seq<Byte>): string {
    EncodeNumber(input);
    Letters(EncodeGroups(input))
  }

  datatype TextError = InvalidCharacter(character: char, index: nat)

  function Values(s: string, index: nat): (r: Result<seq<nat>, TextError>)
    ensures r.Ok? ==> |r.value| == |s| && Digits(r.value, 32)
  {
    if s == [] then Ok([])
    else if CharValue(s[0]).None? then Err(InvalidCharacter(s[0], index))
    else
      match Values(s[1..], index + 1)
      case Err(e) => Err(e)
      case Ok(rest) => Ok([CharValue(s[0]).value] + rest)
  }

  function AsBytes(d: seq<nat>): (b: seq<Byte>)
    requires Digits(d, 256)
    ensures b == d
  {
    seq(|d|, i requires 0 <= i < |d| => d[i])
  }

  function Decode(s: string): Result<seq<Byte>, TextError> {
    match Values(s, 0)
    case Err(e) => Err(e)
    case Ok(values) =>
      Widths();
      RegroupKeeps(values, 5, 8, 0, 0, 0);
      Ok(AsBytes(DecodeGroups(values)))
  }

  lemma {:induction false} ValuesOfLetters(d: seq<nat>, index: nat)
    requires Digits(d, 32)
    ensures Values(Letters(d), index) == Ok(d)
  {
    if d != [] {
      assert Letters(d)[1..] == Letters(d[1..]);
      ValuesOfLetters(d[1..], index + 1);
      assert [d[0]] + d[1..] == d;
    }
  }

  lemma DecodeEncode(input: seq<Byte>)
    ensures Decode(Encode(input)) == Ok(input)
  {
    EncodeNumber(input);
    ValuesOfLetters(EncodeGroups(input), 0);
    GroupsRoundTrip(input);
  }

  // ---- which texts are encodings ----

  /** The characters the encoder writes. */
  predicate Lower(c: char) {
    'a' <= c <= 'z' || '2' <= c <= '7'
  }

  /** The bits of the text beyond its last whole byte. */
  function Spare(s: string): nat {
    5 * |s| % 8
  }

  /** Lower case, no character more than the bytes need, and no bit set beyond them. */
  predicate Canonical(s: string) {
    && (forall i | 0 <= i < |s| :: Lower(s[i]))
    && Spare(s) < 5
    && (s != [] ==> CharValue(s[|s| - 1]).value % Pow2(Spare(s)) == 0)
  }

  lemma {:induction false} ValuesAccepts(s: string, index: nat)
    ensures Values(s, index).Ok? <==> forall c | c in s :: CharValue(c).Some?
    ensures Values(s, index).Ok? ==> forall i | 0 <= i < |s| :: CharValue(s[i]) == Some(Values(s, index).value[i])
  {
    hide CharValue;
    if s != [] {
      ValuesAccepts(s[1..], index + 1);
      assert forall c | c in s :: c == s[0] || c in s[1..];
    }
  }

  /** What the decoder makes of the text's groups, and what it leaves in its buffer. */
  lemma DecodeNumber(v: seq<nat>)
    requires Digits(v, 32)
    ensures var g := Regroup(v, 5, 8, 0, 0);
            && g.bits < 8 && 5 * |v| == 8 * |g.out| + g.bits && g.acc < Pow2(g.bits) && Digits(g.out, 256)
            && Number(0, v, 32) == Join(Number(0, g.out, 256), Pow2(g.bits), g.acc)
  {
    Widths();
    RegroupKeeps(v, 5, 8, 0, 0, 0);
    RegroupCounts(v, 5, 8, 0, 0);
    assert Join(0, Pow2(0), 0) == 0;
    hide Number, Regroup, Pow2;
  }

  /** The bits left in the buffer are the low bits of the last character. */
  lemma SpareBits(v: seq<nat>)
    requires Digits(v, 32) && v != []
    ensures var g := Regroup(v, 5, 8, 0, 0); g.bits < 5 ==> g.acc == v[|v| - 1] % Pow2(g.bits)
  {
    DecodeNumber(v);
    Widths();
    var g := Regroup(v, 5, 8, 0, 0);
    hide Number, Regroup, Pow2, Join;
    if g.bits < 5 {
      var n := |v| - 1;
      assert v == v[..n] + [v[n]];
      NumberSnoc(0, v[..n], v[n], 32);
      Pow2Add(5 - g.bits, g.bits);
      LowBits(Number(0, v[..n], 32), v[n], Pow2(5 - g.bits), Pow2(g.bits), Number(0, g.out, 256), g.acc);
    }
  }

  lemma LowBits(p: nat, last: nat, high: nat, low: nat, q: nat, acc: nat)
    requires low >= 1 && acc < low && Join(p, high * low, last) == Join(q, low, acc)
    ensures acc == last % low
  {
    CutJoin(last, low);
    JoinAssociates(p, high, Top(last, low), low, Rest(last, low));
    hide Join;
    JoinUnique(Join(p, high, Top(last, low)), Rest(last, low), q, acc, low);
  }

  /** Encoding what was decoded gives the same groups exactly when nothing is left over. */
  lemma GroupsRestored(v: seq<nat>, bytes: seq<Byte>)
    requires Digits(v, 32) && DecodeGroups(v) == bytes
    ensures var g := Regroup(v, 5, 8, 0, 0); EncodeGroups(bytes) == v <==> g.bits < 5 && g.acc == 0
  {
    DecodeNumber(v);
    EncodeNumber(bytes);
    var g, e := Regroup(v, 5, 8, 0, 0), EncodeGroups(bytes);
    assert ToDigits(bytes) == g.out;
    var pad := 5 * |e| - 8 * |bytes|;
    var n := Number(0, g.out, 256);
    hide Regroup, Number, EncodeGroups, Pow2, Join, DecodeGroups;
    if e == v {
      JoinUnique(n, g.acc, n, 0, Pow2(pad));
    } else if g.bits < 5 && g.acc == 0 {
      NumberUnique(e, v, 32);
    }
  }

  lemma SpareCount(n: nat, m: nat, bits: nat)
    requires 5 * n == 8 * m + bits && bits < 8
    ensures bits == 5 * n % 8
  {
    DivModUnique(5 * n, 8, m, bits);
  }

  /** The same, read off the characters. */
  lemma NothingLeft(s: string, v: seq<nat>)
    requires |v| == |s| && Digits(v, 32) && forall i | 0 <= i < |s| :: CharValue(s[i]) == Some(v[i])
    ensures var g := Regroup(v, 5, 8, 0, 0);
            g.bits < 5 && g.acc == 0 <==> Spare(s) < 5 && (s != [] ==> v[|v| - 1] % Pow2(Spare(s)) == 0)
  {
    DecodeNumber(v);
    var g := Regroup(v, 5, 8, 0, 0);
    SpareCount(|v|, |g.out|, g.bits);
    assert Spare(s) == g.bits;
    hide Spare, Pow2, Join, Number, CharValue, Regroup;
    if s == [] {
      EndStep(5, 8, 0, 0);
      assert v == [];
    } else {
      SpareBits(v);
    }
  }

  lemma LowerLetter(c: char)
    requires CharValue(c).Some?
    ensures Letter(CharValue(c).value) == c <==> Lower(c)
  {
  }

  /** A text is accepted if and only if all its characters are base32 digits of either case. */
  lemma DecodeAccepts(s: string)
    ensures Decode(s).Ok? <==> forall c | c in s :: CharValue(c).Some?
  {
    ValuesAccepts(s, 0);
  }

  /** An accepted text is the text of its bytes if and only if it is canonical. */
  lemma EncodeDecode(s: string)
    requires Decode(s).Ok?
    ensures Encode(Decode(s).value) == s <==> Canonical(s)
  {
    ValuesAccepts(s, 0);
    var v := Values(s, 0).value;
    var bytes := Decode(s).value;
    GroupsRestored(v, bytes);
    NothingLeft(s, v);
    EncodeNumber(bytes);
    ValuesOfLetters(EncodeGroups(bytes), 0);
    hide EncodeGroups, DecodeGroups, Regroup, Values, Pow2, Letter, CharValue, Lower, Spare;
    forall i | 0 <= i < |s|
      ensures Letter(v[i]) == s[i] <==> Lower(s[i])
    {
      LowerLetter(s[i]);
    }
  }

  /** A bit set beyond the last byte is read over: two texts, one byte string. */
  lemma SpareBitAliases()
    ensures Decode("aa") == Ok([0]) && Decode("ab") == Ok([0])
  {
    hide Regroup, AsBytes;
    TwoGroups(0);
    TwoGroups(1);
    ValuesOfLetters([0, 0], 0);
    ValuesOfLetters([0, 1], 0);
    assert Letters([0, 0]) == "aa" && Letters([0, 1]) == "ab";
    assert AsBytes([0]) == [0];
  }

  lemma TwoGroups(x: nat)
    requires x < 4
    ensures Regroup([0, x], 5, 8, 0, 0).out == [0]
  {
    Widths();
    assert Pow2(2) == 4;
    assert [0, x][1..] == [x] && [x][1..] == [];
    assert Regroup([], 5, 8, x, 2) == Groups([], x, 2);
    assert Regroup([], 5, 8, x, 10).out == [0] + [];
    assert Regroup([x], 5, 8, 0, 5) == Regroup([], 5, 8, x, 10);
  }

  // ---- the loops of the source: a 16-bit and a 32-bit buffer that are never masked ----

  /** The `bits` counted bits of the buffer. */
  function Kept(buffer: nat, bits: nat): nat {
    buffer % Pow2(bits)
  }

  /** `(buffer >> bits) & mask`. */
  function Peek(buffer: nat, bits: nat, group: nat): nat {
    buffer / Pow2(bits) % Pow2(group)
  }

  /** `(buffer << width) | digit` in a register of limited width. */
  function Push(buffer: nat, digit: nat, width: nat, register: nat): nat {
    (buffer * Pow2(width) + digit) % Pow2(register)
  }

  /** Bits above the counted ones are stale; only what lies below them is ever read. */
  lemma StaleBits(buffer: nat, bits: nat, group: nat)
    requires group <= bits
    ensures Peek(buffer, bits - group, group) == Top(Kept(buffer, bits), Pow2(bits - group))
    ensures Kept(buffer, bits - group) == Rest(Kept(buffer, bits), Pow2(bits - group))
  {
    Pow2Add(bits - group, group);
    hide Pow2;
    NestedMod(buffer, Pow2(bits - group), Pow2(group));
  }

  lemma NestedMod(x: nat, a: nat, b: nat)
    requires a >= 1 && b >= 1
    ensures a * b >= 1
    ensures x / a % b == (x % (a * b)) / a
    ensures x % a == (x % (a * b)) % a
  {
    assert a * b >= 1 by {
      Monotone(1, a, b);
    }
    var q := x / a;
    CutJoin(x, a);
    CutJoin(q, b);
    var low := Join(q % b, a, x % a);
    JoinBound(q % b, b, a, x % a);
    JoinAssociates(q / b, b, q % b, a, x % a);
    assert b * a == a * b;
    DivModUnique(x, a * b, q / b, low);
    DivModUnique(low, a, q % b, x % a);
  }

  lemma DivModUnique(x: nat, d: nat, q: nat, r: nat)
    requires d >= 1 && r < d && x == Join(q, d, r)
    ensures x / d == q && x % d == r
  {
    CutJoin(x, d);
    JoinUnique(Top(x, d), Rest(x, d), q, r, d);
  }

  /** Shifting a digit in and dropping the bits beyond the register keeps the counted bits. */
  lemma ShiftIn(buffer: nat, bits: nat, digit: nat, width: nat, register: nat)
    requires bits + width <= register && digit < Pow2(width)
    ensures Kept(Push(buffer, digit, width, register), bits + width) == Join(Kept(buffer, bits), Pow2(width), digit)
  {
    Pow2Add(bits, width);
    Pow2Add(bits + width, register - (bits + width));
    hide Pow2;
    var kept, base := Pow2(bits), Pow2(width);
    var x := Join(buffer, base, digit);
    NestedMod(x, kept * base, Pow2(register - (bits + width)));
    CutJoin(buffer, kept);
    JoinAssociates(buffer / kept, kept, buffer % kept, base, digit);
    JoinBound(buffer % kept, kept, base, digit);
    DivModUnique(x, kept * base, buffer / kept, Join(buffer % kept, base, digit));
  }

  ghost function Prefixed(done: seq<nat>, g: Groups): Groups {
    g.(out := done + g.out)
  }

  lemma EmitStep(done: seq<nat>, s: seq<nat>, win: nat, wout: nat, acc: nat, bits: nat)
    requires 0 < wout <= bits
    ensures Prefixed(done, Regroup(s, win, wout, acc, bits))
         == Prefixed(done + [Top(acc, Pow2(bits - wout))],
                     Regroup(s, win, wout, Rest(acc, Pow2(bits - wout)), bits - wout))
  {
    hide Top, Rest, Pow2;
    var rest := Regroup(s, win, wout, Rest(acc, Pow2(bits - wout)), bits - wout).out;
    var e := Top(acc, Pow2(bits - wout));
    assert done + ([e] + rest) == (done + [e]) + rest;
  }

  /** Runs `width`-bit digits through a `register`-bit buffer, emitting `group` bits at a time. */
  method RegroupLoop(s: seq<nat>, win: nat, wout: nat, register: nat)
    returns (out: seq<nat>, buffer: nat, bits: nat)
    requires (win == 8 && wout == 5 && register == 16) || (win == 5 && wout == 8 && register == 32)
    requires Digits(s, Pow2(win))
    ensures Groups(out, Kept(buffer, bits), bits) == Regroup(s, win, wout, 0, 0)
  {
    hide Pow2, Kept, Peek, Push, Join, Top, Rest, Regroup;
    out, buffer, bits := [], 0, 0;
    var i := 0;
    assert s[0..] == s;
    ghost var whole := Regroup(s, win, wout, 0, 0);
    assert [] + whole.out == whole.out;
    KeptNothing();
    while i < |s|
      invariant 0 <= i <= |s| && 0 <= bits < wout
      invariant whole == Prefixed(out, Regroup(s[i..], win, wout, Kept(buffer, bits), bits))
    {
      ShiftIn(buffer, bits, s[i], win, register);
      ConsumeStep(s, i, win, wout, Kept(buffer, bits), bits);
      buffer := Push(buffer, s[i], win, register);
      bits := bits + win;
      i := i + 1;
      while bits >= wout
        invariant 0 <= bits <= 12
        invariant whole == Prefixed(out, Regroup(s[i..], win, wout, Kept(buffer, bits), bits))
      {
        StaleBits(buffer, bits, wout);
        EmitStep(out, s[i..], win, wout, Kept(buffer, bits), bits);
        bits := bits - wout;
        out := out + [Peek(buffer, bits, wout)];
      }
    }
    EndStep(win, wout, Kept(buffer, bits), bits);
    assert s[i..] == [];
    assert out + [] == out;
  }

  lemma KeptNothing()
    ensures Kept(0, 0) == 0
  {
  }

  lemma ConsumeStep(s: seq<nat>, i: nat, win: nat, wout: nat, acc: nat, bits: nat)
    requires i < |s| && bits < wout
    ensures Regroup(s[i..], win, wout, acc, bits) == Regroup(s[i + 1..], win, wout, Join(acc, Pow2(win), s[i]), bits + win)
  {
    assert s[i..][1..] == s[i + 1..];
  }

  lemma EndStep(win: nat, wout: nat, acc: nat, bits: nat)
    requires bits < wout
    ensures Regroup([], win, wout, acc, bits) == Groups([], acc, bits)
  {
  }

  method EncodeBase32(input: seq<Byte>) returns (text: string)
    ensures text == Encode(input)
  {
    hide Pow2, Kept, Push, Join, Regroup;
    Widths();
    EncodeNumber(input);
    var out, buffer, bits := RegroupLoop(ToDigits(input), 8, 5, 16);
    if bits > 0 {
      LastBits(buffer, bits);
      out := out + [Push(buffer, 0, 5 - bits, 5)];
    }
    text := Letters(out);
  }

  /** The final shift and mask also drop the stale bits. */
  lemma LastBits(buffer: nat, bits: nat)
    requires 0 < bits < 5
    ensures Push(buffer, 0, 5 - bits, 5) == Join(Kept(buffer, bits), Pow2(5 - bits), 0) % 32
  {
    Widths();
    ShiftIn(buffer, bits, 0, 5 - bits, 5);
    hide Pow2;
    ModIdempotent(buffer * Pow2(5 - bits), 32);
    var v := Push(buffer, 0, 5 - bits, 5);
    assert Kept(v, 5) == v;
    ModIdempotent(v, 32);
  }

  lemma ModIdempotent(x: nat, d: nat)
    requires d >= 1
    ensures x % d % d == x % d
  {
  }

  method DecodeBase32(input: string) returns (r: Result<seq<Byte>, TextError>)
    ensures r == Decode(input)
  {
    Widths();
    var values := Values(input, 0);
    if values.Err? {
      return Err(values.error);
    }
    var out, _, _ := RegroupLoop(values.value, 5, 8, 32);
    RegroupKeeps(values.value, 5, 8, 0, 0, 0);
    return Ok(AsBytes(out));
  }
}
