/** Hexadecimal text for byte strings. */
module Base16 {
  import opened Primitives
  import opened Bytes

  /** The lower-case digit for a value. */
  function Digit(d: nat): char
    requires d < 16
  {
    if d < 10 then '0' + d as char else 'a' + (d - 10) as char
  }

  predicate IsDigit(c: char) {
    '0' <= c <= '9' || 'a' <= c <= 'f'
  }

  /** The value of a hexadecimal digit, in either case. */
  function DigitValue(c: char): Option<nat> {
    if '0' <= c <= '9' then Some(c as int - '0' as int)
    else if 'a' <= c <= 'f' then Some(c as int - 'a' as int + 10)
    else if 'A' <= c <= 'F' then Some(c as int - 'A' as int + 10)
    else None
  }

  // ---------------------------------------------------------------------------------------------
  // Writing
  // ---------------------------------------------------------------------------------------------

  function HexOf(b: Byte): seq<char> {
    [Digit(b / 16), Digit(b % 16)]
  }

  /** Spells a byte string byte by byte. */
  function Spell(f: Byte -> seq<char>, bin: seq<Byte>): seq<char> {
    if bin == [] then [] else Spell(f, bin[..|bin| - 1]) + f(bin[|bin| - 1])
  }

  lemma {:induction false} SpellSnoc(f: Byte -> seq<char>, bin: seq<Byte>, b: Byte)
    ensures Spell(f, bin + [b]) == Spell(f, bin) + f(b)
  {
    assert (bin + [b])[..|bin|] == bin;
  }

  lemma {:induction false} SpellLast(f: Byte -> seq<char>, a: seq<Byte>, init: seq<Byte>, last: Byte)
    ensures Spell(f, a + (init + [last])) == Spell(f, a + init) + f(last)
  {
    assert a + (init + [last]) == (a + init) + [last];
    SpellSnoc(f, a + init, last);
  }

  lemma {:induction false} SpellAppend(f: Byte -> seq<char>, a: seq<Byte>, b: seq<Byte>)
    ensures Spell(f, a + b) == Spell(f, a) + Spell(f, b)
  {
    if b == [] {
      assert a + b == a;
    } else {
      var init, last := b[..|b| - 1], b[|b| - 1];
      SpellAppend(f, a, init);
      SpellLast(f, a, init, last);
      assert b == init + [last];
      assert Spell(f, a) + (Spell(f, init) + f(last)) == Spell(f, a) + Spell(f, init) + f(last);
    }
  }

  function Hex(bin: seq<Byte>): seq<char> {
    Spell(HexOf, bin)
  }

  lemma {:induction false} HexSnoc(bin: seq<Byte>, b: Byte)
    ensures Hex(bin + [b]) == Hex(bin) + HexOf(b)
  {
    SpellSnoc(HexOf, bin, b);
  }

  lemma {:induction false} HexLength(bin: seq<Byte>)
    ensures |Hex(bin)| == 2 * |bin|
  {
    if bin != [] { HexLength(bin[..|bin| - 1]); }
  }

  method FromBin(bin: seq<Byte>) returns (s: seq<char>)
    ensures s == Hex(bin)
  {
    s := [];
    for i := 0 to |bin|
      invariant s == Hex(bin[..i])
    {
      var upper, lower := bin[i] / 16, bin[i] % 16;
      HexSnoc(bin[..i], bin[i]);
      s := s + [Digit(upper)];
      s := s + [Digit(lower)];
      assert bin[..i + 1] == bin[..i] + [bin[i]];
    }
    assert bin[..|bin|] == bin;
  }

  // ---------------------------------------------------------------------------------------------
  // Reading
  // ---------------------------------------------------------------------------------------------

  /** One or two characters as a byte; a leading plus sign is accepted before a digit. */
  function Segment(s: seq<char>): Option<Byte>
    requires 1 <= |s| <= 2
  {
    var last := DigitValue(s[|s| - 1]);
    if last.None? then None
    else if |s| == 1 || s[0] == '+' then Some(last.value)
    else if DigitValue(s[0]).None? then None
    else Some(DigitValue(s[0]).value * 16 + last.value)
  }

  /** The bytes a text spells, two characters to a byte from the end. */
  function Parse(s: seq<char>): Option<seq<Byte>> {
    if s == [] then Some([])
    else
      var cut := if |s| == 1 then 0 else |s| - 2;
      var front, last := Parse(s[..cut]), Segment(s[cut..]);
      if front.None? || last.None? then None else Some(front.value + [last.value])
  }

  function WithoutPrefix(s: seq<char>): seq<char> {
    if |s| >= 3 && s[..2] == ['0', 'x'] then s[2..] else s
  }

  function Then(front: Option<seq<Byte>>, back: seq<Byte>): Option<seq<Byte>> {
    if front.None? then None else Some(front.value + back)
  }

  lemma {:induction false} ThenNothing(front: Option<seq<Byte>>, back: seq<Byte>)
    ensures Then(front, []) == front && Then(Some([]), back) == Some(back)
  {
    if front.Some? { assert front.value + [] == front.value; }
    assert [] + back == back;
  }

  /** Taking the last one or two characters off what is left to read. */
  lemma {:induction false} ParseCut(s: seq<char>, i: nat, back: seq<Byte>)
    requires 0 < i <= |s|
    ensures var cut := if i == 1 then 0 else i - 2; var last := Segment(s[cut..i]);
            Then(Parse(s[..i]), back) == if last.None? then None else Then(Parse(s[..cut]), [last.value] + back)
  {
    var cut := if i == 1 then 0 else i - 2;
    assert s[..i][..cut] == s[..cut] && s[..i][cut..] == s[cut..i];
    var front, last := Parse(s[..cut]), Segment(s[cut..i]);
    if front.Some? && last.Some? { assert (front.value + [last.value]) + back == front.value + ([last.value] + back); }
  }

  /** Reads hexadecimal text, with or without a prefix; `None` is the error. */
  method ToBin(base16: seq<char>) returns (r: Option<seq<Byte>>)
    ensures r == if base16 == [] then None else Parse(WithoutPrefix(base16))
  {
    var s, i: int := base16, |base16|;
    if i >= 3 && s[0..2] == ['0', 'x'] {
      s := s[2..];
      i := i - 2;
    }
    if i <= 0 { return None; }
    r := ReadBackwards(s);
  }

  /** Two characters at a time from the end of the text. */
  method ReadBackwards(s: seq<char>) returns (r: Option<seq<Byte>>)
    ensures r == Parse(s)
  {
    var i: int := |s|;
    var result: seq<Byte> := [];
    ghost var rest: nat := |s|;
    assert s[..rest] == s;
    ThenNothing(Parse(s), []);
    while i > 0
      invariant rest == (if i < 0 then 0 else i) <= |s| && Parse(s) == Then(Parse(s[..rest]), Reversed(result))
    {
      ParseCut(s, i, Reversed(result));
      var from := if i - 2 > 0 then i - 2 else 0;
      var value := Segment(s[from..i]);
      if value.None? { return None; }
      PushReversed(result, value.value);
      result := result + [value.value];
      i, rest := i - 2, from;
    }
    ThenNothing(None, Reversed(result));
    assert s[..0] == [];
    r := Some(Reversed(result));
  }

  lemma {:induction false} PushReversed(b: seq<Byte>, x: Byte)
    ensures Reversed(b + [x]) == [x] + Reversed(b)
  {
  }

  // ---------------------------------------------------------------------------------------------
  // Round trips
  // ---------------------------------------------------------------------------------------------

  predicate LowerHex(s: seq<char>) {
    forall i :: 0 <= i < |s| ==> IsDigit(s[i])
  }

  lemma {:induction false} DigitRoundTrip(d: nat)
    requires d < 16
    ensures DigitValue(Digit(d)) == Some(d) && Digit(d) != 'x' && Digit(d) != '+'
  {
  }

  /** The digits, and that capitals are read too. */
  lemma {:induction false} DigitMeans(d: nat, c: char)
    requires d < 16
    ensures Digit(d) == "0123456789abcdef"[d]
    ensures DigitValue("0123456789abcdef"[d]) == Some(d) && DigitValue("0123456789ABCDEF"[d]) == Some(d)
    ensures DigitValue(c).Some? ==> '0' <= c <= '9' || 'a' <= c <= 'f' || 'A' <= c <= 'F'
  {
  }

  /** A byte is written as its high digit and its low digit. */
  lemma {:induction false} HexMeans(bin: seq<Byte>, i: nat)
    requires i < |bin|
    ensures |Hex(bin)| == 2 * |bin|
    ensures Hex(bin)[2 * i] == "0123456789abcdef"[bin[i] / 16] && Hex(bin)[2 * i + 1] == "0123456789abcdef"[bin[i] % 16]
  {
    var n := |bin| - 1;
    HexLength(bin);
    HexLength(bin[..n]);
    DigitMeans(bin[n] / 16, '0');
    DigitMeans(bin[n] % 16, '0');
    if i < n { HexMeans(bin[..n], i); }
  }

  /** Two characters read as a byte: two digits, or a plus sign and a digit. */
  lemma {:induction false} SegmentMeans(c: char, d: char, v: Byte)
    ensures Segment([c, d]) == Some(v) <==>
            DigitValue(d).Some? && ((c == '+' && v == DigitValue(d).value)
                                    || (c != '+' && DigitValue(c).Some? && v == 16 * DigitValue(c).value + DigitValue(d).value))
    ensures Segment([d]) == Some(v) <==> DigitValue(d) == Some(v)
  {
  }

  /** A front `0x` is taken off when something follows. */
  lemma {:induction false} PrefixMeans(s: seq<char>)
    ensures s != [] ==> WithoutPrefix(['0', 'x'] + s) == s
    ensures WithoutPrefix(['0', 'x']) == ['0', 'x']
    ensures |s| < 2 || s[0] != '0' || s[1] != 'x' ==> WithoutPrefix(s) == s
  {
    assert (['0', 'x'] + s)[..2] == ['0', 'x'];
  }

  lemma {:induction false} DigitBack(c: char)
    requires IsDigit(c)
    ensures DigitValue(c).Some? && DigitValue(c).value < 16 && Digit(DigitValue(c).value) == c && c != '+'
  {
  }

  lemma {:induction false} ParseSnoc(s: seq<char>, c: char, d: char)
    requires Parse(s).Some? && Segment([c, d]).Some?
    ensures Parse(s + [c, d]) == Some(Parse(s).value + [Segment([c, d]).value])
  {
    assert (s + [c, d])[..|s|] == s && (s + [c, d])[|s|..] == [c, d];
  }

  lemma {:induction false} SegmentHex(b: Byte)
    ensures Segment(HexOf(b)) == Some(b)
  {
    DigitRoundTrip(b / 16);
    DigitRoundTrip(b % 16);
  }

  /** Reading what was written gives the bytes back. */
  lemma {:induction false} ParseHex(bin: seq<Byte>)
    ensures Parse(Hex(bin)) == Some(bin)
  {
    if bin != [] {
      var n := |bin| - 1;
      ParseHex(bin[..n]);
      SegmentHex(bin[n]);
      ParseSnoc(Hex(bin[..n]), Digit(bin[n] / 16), Digit(bin[n] % 16));
      HexSnoc(bin[..n], bin[n]);
      assert bin[..n] + [bin[n]] == bin;
    }
  }

  lemma {:induction false} HexSegment(c: char, d: char)
    requires IsDigit(c) && IsDigit(d)
    ensures Segment([c, d]).Some? && HexOf(Segment([c, d]).value) == [c, d]
  {
    DigitBack(c);
    DigitBack(d);
  }

  /** Writing what was read gives the text back, for lower-case text of even length. */
  lemma {:induction false} HexParse(s: seq<char>)
    requires LowerHex(s) && |s| % 2 == 0
    ensures Parse(s).Some? && Hex(Parse(s).value) == s
  {
    if s != [] {
      var cut := |s| - 2;
      var init, c, d := s[..cut], s[cut], s[cut + 1];
      HexParse(init);
      HexSegment(c, d);
      assert s == init + [c, d];
      ParseSnoc(init, c, d);
      HexSnoc(Parse(init).value, Segment([c, d]).value);
    }
  }

  lemma {:induction false} HexHasNoPrefix(bin: seq<Byte>)
    requires bin != []
    ensures WithoutPrefix(Hex(bin)) == Hex(bin) && WithoutPrefix(['0', 'x'] + Hex(bin)) == Hex(bin)
  {
    HexLength(bin);
    HexLower(bin, 1);
    var s := Hex(bin);
    assert (['0', 'x'] + s)[2..] == s;
  }

  lemma {:induction false} HexLower(bin: seq<Byte>, i: nat)
    requires i < |Hex(bin)|
    ensures IsDigit(Hex(bin)[i]) && Hex(bin)[i] != 'x'
  {
    var n := |bin| - 1;
    HexLength(bin);
    HexLength(bin[..n]);
    if i < 2 * n {
      HexLower(bin[..n], i);
    } else {
      DigitRoundTrip(bin[n] / 16);
      DigitRoundTrip(bin[n] % 16);
    }
  }

  /** Every non-empty byte string survives being written and read, with or without a prefix. */
  method WriteAndRead(bin: seq<Byte>, prefix: bool) returns (r: Option<seq<Byte>>)
    requires bin != []
    ensures r == Some(bin)
  {
    var s := FromBin(bin);
    HexHasNoPrefix(bin);
    ParseHex(bin);
    r := ToBin(if prefix then ['0', 'x'] + s else s);
  }

  // ---------------------------------------------------------------------------------------------
  // What a text means
  // ---------------------------------------------------------------------------------------------

  predicate AllDigits(s: seq<char>) {
    forall i :: 0 <= i < |s| ==> DigitValue(s[i]).Some?
  }

  /** The number written in base 16. */
  function Number(s: seq<char>): nat
    requires AllDigits(s)
  {
    if s == [] then 0 else 16 * Number(s[..|s| - 1]) + DigitValue(s[|s| - 1]).value
  }

  lemma {:induction false} NumberTwo(s: seq<char>)
    requires AllDigits(s) && |s| >= 2
    ensures var cut := |s| - 2; Segment(s[cut..]).Some? && Number(s) == 256 * Number(s[..cut]) + Segment(s[cut..]).value
  {
    var cut := |s| - 2;
    var init := s[..|s| - 1];
    assert init[..cut] == s[..cut];
    assert Number(init) == 16 * Number(s[..cut]) + DigitValue(s[cut]).value;
  }

  lemma {:induction false} ReadSnoc(b: seq<Byte>, x: Byte)
    ensures ReadBE(b + [x]) == 256 * ReadBE(b) + x
  {
    PushReversed(b, x);
    assert ([x] + Reversed(b))[1..] == Reversed(b);
  }

  /** A text of digits is always read, as the bytes of the number it denotes. */
  lemma {:induction false} ParseMeans(s: seq<char>)
    requires AllDigits(s)
    ensures Parse(s).Some? && |Parse(s).value| == (|s| + 1) / 2 && ReadBE(Parse(s).value) == Number(s)
  {
    if |s| == 1 {
      assert s[..0] == [] && s[0..] == s && Number(s[..0]) == 0;
      ReadSnoc([], Segment(s).value);
    } else if |s| >= 2 {
      var cut := |s| - 2;
      ParseMeans(s[..cut]);
      NumberTwo(s);
      ReadSnoc(Parse(s[..cut]).value, Segment(s[cut..]).value);
    }
  }
}
