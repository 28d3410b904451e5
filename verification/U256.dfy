/** The 256-bit unit: four 64-bit limbs, least significant first, that behave as one integer. */
module Unit256 {
  import opened Primitives
  import opened Bytes
  import Base16

  type Limbs = s: seq<U64> | |s| == 4 witness [0, 0, 0, 0]

  /** The integer that limbs stand for. */
  function Value(limbs: seq<U64>): nat {
    if limbs == [] then 0
    else
      var low: int := limbs[0];
      low + 0x1_0000_0000_0000_0000 * Value(limbs[1..])
  }

  /** Different limbs are different integers. */
  lemma {:induction false} ValueMeans(v: Limbs)
    ensures var a: int, b: int, c: int, d: int := v[0], v[1], v[2], v[3];
            Value(v) == a + 0x1_0000_0000_0000_0000 * b + 0x1_0000_0000_0000_0000_0000_0000_0000_0000 * c
                      + 0x1_0000_0000_0000_0000_0000_0000_0000_0000_0000_0000_0000_0000 * d
  {
    var c: int, d: int := v[2], v[3];
    assert v[1..][1..] == v[2..] && v[2..][1..] == v[3..] && v[3..][1..] == [];
    assert Value(v[3..]) == d;
    assert Value(v[2..]) == c + 0x1_0000_0000_0000_0000 * d;
  }

  lemma {:induction false} ValueInjective(a: seq<U64>, b: seq<U64>)
    requires |a| == |b| && Value(a) == Value(b)
    ensures a == b
  {
    if a != [] {
      var x: int, y: int := a[0], b[0];
      assert x == y && Value(a[1..]) == Value(b[1..]);
      ValueInjective(a[1..], b[1..]);
      assert a == [a[0]] + a[1..] && b == [b[0]] + b[1..];
    }
  }

  // ---------------------------------------------------------------------------------------------
  // Order
  // ---------------------------------------------------------------------------------------------

  datatype Ordering = Less | Equal | Greater

  function Compare(x: int, y: int): Ordering {
    if x < y then Less else if x > y then Greater else Equal
  }

  /** The most significant difference decides. */
  lemma {:induction false} TopDecides(a: seq<U64>, b: seq<U64>, i: nat)
    requires |a| == |b| && i < |a| && a[i] != b[i] && forall k :: i < k < |a| ==> a[k] == b[k]
    ensures Compare(Value(a), Value(b)) == Compare(a[i], b[i])
  {
    if i > 0 {
      TopDecides(a[1..], b[1..], i - 1);
    } else {
      assert a[1..] == b[1..];
    }
  }

  /** Limbs compared from the most significant down: the order of the integers. */
  method Cmp(a: Limbs, b: Limbs) returns (order: Ordering)
    ensures order == Compare(Value(a), Value(b))
    ensures (order == Less <==> Value(a) < Value(b)) && (order == Equal <==> a == b) && (order == Greater <==> Value(a) > Value(b))
  {
    var i := 4;
    while i > 0
      invariant 0 <= i <= 4 && forall k :: i <= k < 4 ==> a[k] == b[k]
    {
      i := i - 1;
      order := Compare(a[i], b[i]);
      if order != Equal {
        TopDecides(a, b, i);
        return;
      }
    }
    assert a == b;
    order := Equal;
  }

  // ---------------------------------------------------------------------------------------------
  // Bytes
  // ---------------------------------------------------------------------------------------------

  /** Least significant byte first. */
  function Little(limbs: seq<U64>): (b: seq<Byte>)
    ensures |b| == 8 * |limbs|
  {
    if limbs == [] then [] else WriteLE(limbs[0], 8) + Little(limbs[1..])
  }

  /** Most significant byte first. */
  function Big(limbs: seq<U64>): (b: seq<Byte>)
    ensures |b| == 8 * |limbs|
  {
    if limbs == [] then [] else Big(limbs[1..]) + WriteBE(limbs[0], 8)
  }

  lemma {:induction false} ReadWrite64(x: U64)
    ensures ReadLE(WriteLE(x, 8)) == x
  {
    assert Power(8) == 0x1_0000_0000_0000_0000;
    ReadWrite(x, 8);
  }

  /** The little-endian bytes spell the integer. */
  lemma {:induction false} LittleMeans(limbs: seq<U64>)
    ensures ReadLE(Little(limbs)) == Value(limbs)
  {
    if limbs != [] {
      LittleMeans(limbs[1..]);
      ReadWrite64(limbs[0]);
      ReadAppend(WriteLE(limbs[0], 8), Little(limbs[1..]));
      assert Power(8) == 0x1_0000_0000_0000_0000;
    }
  }

  /** The two byte orders are each other's reverse. */
  lemma {:induction false} BigIsReversed(limbs: seq<U64>)
    ensures Big(limbs) == Reversed(Little(limbs))
  {
    if limbs != [] {
      BigIsReversed(limbs[1..]);
      ReversedAppend(WriteLE(limbs[0], 8), Little(limbs[1..]));
    }
  }

  lemma {:induction false} LittleSnoc(limbs: seq<U64>, x: U64)
    ensures Little(limbs + [x]) == Little(limbs) + WriteLE(x, 8)
  {
    if limbs == [] {
      assert ([] + [x])[1..] == [];
    } else {
      assert (limbs + [x])[1..] == limbs[1..] + [x];
      LittleSnoc(limbs[1..], x);
    }
  }

  /** Writes one limb's bytes behind those already written. */
  method PutBytes(slice: array<Byte>, at: nat, bytes: seq<Byte>)
    requires at + |bytes| <= slice.Length
    modifies slice
    ensures slice[..at + |bytes|] == old(slice[..at]) + bytes
    ensures forall j :: at + |bytes| <= j < slice.Length ==> slice[j] == old(slice[j])
  {
    forall i | 0 <= i < |bytes| { slice[at + i] := bytes[i]; }
  }

  lemma {:induction false} LittleNext(v: Limbs, i: nat)
    requires i < 4
    ensures Little(v[..i + 1]) == Little(v[..i]) + WriteLE(v[i], 8)
  {
    LittleSnoc(v[..i], v[i]);
    assert v[..i + 1] == v[..i] + [v[i]];
  }

  method ToLittleEndian(v: Limbs, slice: array<Byte>)
    requires slice.Length >= 32
    modifies slice
    ensures slice[..32] == Little(v) && forall j :: 32 <= j < slice.Length ==> slice[j] == old(slice[j])
  {
    for i := 0 to 4
      invariant slice[..8 * i] == Little(v[..i])
      invariant forall j :: 32 <= j < slice.Length ==> slice[j] == old(slice[j])
    {
      LittleNext(v, i);
      var bytes := WriteLE(v[i], 8);
      PutBytes(slice, 8 * i, bytes);
    }
    assert v[..4] == v;
  }

  lemma {:induction false} BigNext(v: Limbs, i: nat)
    requires i < 4
    ensures Big(v[i..]) == Big(v[i + 1..]) + WriteBE(v[i], 8)
  {
    assert v[i..][1..] == v[i + 1..];
  }

  method ToBigEndian(v: Limbs, slice: array<Byte>)
    requires slice.Length >= 32
    modifies slice
    ensures slice[..32] == Big(v) && forall j :: 32 <= j < slice.Length ==> slice[j] == old(slice[j])
  {
    for i := 0 to 4
      invariant slice[..8 * i] == Big(v[4 - i..])
      invariant forall j :: 32 <= j < slice.Length ==> slice[j] == old(slice[j])
    {
      BigNext(v, 3 - i);
      var bytes := WriteBE(v[3 - i], 8);
      PutBytes(slice, 8 * i, bytes);
    }
    assert v[0..] == v;
  }

  /** Eight bytes as a 64-bit limb, least significant first. */
  method ReadLittle(b: seq<Byte>) returns (x: U64)
    requires |b| == 8
    ensures WriteLE(x, 8) == b
  {
    assert Power(8) == 0x1_0000_0000_0000_0000;
    WriteRead(b);
    x := ReadLE(b);
  }

  /** Eight bytes as a 64-bit limb, most significant first. */
  method ReadBig(b: seq<Byte>) returns (x: U64)
    requires |b| == 8
    ensures WriteBE(x, 8) == b
  {
    assert Power(8) == 0x1_0000_0000_0000_0000;
    WriteReadBE(b);
    x := ReadBE(b);
  }

  lemma {:induction false} BigCons(limbs: seq<U64>, x: U64)
    ensures Big([x] + limbs) == Big(limbs) + WriteBE(x, 8)
  {
    assert ([x] + limbs)[1..] == limbs;
  }

  method FromLittleEndian(slice: seq<Byte>) returns (v: Limbs)
    requires |slice| >= 32
    ensures Little(v) == slice[..32]
  {
    var limbs: seq<U64> := [];
    for i := 0 to 4
      invariant |limbs| == i && Little(limbs) == slice[..8 * i]
    {
      var s := slice[8 * i..8 * i + 8];
      var limb := ReadLittle(s);
      LittleSnoc(limbs, limb);
      limbs := limbs + [limb];
      assert slice[..8 * i + 8] == slice[..8 * i] + s;
    }
    v := limbs;
  }

  method FromBigEndian(slice: seq<Byte>) returns (v: Limbs)
    requires |slice| >= 32
    ensures Big(v) == slice[..32]
  {
    var limbs: seq<U64> := [];
    for i := 0 to 4
      invariant |limbs| == i && Big(limbs) == slice[..8 * i]
    {
      var s := slice[8 * i..8 * i + 8];
      var limb := ReadBig(s);
      BigCons(limbs, limb);
      limbs := [limb] + limbs;
      assert slice[..8 * i + 8] == slice[..8 * i] + s;
    }
    v := limbs;
  }

  /** The bytes in either order determine the limbs, so writing and reading are inverse. */
  lemma {:induction false} BytesDetermine(a: Limbs, b: Limbs)
    ensures Little(a) == Little(b) ==> a == b
    ensures Big(a) == Big(b) ==> a == b
  {
    LittleMeans(a);
    LittleMeans(b);
    BigIsReversed(a);
    BigIsReversed(b);
    ReversedTwice(Little(a));
    ReversedTwice(Little(b));
    if Little(a) == Little(b) { ValueInjective(a, b); }
  }

  // ---------------------------------------------------------------------------------------------
  // Text
  // ---------------------------------------------------------------------------------------------

  /** A number in exactly `k` lower-case hexadecimal digits. */
  function Padded(x: nat, k: nat): seq<char> {
    if k == 0 then [] else Padded(x / 16, k - 1) + [Base16.Digit(x % 16)]
  }

  /** Sixteen digits for each limb, the most significant limb first. */
  function Words(limbs: seq<U64>): seq<char> {
    if limbs == [] then [] else Words(limbs[1..]) + Padded(limbs[0], 16)
  }

  function Display(v: Limbs): seq<char> {
    ['0', 'x'] + Words(v)
  }

  lemma {:induction false} PaddedTwo(x: nat, k: nat)
    ensures Padded(x, k + 2) == Padded(x / 256, k) + Base16.HexOf(x % 256)
  {
    assert x / 16 / 16 == x / 256 && x / 16 % 16 == x % 256 / 16 && x % 16 == x % 256 % 16;
    assert Padded(x, k + 2) == Padded(x / 16, k + 1) + [Base16.Digit(x % 16)];
  }

  lemma {:induction false} WriteBESnoc(x: nat, k: nat)
    ensures WriteBE(x, k + 1) == WriteBE(x / 256, k) + [x % 256]
  {
  }

  /** Sixteen digits are the hexadecimal form of eight bytes, most significant first. */
  lemma {:induction false} PaddedIsHex(x: nat, k: nat)
    ensures Padded(x, 2 * k) == Base16.Hex(WriteBE(x, k))
  {
    if k == 0 {
      assert WriteBE(x, 0) == [];
    } else {
      var high := WriteBE(x / 256, k - 1);
      PaddedIsHex(x / 256, k - 1);
      PaddedTwo(x, 2 * k - 2);
      assert Padded(x, 2 * k) == Base16.Hex(high) + Base16.HexOf(x % 256);
      WriteBESnoc(x, k - 1);
      Base16.HexSnoc(high, x % 256);
    }
  }

  /** The displayed form is the hexadecimal text of the big-endian bytes. */
  lemma {:induction false} WordsAreHex(limbs: seq<U64>)
    ensures Words(limbs) == Base16.Hex(Big(limbs))
  {
    if limbs != [] {
      WordsAreHex(limbs[1..]);
      Base16.SpellAppend(Base16.HexOf, Big(limbs[1..]), WriteBE(limbs[0], 8));
      PaddedIsHex(limbs[0], 8);
    }
  }

  /** The displayed form: `0x` and 64 digits, those of the bytes from the most significant down. */
  lemma {:induction false} DisplayMeans(v: Limbs)
    ensures |Display(v)| == 66 && Display(v) == ['0', 'x'] + Base16.Hex(Reversed(Little(v)))
  {
    WordsAreHex(v);
    BigIsReversed(v);
    Base16.HexLength(Big(v));
  }

  function Zeros(n: nat): (b: seq<Byte>)
    ensures |b| == n
  {
    if n == 0 then [] else Zeros(n - 1) + [0]
  }

  lemma {:induction false} PadMeans(b: seq<Byte>, n: nat)
    ensures ReadLE(b + Zeros(n)) == ReadLE(b)
  {
    if n == 0 {
      assert b + Zeros(0) == b;
    } else {
      PadMeans(b, n - 1);
      assert b + Zeros(n) == (b + Zeros(n - 1)) + [0];
      ReadAppend(b + Zeros(n - 1), [0]);
    }
  }

  /** Fills up with zero bytes to one more than needed. */
  method Fill(b: seq<Byte>) returns (filled: seq<Byte>)
    requires |b| <= 32
    ensures |filled| == 33 && filled[..32] == b + Zeros(32 - |b|)
  {
    filled := b;
    for i := |b| to 33
      invariant filled == b + Zeros(i - |b|)
    {
      filled := filled + [0];
    }
    assert Zeros(33 - |b|) == Zeros(32 - |b|) + [0];
  }

  /** Reads hexadecimal text of at most 32 bytes; `None` is the error. */
  method FromStr(s: seq<char>) returns (r: Option<Limbs>)
    ensures var bin := Base16.Parse(Base16.WithoutPrefix(s));
            && (r.Some? <==> s != [] && bin.Some? && |bin.value| <= 32)
            && (r.Some? ==> Value(r.value) == ReadBE(bin.value))
  {
    var bin := Base16.ToBin(s);
    if bin.None? || |bin.value| > 32 { return None; }
    var b := Reversed(bin.value);
    var filled := Fill(b);
    var v := FromLittleEndian(filled);
    LittleMeans(v);
    PadMeans(b, 32 - |b|);
    r := Some(v);
  }

  /** Parsing what was displayed gives the value back. */
  method ShowAndParse(v: Limbs) returns (r: Option<Limbs>)
    ensures r == Some(v)
  {
    WordsAreHex(v);
    var big := Big(v);
    Base16.HexHasNoPrefix(big);
    Base16.ParseHex(big);
    r := FromStr(Display(v));
    BigIsReversed(v);
    ReversedTwice(Little(v));
    LittleMeans(v);
    ValueInjective(r.value, v);
  }
}
