/** Bytes and the fixed-width integers they spell. */
module Bytes {
  type Byte = x: int | 0 <= x < 256

  function Power(k: nat): (p: nat)
    ensures p > 0
  {
    if k == 0 then 1 else 256 * Power(k - 1)
  }

  /** The low `k` bytes of `n`, least significant first. */
  function WriteLE(n: nat, k: nat): (b: seq<Byte>)
    ensures |b| == k
  {
    if k == 0 then [] else [n % 256] + WriteLE(n / 256, k - 1)
  }

  function ReadLE(b: seq<Byte>): nat {
    if b == [] then 0
    else
      var low: int := b[0];
      low + 256 * ReadLE(b[1..])
  }

  /** Byte `i` is the digit of 256 to the power `i`. */
  lemma {:induction false} WriteAt(n: nat, k: nat, i: nat)
    requires i < k
    ensures Power(0) == 1 && Power(i + 1) == 256 * Power(i) && WriteLE(n, k)[i] == n / Power(i) % 256
  {
    if i == 0 {
      assert n / 1 == n;
    } else {
      WriteAt(n / 256, k - 1, i - 1);
      assert WriteLE(n, k)[i] == WriteLE(n / 256, k - 1)[i - 1];
      DivideTwice(n, Power(i - 1));
    }
  }

  lemma {:induction false} DivideTwice(n: nat, p: nat)
    requires p > 0
    ensures n / 256 / p == n / (256 * p)
  {
    var q, r := n / 256 / p, n / 256 % p;
    assert n / 256 == q * p + r;
    var low := n % 256;
    assert n == 256 * (q * p + r) + low && 256 * r + low < 256 * p;
    Uniquely(n, 256 * p, q, 256 * r + low);
  }

  lemma {:induction false} Uniquely(n: nat, d: nat, q: nat, r: nat)
    requires d > 0 && n == q * d + r && r < d
    ensures n / d == q
  {
    assert (q + 1) * d == q * d + d;
    var k := n / d;
    DivideMeans(n, d);
    if k < q { Times(k + 1, q, d); }
    if k > q { Times(q + 1, k, d); }
  }

  lemma {:induction false} DivideMeans(n: nat, d: nat)
    requires d > 0
    ensures n / d >= 0 && n / d * d <= n < (n / d + 1) * d
  {
    assert n == n / d * d + n % d && (n / d + 1) * d == n / d * d + d;
  }

  lemma {:induction false} Times(a: nat, b: nat, d: nat)
    requires a <= b
    ensures a * d <= b * d
  {
  }

  lemma {:induction false} ReadOne(x: Byte)
    ensures ReadLE([x]) == x && ReadLE([]) == 0
  {
    assert [x][1..] == [];
  }

  lemma {:induction false} Quotient(n: nat, p: nat)
    requires n < 256 * p
    ensures n / 256 < p && n == n % 256 + 256 * (n / 256)
  {
  }

  lemma {:induction false} ReadWrite(n: nat, k: nat)
    requires n < Power(k)
    ensures ReadLE(WriteLE(n, k)) == n
  {
    if k > 0 {
      Quotient(n, Power(k - 1));
      ReadWrite(n / 256, k - 1);
      assert WriteLE(n, k)[1..] == WriteLE(n / 256, k - 1);
    }
  }

  lemma {:induction false} WriteRead(b: seq<Byte>)
    ensures ReadLE(b) < Power(|b|) && WriteLE(ReadLE(b), |b|) == b
  {
    if b != [] {
      WriteRead(b[1..]);
      var low: int := b[0];
      assert ReadLE(b) % 256 == low && ReadLE(b) / 256 == ReadLE(b[1..]);
    }
  }

  function Reversed(b: seq<Byte>): (r: seq<Byte>)
    ensures |r| == |b|
    ensures forall i :: 0 <= i < |b| ==> r[i] == b[|b| - 1 - i]
  {
    if b == [] then [] else Reversed(b[1..]) + [b[0]]
  }

  lemma {:induction false} ReversedTwice(b: seq<Byte>)
    ensures Reversed(Reversed(b)) == b
  {
  }

  /** Most significant byte first. */
  function WriteBE(n: nat, k: nat): (b: seq<Byte>)
    ensures |b| == k
  {
    Reversed(WriteLE(n, k))
  }

  function ReadBE(b: seq<Byte>): nat {
    ReadLE(Reversed(b))
  }

  lemma {:induction false} ReadAppend(a: seq<Byte>, b: seq<Byte>)
    ensures ReadLE(a + b) == ReadLE(a) + Power(|a|) * ReadLE(b)
  {
    if a == [] {
      assert a + b == b;
    } else {
      assert (a + b)[1..] == a[1..] + b;
      ReadAppend(a[1..], b);
      Distribute(ReadLE(a[1..]), Power(|a| - 1), ReadLE(b));
    }
  }

  lemma {:induction false} Distribute(x: nat, p: nat, y: nat)
    ensures 256 * (x + p * y) == 256 * x + (256 * p) * y
  {
  }

  lemma {:induction false} ReversedAppend(a: seq<Byte>, b: seq<Byte>)
    ensures Reversed(a + b) == Reversed(b) + Reversed(a)
  {
  }

  lemma {:induction false} WriteReadBE(b: seq<Byte>)
    ensures ReadBE(b) < Power(|b|) && WriteBE(ReadBE(b), |b|) == b
  {
    WriteRead(Reversed(b));
    ReversedTwice(b);
  }
}
