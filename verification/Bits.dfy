/** Bytes masked by a prefix length, and the address blocks such masks describe. */
module Bits {
  import opened Frame

  function P2(k: nat): (r: nat)
    ensures r >= 1
  {
    if k == 0 then 1 else 2 * P2(k - 1)
  }

  lemma {:induction false} P2Sum(x: nat, y: nat)
    ensures P2(x + y) == P2(x) * P2(y)
  {
    if x != 0 {
      P2Sum(x - 1, y);
      assert P2(x + y) == 2 * (P2(x - 1) * P2(y));
    }
  }

  lemma QuotientUnique(d: int, q: int, r: int, q': int, r': int)
    requires d > 0 && 0 <= r < d && 0 <= r' < d
    requires q * d + r == q' * d + r'
    ensures q == q' && r == r'
  {
    if q < q' {
      assert (q' - q) * d == q' * d - q * d;
      TimesPositive(q' - q, d);
    } else if q' < q {
      assert (q - q') * d == q * d - q' * d;
      TimesPositive(q - q', d);
    }
  }

  lemma {:induction false} TimesPositive(k: int, d: int)
    requires k > 0 && d > 0
    ensures k * d >= d
    decreases k
  {
    if k > 1 {
      TimesPositive(k - 1, d);
      assert k * d == (k - 1) * d + d;
    }
  }

  lemma DivModIs(a: int, d: int, q: int, r: int)
    requires d > 0 && a == q * d + r && 0 <= r < d
    ensures a / d == q && a % d == r
  {
    var q', r' := a / d, a % d;
    assert a == q' * d + r';
    QuotientUnique(d, q, r, q', r');
  }

  lemma RoundDownOfHalf(a: nat, d: nat)
    requires d > 0
    ensures 2 * (a / 2 - a / 2 % d) == a - a % (2 * d)
  {
    var h := a / 2;
    var q, r := h / d, h % d;
    assert h == q * d + r;
    assert a == q * (2 * d) + (2 * r + a % 2);
    DivModIs(a, 2 * d, q, 2 * r + a % 2);
  }

  lemma RoundDownTwice(x: nat, k: nat)
    requires k > 0
    ensures (x - x % k) % k == 0
  {
    DivModIs(x - x % k, k, x / k, 0);
  }

  lemma RoundDownAgree(x: nat, y: nat, k: nat)
    requires k > 0
    ensures x - x % k == y - y % k <==> x / k == y / k
  {
    var p, q := x / k, y / k;
    assert x - x % k == p * k + 0 && y - y % k == q * k + 0;
    if p * k == q * k {
      QuotientUnique(k, p, 0, q, 0);
    }
  }

  lemma QuotientAcross(hi: nat, t: nat, size: nat, whole: nat, rest: nat)
    requires size > 0 && whole == size * t && rest < whole
    ensures (hi * whole + rest) / size == hi * t + rest / size
    ensures 0 <= rest / size < t
  {
    var q, r := rest / size, rest % size;
    assert rest == q * size + r;
    assert hi * whole == (hi * t) * size;
    assert (hi * t + q) * size == (hi * t) * size + q * size;
    DivModIs(hi * whole + rest, size, hi * t + q, r);
    assert q >= t ==> q * size >= t * size;
  }

  lemma QuotientWithin(hi: nat, k: nat, whole: nat, rest: nat)
    requires k > 0 && rest < whole
    ensures k * whole > 0
    ensures (hi * whole + rest) / (k * whole) == hi / k
  {
    var q, r := hi / k, hi % k;
    assert hi == q * k + r;
    assert hi * whole == q * (k * whole) + r * whole by {
      assert (q * k + r) * whole == (q * k) * whole + r * whole;
      assert (q * k) * whole == q * (k * whole);
    }
    assert (r + 1) * whole <= k * whole;
    assert (r + 1) * whole == r * whole + whole;
    DivModIs(hi * whole + rest, k * whole, q, r * whole + rest);
  }

  /** The bitwise conjunction of two `n`-bit numbers. */
  function And(a: nat, b: nat, n: nat): nat {
    if n == 0 then 0
    else 2 * And(a / 2, b / 2, n - 1) + (if a % 2 == 1 && b % 2 == 1 then 1 else 0)
  }

  /** Masking with ones above bit `j` and zeros below rounds down to a multiple of 2^j. */
  lemma {:induction false} AndHighOnes(a: nat, n: nat, j: nat)
    requires a < P2(n) && j <= n
    ensures P2(n) >= P2(j)
    ensures And(a, P2(n) - P2(j), n) == a - a % P2(j)
  {
    if n == 0 {
    } else if j == 0 {
      AndHighOnes(a / 2, n - 1, 0);
      AndOfOdd(a, P2(n - 1) - 1, n);
    } else {
      AndHighOnes(a / 2, n - 1, j - 1);
      AndOfEven(a, P2(n - 1) - P2(j - 1), n);
      RoundDownOfHalf(a, P2(j - 1));
    }
  }

  lemma AndOfOdd(a: nat, b: nat, n: nat)
    requires n > 0
    ensures And(a, 2 * b + 1, n) == 2 * And(a / 2, b, n - 1) + a % 2
  {
    assert (2 * b + 1) / 2 == b;
  }

  lemma AndOfEven(a: nat, b: nat, n: nat)
    requires n > 0
    ensures And(a, 2 * b, n) == 2 * And(a / 2, b, n - 1)
  {
    assert 2 * b / 2 == b;
  }

  function AndByte(a: byte, b: byte): (r: nat) {
    And(a as nat, b as nat, 8)
  }

  lemma P2Of8()
    ensures P2(8) == 0x100
  {
    assert P2(4) == 16;
    P2Sum(4, 4);
  }

  /** The byte with its top `k` bits set: `^(0xff >> k)`. */
  function MaskByte(k: nat): (m: byte)
    requires k <= 8
    ensures m as int == 0x100 - P2(8 - k)
  {
    P2Of8();
    P2Sum(k, 8 - k);
    assert P2(k) * P2(8 - k) == 0x100;
    assert P2(8 - k) <= 0x100 by { assert P2(k) * P2(8 - k) >= 1 * P2(8 - k); }
    (0x100 - P2(8 - k)) as byte
  }

  lemma AndMaskByte(a: byte, k: nat)
    requires k <= 8
    ensures AndByte(a, MaskByte(k)) == a as int - a as int % P2(8 - k)
  {
    P2Of8();
    AndHighOnes(a as nat, 8, 8 - k);
  }

  /** `net.CIDRMask`: `n` ones, then zeros. */
  function PrefixMask(n: nat, len: nat): (m: seq<byte>)
    ensures |m| == len
  {
    if len == 0 then []
    else if n >= 8 then [0xFF] + PrefixMask(n - 8, len - 1)
    else [MaskByte(n)] + PrefixMask(0, len - 1)
  }

  /** `IP.Mask`. */
  function Masked(ip: seq<byte>, m: seq<byte>): (r: seq<byte>)
    requires |ip| == |m|
    ensures |r| == |ip|
    ensures forall i :: 0 <= i < |ip| ==> r[i] as int == AndByte(ip[i], m[i])
  {
    seq(|ip|, i requires 0 <= i < |ip| => AndBounded(ip[i] as nat, m[i] as nat, 8); AndByte(ip[i], m[i]) as byte)
  }

  lemma AndBounded(a: nat, b: nat, n: nat)
    ensures And(a, b, n) < P2(n)
    ensures P2(8) == 0x100
  {
    P2Of8();
  }

  /** The byte-by-byte comparison of `IPNet.Contains`. */
  predicate SameUnderMask(a: seq<byte>, d: seq<byte>, m: seq<byte>)
    requires |a| == |d| == |m|
  {
    forall i :: 0 <= i < |a| ==> AndByte(a[i], m[i]) == AndByte(d[i], m[i])
  }

  /** A byte string as a big-endian number. */
  function Value(b: seq<byte>): (v: nat)
    ensures v < P2(8 * |b|)
  {
    if b == [] then 0
    else
      DigitBound(b[0], Value(b[1..]), |b[1..]|);
      b[0] as nat * P2(8 * |b[1..]|) + Value(b[1..])
  }

  lemma DigitBound(hi: byte, lo: nat, len: nat)
    requires lo < P2(8 * len)
    ensures hi as int * P2(8 * len) + lo < P2(8 * (len + 1))
  {
    P2Of8();
    P2Sum(8, 8 * len);
    assert (hi as int + 1) * P2(8 * len) <= 0x100 * P2(8 * len);
  }

  /** The block of addresses that agree with `a` in their first `n` bits: an interval of
      2^(W-n) addresses starting at a multiple of its size (section 3.1 of RFC 4632). */
  predicate InBlock(a: seq<byte>, n: nat, d: seq<byte>)
    requires |a| == |d| && n <= 8 * |a|
  {
    var size := P2(8 * |a| - n);
    var base := Value(a) - Value(a) % size;
    base <= Value(d) < base + size
  }

  lemma SameQuotientIsInterval(v: nat, w: nat, size: nat)
    requires size > 0
    ensures v - v % size <= w < v - v % size + size <==> v / size == w / size
  {
    var q := v / size;
    assert v - v % size == q * size;
    if q * size <= w < q * size + size {
      DivModIs(w, size, q, w - q * size);
    }
    if q == w / size {
      assert w == q * size + w % size;
    }
  }

  lemma {:induction false} ZeroMaskIsAlwaysSame(a: seq<byte>, d: seq<byte>)
    requires |a| == |d|
    ensures SameUnderMask(a, d, PrefixMask(0, |a|))
  {
    if a != [] {
      ZeroMaskIsAlwaysSame(a[1..], d[1..]);
      var m := PrefixMask(0, |a|);
      P2Of8();
      AndMaskByte(a[0], 0);
      AndMaskByte(d[0], 0);
      forall i | 0 <= i < |a| ensures AndByte(a[i], m[i]) == AndByte(d[i], m[i]) {
        if i > 0 {
          assert m[i] == PrefixMask(0, |a| - 1)[i - 1] && a[i] == a[1..][i - 1] && d[i] == d[1..][i - 1];
        }
      }
    }
  }

  lemma SameUnderMaskSplit(a: seq<byte>, d: seq<byte>, m: seq<byte>)
    requires |a| == |d| == |m| > 0
    ensures SameUnderMask(a, d, m)
            <==> AndByte(a[0], m[0]) == AndByte(d[0], m[0]) && SameUnderMask(a[1..], d[1..], m[1..])
  {
    if AndByte(a[0], m[0]) == AndByte(d[0], m[0]) && SameUnderMask(a[1..], d[1..], m[1..]) {
      forall i | 0 <= i < |a| ensures AndByte(a[i], m[i]) == AndByte(d[i], m[i]) {
        if i > 0 {
          assert a[i] == a[1..][i - 1] && d[i] == d[1..][i - 1] && m[i] == m[1..][i - 1];
        }
      }
    }
    if SameUnderMask(a, d, m) {
      forall i | 0 <= i < |a| - 1 ensures AndByte(a[1..][i], m[1..][i]) == AndByte(d[1..][i], m[1..][i]) {
        assert a[i + 1] == a[1..][i] && d[i + 1] == d[1..][i] && m[i + 1] == m[1..][i];
      }
    }
  }

  lemma DigitsAgree(t: int, hi: int, x: int, hi': int, y: int)
    requires 0 <= x < t && 0 <= y < t
    ensures hi * t + x == hi' * t + y <==> hi == hi' && x == y
  {
    if hi * t + x == hi' * t + y {
      QuotientUnique(t, hi, x, hi', y);
    }
  }

  lemma QuotientOfWholeByte(b: seq<byte>, n: nat)
    requires |b| > 0 && 8 <= n <= 8 * |b|
    ensures Value(b) / P2(8 * |b| - n) == b[0] as int * P2(n - 8) + Value(b[1..]) / P2(8 * |b[1..]| - (n - 8))
    ensures 0 <= Value(b[1..]) / P2(8 * |b[1..]| - (n - 8)) < P2(n - 8)
  {
    P2Sum(8 * |b| - n, n - 8);
    QuotientAcross(b[0] as nat, P2(n - 8), P2(8 * |b| - n), P2(8 * |b[1..]|), Value(b[1..]));
  }

  lemma QuotientOfPartialByte(b: seq<byte>, n: nat)
    requires |b| > 0 && n < 8
    ensures Value(b) / P2(8 * |b| - n) == b[0] as int / P2(8 - n)
  {
    P2Sum(8 - n, 8 * |b[1..]|);
    QuotientWithin(b[0] as nat, P2(8 - n), P2(8 * |b[1..]|), Value(b[1..]));
  }

  lemma AndAllOnes(a: byte)
    ensures AndByte(a, 0xFF) == a as int
  {
    AndMaskByte(a, 8);
  }

  /** The number of the 2^(W-n)-sized block that holds `b`. */
  function BlockNumber(b: seq<byte>, n: nat): int
    requires n <= 8 * |b|
  {
    Value(b) / P2(8 * |b| - n)
  }

  lemma WholeByteStep(a: seq<byte>, d: seq<byte>, n: nat)
    requires |a| == |d| > 0 && 8 <= n <= 8 * |a|
    ensures BlockNumber(a, n) == BlockNumber(d, n)
            <==> AndByte(a[0], 0xFF) == AndByte(d[0], 0xFF) && BlockNumber(a[1..], n - 8) == BlockNumber(d[1..], n - 8)
  {
    AndAllOnes(a[0]);
    AndAllOnes(d[0]);
    QuotientOfWholeByte(a, n);
    QuotientOfWholeByte(d, n);
    DigitsAgree(P2(n - 8), a[0] as nat, BlockNumber(a[1..], n - 8), d[0] as nat, BlockNumber(d[1..], n - 8));
  }

  lemma PartialByteStep(a: seq<byte>, d: seq<byte>, n: nat)
    requires |a| == |d| > 0 && n < 8
    ensures BlockNumber(a, n) == BlockNumber(d, n) <==> AndByte(a[0], MaskByte(n)) == AndByte(d[0], MaskByte(n))
  {
    AndMaskByte(a[0], n);
    AndMaskByte(d[0], n);
    QuotientOfPartialByte(a, n);
    QuotientOfPartialByte(d, n);
    RoundDownAgree(a[0] as nat, d[0] as nat, P2(8 - n));
  }

  lemma {:induction false} SameUnderMaskIsSameBlock(a: seq<byte>, d: seq<byte>, n: nat)
    requires |a| == |d| && n <= 8 * |a|
    ensures SameUnderMask(a, d, PrefixMask(n, |a|)) <==> BlockNumber(a, n) == BlockNumber(d, n)
  {
    if a == [] {
    } else {
      var m := PrefixMask(n, |a|);
      SameUnderMaskSplit(a, d, m);
      if n >= 8 {
        assert m[1..] == PrefixMask(n - 8, |a[1..]|);
        SameUnderMaskIsSameBlock(a[1..], d[1..], n - 8);
        WholeByteStep(a, d, n);
      } else {
        assert m[1..] == PrefixMask(0, |a[1..]|);
        ZeroMaskIsAlwaysSame(a[1..], d[1..]);
        PartialByteStep(a, d, n);
      }
    }
  }

  /** Comparing masked bytes decides membership in the block. */
  lemma SameUnderMaskIsInBlock(a: seq<byte>, d: seq<byte>, n: nat)
    requires |a| == |d| && n <= 8 * |a|
    ensures SameUnderMask(a, d, PrefixMask(n, |a|)) <==> InBlock(a, n, d)
  {
    SameUnderMaskIsSameBlock(a, d, n);
    SameQuotientIsInterval(Value(a), Value(d), P2(8 * |a| - n));
  }
}
