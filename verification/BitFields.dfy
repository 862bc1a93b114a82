/** Fields of up to eight bits in a stream of bytes, the most significant bit first. */
module BitFields {
  import opened PixelCodes

  function Pow2(n: nat): (r: nat)
    ensures r >= 1
  {
    if n == 0 then 1 else 2 * Pow2(n - 1)
  }

  function Bit(d: seq<Byte>, p: nat): nat
    requires p < 8 * |d|
  {
    d[p / 8] / Pow2(7 - p % 8) % 2
  }

  /** The number that the n bits at p spell. */
  function Field(d: seq<Byte>, p: nat, n: nat): nat
    requires p + n <= 8 * |d|
  {
    if n == 0 then 0 else 2 * Field(d, p, n - 1) + Bit(d, p + n - 1)
  }

  /** Two bytes, shifted and masked as the reader does it. */
  function Shifted(w: nat, p: nat, n: nat): int
    requires n <= 16
  {
    Quot(w * Pow2(p) % 0x10000, Pow2(16 - n))
  }

  function Quot(x: int, d: nat): int
    requires d > 0
  {
    x / d
  }

  lemma {:induction false} Gap(d: nat, q: nat, more: nat)
    requires q < more
    ensures d * q + d <= d * more
    decreases more
  {
    if q + 1 < more {
      Gap(d, q, more - 1);
    }
  }

  lemma Unique(d: nat, q: nat, r: nat, q1: nat, r1: nat)
    requires d * q + r == d * q1 + r1 && r < d && r1 < d
    ensures q == q1 && r == r1
  {
    if q < q1 {
      Gap(d, q, q1);
    } else if q1 < q {
      Gap(d, q1, q);
    }
  }

  lemma Divided(x: nat, d: nat)
    requires d > 0
    ensures 0 <= x / d && 0 <= x % d < d && x == d * (x / d) + x % d
  {
  }

  lemma Quotient(x: nat, d: nat, q: nat, r: nat)
    requires x == d * q + r && r < d
    ensures x / d == q && x % d == r
  {
    Divided(x, d);
    Unique(d, q, r, x / d, x % d);
  }

  lemma Less(x: nat, b: nat, c: nat)
    requires x < b * c && b > 0
    ensures x / b < c
  {
    Divided(x, b);
    if x / b > c {
      Gap(b, c, x / b);
    }
  }

  /** Scaling a remainder and a quotient. */
  lemma Scaled(w: nat, a: nat, m: nat)
    requires a > 0 && m > 0
    ensures w * a / (a * m) == w / m && w * a % (a * m) == a * (w % m)
  {
    var q, r := w / m, w % m;
    assert w == m * q + r;
    assert w * a == a * m * q + a * r;
    assert a * r < a * m;
    Quotient(w * a, a * m, q, a * r);
  }

  lemma Middle(w: nat, b: nat, c: nat)
    requires b > 0 && c > 0 && b * c > 0
    ensures w % (b * c) / b == w / b % c
  {
    var q, r := w / (b * c), w % (b * c);
    Divided(w, b * c);
    Divided(r, b);
    Less(r, b, c);
    Regrouped(w, b, c, q, r / b, r % b);
    Quotient(w, b, c * q + r / b, r % b);
    Quotient(c * q + r / b, c, q, r / b);
  }

  lemma Regrouped(w: nat, b: nat, c: nat, q: nat, s: nat, t: nat)
    requires w == b * c * q + (b * s + t)
    ensures w == b * (c * q + s) + t
  {
    assert b * (c * q + s) == b * (c * q) + b * s;
    assert b * (c * q) == b * c * q;
  }

  lemma {:induction false} PowAdd(a: nat, b: nat)
    ensures Pow2(a) * Pow2(b) == Pow2(a + b)
  {
    if a > 0 {
      PowAdd(a - 1, b);
    }
  }

  lemma Extracted(w: nat, a: nat, b: nat, c: nat, all: nat)
    requires a > 0 && b > 0 && c > 0 && all == a * (b * c)
    ensures w * a % all / (a * b) == w / b % c
  {
    assert b * c > 0;
    var y := w % (b * c);
    Scaled(w, a, b * c);
    Scaled(y, a, b);
    assert a * y == y * a;
    Middle(w, b, c);
  }

  lemma Powers()
    ensures Pow2(0) == 1 && Pow2(1) == 2 && Pow2(2) == 4 && Pow2(3) == 8 && Pow2(4) == 16
    ensures Pow2(5) == 32 && Pow2(6) == 64 && Pow2(7) == 128 && Pow2(8) == 256
  {
    assert Pow2(3) == 8;
    assert Pow2(6) == 64;
  }

  /** Shifting left, masking and shifting right takes n bits out of the middle. */
  lemma ShiftedIsMiddle(w: nat, p: nat, n: nat)
    requires p + n <= 16
    ensures Shifted(w, p, n) == w / Pow2(16 - p - n) % Pow2(n)
  {
    hide Pow2;
    Powers();
    PowAdd(8, 8);
    PowAdd(p, 16 - p);
    PowAdd(16 - p - n, n);
    PowAdd(p, 16 - p - n);
    Extracted(w, Pow2(p), Pow2(16 - p - n), Pow2(n), 0x10000);
  }

  lemma UpperByte(x: nat, y: nat, m: nat)
    requires y < 256 && m > 0
    ensures (256 * x + y) / (256 * m) == x / m
  {
    var q, r := x / m, x % m;
    assert x == m * q + r;
    assert 256 * x + y == 256 * m * q + (256 * r + y);
    Quotient(256 * x + y, 256 * m, q, 256 * r + y);
  }

  lemma LowerByte(x: nat, y: nat, m: nat, e: nat)
    requires m > 0 && m * (2 * e) == 256
    ensures (256 * x + y) / m % 2 == y / m % 2
  {
    var q, f := y / m, e * x;
    Divided(y, m);
    Associate(m, 2 * e, x);
    Associate(2, e, x);
    Distribute(m, 2 * f, q);
    Quotient(256 * x + y, m, 2 * f + q, y % m);
    Even(f, q);
  }

  lemma Even(f: nat, q: nat)
    ensures (2 * f + q) % 2 == q % 2
  {
  }

  lemma Associate(a: nat, b: nat, c: nat)
    ensures a * b * c == a * (b * c)
  {
  }

  lemma Distribute(a: nat, b: nat, c: nat)
    ensures a * b + a * c == a * (b + c)
  {
  }

  lemma BitOfWindow(x: nat, y: nat, k: nat)
    requires x < 256 && y < 256 && k < 16
    ensures (256 * x + y) / Pow2(15 - k) % 2 == if k < 8 then x / Pow2(7 - k) % 2 else y / Pow2(15 - k) % 2
  {
    hide Pow2;
    Powers();
    if k < 8 {
      PowAdd(8, 7 - k);
      UpperByte(x, y, Pow2(7 - k));
    } else {
      PowAdd(15 - k, k - 7);
      PowAdd(1, k - 8);
      LowerByte(x, y, Pow2(15 - k), Pow2(k - 8));
    }
  }

  lemma Halves(w: nat, m: nat)
    requires m > 0
    ensures w / (2 * m) == w / m / 2
  {
    var q, r := w / m, w % m;
    assert w == m * q + r;
    var s, t := q / 2, q % 2;
    assert m * q == 2 * m * s + m * t;
    assert m * t <= m;
    Quotient(w, 2 * m, s, m * t + r);
  }

  lemma Doubled(z: nat, m: nat)
    requires m > 0
    ensures z % (2 * m) == 2 * (z / 2 % m) + z % 2
  {
    var q, r := z / 2 / m, z / 2 % m;
    assert z / 2 == m * q + r;
    assert z == 2 * m * q + (2 * r + z % 2);
    Quotient(z, 2 * m, q, 2 * r + z % 2);
  }

  lemma BitAt(d: seq<Byte>, pos: nat, k: nat, y: nat)
    requires k < 16 && pos / 8 + k / 8 < |d| && pos % 8 <= k && y < 256
    requires k >= 8 ==> y == d[pos / 8 + 1]
    ensures Bit(d, pos - pos % 8 + k) == (256 * d[pos / 8] + y) / Pow2(15 - k) % 2
  {
    hide Pow2;
    BitOfWindow(d[pos / 8], y, k);
  }

  /** The bits of a window of two bytes. */
  lemma {:induction false} WindowBits(d: seq<Byte>, pos: nat, n: nat, y: nat)
    requires pos + n <= 8 * |d| && pos / 8 < |d| && n <= 8 && y < 256
    requires pos % 8 + n > 8 ==> pos / 8 + 1 < |d| && y == d[pos / 8 + 1]
    ensures Field(d, pos, n) == (256 * d[pos / 8] + y) / Pow2(16 - pos % 8 - n) % Pow2(n)
    decreases n
  {
    hide Pow2;
    hide Bit;
    if n == 0 {
      Powers();
    } else {
      var k := pos % 8 + n - 1;
      WindowBits(d, pos, n - 1, y);
      BitAt(d, pos, k, y);
      NextBit(256 * d[pos / 8] + y, 15 - k, n - 1);
    }
  }

  lemma NextBit(w: nat, j: nat, n: nat)
    ensures w / Pow2(j) % Pow2(n + 1) == 2 * (w / Pow2(j + 1) % Pow2(n)) + w / Pow2(j) % 2
  {
    Halves(w, Pow2(j));
    Doubled(w / Pow2(j), Pow2(n));
  }

  lemma UpperBits(x: nat)
    requires x < 256
    ensures 8 * (x / 128 % 2) + 4 * (x / 64 % 2) + 2 * (x / 32 % 2) + x / 16 % 2 == x / 16
  {
  }

  lemma LowerBits(x: nat)
    ensures 8 * (x / 8 % 2) + 4 * (x / 4 % 2) + 2 * (x / 2 % 2) + x / 1 % 2 == x % 16
  {
    Doubled(x, 8);
    Doubled(x / 2, 4);
    Doubled(x / 4, 2);
    assert x / 2 / 2 == x / 4 && x / 4 / 2 == x / 8;
  }

  lemma FourBits(d: seq<Byte>, p: nat)
    requires p + 4 <= 8 * |d|
    ensures Field(d, p, 4) == 8 * Bit(d, p) + 4 * Bit(d, p + 1) + 2 * Bit(d, p + 2) + Bit(d, p + 3)
  {
    hide Bit;
    assert Field(d, p, 1) == Bit(d, p);
    assert Field(d, p, 2) == 2 * Field(d, p, 1) + Bit(d, p + 1);
    assert Field(d, p, 3) == 2 * Field(d, p, 2) + Bit(d, p + 2);
  }

  lemma FieldIsNibble(d: seq<Byte>, k: nat)
    requires k < 2 * |d|
    ensures Field(d, 4 * k, 4) == Nib(d, k)
  {
    hide Pow2;
    hide Field;
    Powers();
    FourBits(d, 4 * k);
    if k % 2 == 0 {
      UpperBits(d[k / 2]);
    } else {
      LowerBits(d[k / 2]);
    }
  }

  lemma FieldIsTwoNibbles(d: seq<Byte>, k: nat)
    requires k + 1 < 2 * |d|
    ensures Field(d, 4 * k, 8) == 16 * Nib(d, k) + Nib(d, k + 1)
  {
    hide Bit;
    hide Nib;
    var p := 4 * k;
    FieldIsNibble(d, k);
    FieldIsNibble(d, k + 1);
    FourBits(d, p + 4);
    assert Field(d, p, 5) == 2 * Field(d, p, 4) + Bit(d, p + 4);
    assert Field(d, p, 6) == 2 * Field(d, p, 5) + Bit(d, p + 5);
    assert Field(d, p, 7) == 2 * Field(d, p, 6) + Bit(d, p + 6);
  }

  lemma FieldIsByte(d: seq<Byte>, i: nat)
    requires i < |d|
    ensures Field(d, 8 * i, 8) == d[i]
  {
    hide Field;
    FieldIsTwoNibbles(d, 2 * i);
  }
}
