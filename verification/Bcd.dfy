/** Packed binary coded decimal numbers in 32-bit words. */
module Bcd {
  /** Digit k of a word, counted from the least significant one. */
  function Digit(w: bv32, k: nat): bv32
    requires k < 8
  {
    match k
    case 0 => w & 15
    case 1 => (w >> 4) & 15
    case 2 => (w >> 8) & 15
    case 3 => (w >> 12) & 15
    case 4 => (w >> 16) & 15
    case 5 => (w >> 20) & 15
    case 6 => (w >> 24) & 15
    case 7 => (w >> 28) & 15
  }

  /** All digits but the topmost, which carries the sign, are decimal. */
  ghost predicate Decimal(w: bv32) {
    forall k :: 0 <= k < 7 ==> Digit(w, k) <= 9
  }

  // Operations.

  const SIXES: bv32 := 0x0666_6666

  predicate IsBcd(bcd: bv32) {
    ((bcd + 0x0666_6666) ^ (bcd ^ 0x0666_6666)) & 0x1111_1110 == 0
  }

  predicate DigitsGreater(bcd: bv32, maximum: bv32) {
    var m := maximum ^ 0xFFFF_FFFF;
    ((bcd + m) ^ bcd ^ m) & 0x1111_1110 != 0
  }

  // Words are added and subtracted modulo 2^32.

  function Plus(a: bv32, b: bv32): bv32 {
    a + b
  }

  function Minus(a: bv32, b: bv32): bv32 {
    a - b
  }

  /** The carries of the sum into all bits. */
  function Carries(a: bv32, b: bv32): bv32 {
    b ^ (a ^ Plus(a, b))
  }

  /** What is subtracted from a sum with these carries: six in each of the low digits that
      has no carry. */
  function Correction(x: bv32): bv32 {
    var c := ((x ^ 0xFFFF_FFFF) & 0x1111_1110) >> 3;
    c | (c * 2)
  }

  function AddBcd(a: bv32, b: bv32): bv32 {
    var a6 := Plus(a, SIXES);
    Minus(Plus(a6, b), Correction(Carries(a6, b)))
  }

  function Dec2Bcd(dec: nat): nat {
    dec % 10 + ((dec / 10) % 10) * 16 + ((dec / 100) % 10) * 256
  }

  function Bcd2Dec(bcd: nat): nat {
    bcd % 16 + ((bcd / 16) % 16) * 10 + ((bcd / 256) % 16) * 100
  }

  // Addition of words, digit by digit.

  /** Two digits and a carry make a digit and a carry. */
  predicate Column(a: bv32, b: bv32, carryIn: bv32, sum: bv32, carryOut: bv32) {
    var s := a + b + carryIn;
    sum == s & 15 && carryOut == if s > 15 then 1 else 0
  }

  function CarryInto(a: bv32, b: bv32, k: nat): bv32
    requires k < 8
  {
    Digit(Carries(a, b), k) & 1
  }

  lemma Column0(a: bv32, b: bv32)
    ensures Column(a & 15, b & 15, Carries(a, b) & 15 & 1, Plus(a, b) & 15, (Carries(a, b) >> 4) & 15 & 1)
    ensures Carries(a, b) & 15 & 1 == 0
  {
  }

  lemma Column1(a: bv32, b: bv32)
    ensures Column((a >> 4) & 15, (b >> 4) & 15, (Carries(a, b) >> 4) & 15 & 1, (Plus(a, b) >> 4) & 15,
        (Carries(a, b) >> 8) & 15 & 1)
  {
  }

  lemma Column2(a: bv32, b: bv32)
    ensures Column((a >> 8) & 15, (b >> 8) & 15, (Carries(a, b) >> 8) & 15 & 1, (Plus(a, b) >> 8) & 15,
        (Carries(a, b) >> 12) & 15 & 1)
  {
  }

  lemma Column3(a: bv32, b: bv32)
    ensures Column((a >> 12) & 15, (b >> 12) & 15, (Carries(a, b) >> 12) & 15 & 1, (Plus(a, b) >> 12) & 15,
        (Carries(a, b) >> 16) & 15 & 1)
  {
  }

  lemma Column4(a: bv32, b: bv32)
    ensures Column((a >> 16) & 15, (b >> 16) & 15, (Carries(a, b) >> 16) & 15 & 1, (Plus(a, b) >> 16) & 15,
        (Carries(a, b) >> 20) & 15 & 1)
  {
  }

  lemma Column5(a: bv32, b: bv32)
    ensures Column((a >> 20) & 15, (b >> 20) & 15, (Carries(a, b) >> 20) & 15 & 1, (Plus(a, b) >> 20) & 15,
        (Carries(a, b) >> 24) & 15 & 1)
  {
  }

  lemma Column6(a: bv32, b: bv32)
    ensures Column((a >> 24) & 15, (b >> 24) & 15, (Carries(a, b) >> 24) & 15 & 1, (Plus(a, b) >> 24) & 15,
        (Carries(a, b) >> 28) & 15 & 1)
  {
  }

  lemma Column7(a: bv32, b: bv32)
    ensures TopColumn((a >> 28) & 15, (b >> 28) & 15, (Carries(a, b) >> 28) & 15 & 1, (Plus(a, b) >> 28) & 15)
  {
  }

  /** The topmost digit, whose carry is lost. */
  predicate TopColumn(a: bv32, b: bv32, carryIn: bv32, sum: bv32) {
    sum == (a + b + carryIn) & 15
  }

  lemma TheTopColumn(a: bv32, b: bv32)
    ensures TopColumn(Digit(a, 7), Digit(b, 7), CarryInto(a, b, 7), Digit(Plus(a, b), 7))
  {
    Column7(a, b);
    hide Carries;
    hide Plus;
    hide TopColumn;
  }

  lemma EachColumn(a: bv32, b: bv32, k: nat)
    requires k < 7
    ensures Column(Digit(a, k), Digit(b, k), CarryInto(a, b, k), Digit(Plus(a, b), k), CarryInto(a, b, k + 1))
    ensures k == 0 ==> CarryInto(a, b, k) == 0
  {
    hide Column;
    hide Carries;
    hide Plus;
    match k
    case 0 => Column0(a, b);
    case 1 => Column1(a, b);
    case 2 => Column2(a, b);
    case 3 => Column3(a, b);
    case 4 => Column4(a, b);
    case 5 => Column5(a, b);
    case 6 => Column6(a, b);
  }

  // The predicates.

  /** The carries of the addition tell whether all of the low seven digits are decimal. */
  lemma IsBcdMeansDecimal(w: bv32)
    ensures IsBcd(w) <==> Decimal(w)
  {
    IsBcdBits(w);
    hide IsBcd;
    assert Decimal(w) <==>
           && Digit(w, 0) <= 9 && Digit(w, 1) <= 9 && Digit(w, 2) <= 9 && Digit(w, 3) <= 9
           && Digit(w, 4) <= 9 && Digit(w, 5) <= 9 && Digit(w, 6) <= 9;
  }

  lemma IsBcdBits(w: bv32)
    ensures IsBcd(w) <==>
            && w & 15 <= 9 && (w >> 4) & 15 <= 9 && (w >> 8) & 15 <= 9 && (w >> 12) & 15 <= 9
            && (w >> 16) & 15 <= 9 && (w >> 20) & 15 <= 9 && (w >> 24) & 15 <= 9
  {
  }

  predicate Mirrors(d: bv32, e: bv32) {
    d == e ^ 15
  }

  ghost predicate Complements(n: bv32, m: bv32) {
    forall k :: 0 <= k < 7 ==> Mirrors(Digit(n, k), Digit(m, k))
  }

  predicate ComplementBits(n: bv32, m: bv32) {
    && Mirrors(n & 15, m & 15) && Mirrors((n >> 4) & 15, (m >> 4) & 15)
    && Mirrors((n >> 8) & 15, (m >> 8) & 15) && Mirrors((n >> 12) & 15, (m >> 12) & 15)
    && Mirrors((n >> 16) & 15, (m >> 16) & 15) && Mirrors((n >> 20) & 15, (m >> 20) & 15)
    && Mirrors((n >> 24) & 15, (m >> 24) & 15)
  }

  lemma BitsOfComplement(m: bv32)
    ensures ComplementBits(m ^ 0xFFFF_FFFF, m)
  {
  }

  lemma DigitsOfComplement(n: bv32, m: bv32)
    requires ComplementBits(n, m)
    ensures Complements(n, m)
  {
    hide Mirrors;
    forall k | 0 <= k < 7 ensures Mirrors(Digit(n, k), Digit(m, k)) {
      match k
      case 0 =>
      case 1 =>
      case 2 =>
      case 3 =>
      case 4 =>
      case 5 =>
      case 6 =>
    }
  }

  lemma SomeCarry(a: bv32, b: bv32)
    ensures Carries(a, b) & 0x1111_1110 != 0 <==> exists k :: 1 <= k < 8 && CarryInto(a, b, k) != 0
  {
    var x := Carries(a, b);
    hide Carries;
    SomeBit(x);
    assert (exists k :: 1 <= k < 8 && CarryInto(a, b, k) != 0) <==>
           || CarryInto(a, b, 1) != 0 || CarryInto(a, b, 2) != 0 || CarryInto(a, b, 3) != 0 || CarryInto(a, b, 4) != 0
           || CarryInto(a, b, 5) != 0 || CarryInto(a, b, 6) != 0 || CarryInto(a, b, 7) != 0;
  }

  lemma SomeBit(x: bv32)
    ensures x & 0x1111_1110 != 0 <==>
            || (x >> 4) & 15 & 1 != 0 || (x >> 8) & 15 & 1 != 0 || (x >> 12) & 15 & 1 != 0 || (x >> 16) & 15 & 1 != 0
            || (x >> 20) & 15 & 1 != 0 || (x >> 24) & 15 & 1 != 0 || (x >> 28) & 15 & 1 != 0
  {
  }

  lemma DigitIsSmall(w: bv32, k: nat)
    requires k < 8
    ensures Digit(w, k) <= 15 && Digit(w, k) & 1 <= 1
  {
  }

  lemma ColumnGreater(d: bv32, e: bv32, f: bv32, carryIn: bv32, sum: bv32, carryOut: bv32)
    requires d <= 15 && e <= 15 && carryIn <= 1 && Mirrors(f, e) && Column(d, f, carryIn, sum, carryOut)
    ensures carryOut != 0 <==> d > e || (d == e && carryIn != 0)
  {
  }

  /** A carry out of digit k comes from a digit up to k that is greater than its maximum. */
  lemma {:induction false} CarryMeansGreater(w: bv32, m: bv32, n: bv32, k: nat)
    requires k < 7 && Complements(n, m)
    ensures CarryInto(w, n, k + 1) != 0 ==> exists j :: 0 <= j <= k && Digit(w, j) > Digit(m, j)
    ensures Digit(w, k) > Digit(m, k) ==> CarryInto(w, n, k + 1) != 0
  {
    EachColumn(w, n, k);
    DigitIsSmall(w, k);
    DigitIsSmall(m, k);
    DigitIsSmall(Carries(w, n), k);
    assert CarryInto(w, n, k) <= 1;
    hide CarryInto;
    hide Digit;
    hide Carries;
    hide Plus;
    ColumnGreater(Digit(w, k), Digit(m, k), Digit(n, k), CarryInto(w, n, k), Digit(Plus(w, n), k),
        CarryInto(w, n, k + 1));
    hide Column;
    if k > 0 {
      CarryMeansGreater(w, m, n, k - 1);
    }
  }

  lemma GreaterIsSomeCarry(w: bv32, m: bv32, n: bv32)
    requires n == m ^ 0xFFFF_FFFF
    ensures DigitsGreater(w, m) <==> exists k :: 1 <= k < 8 && CarryInto(w, n, k) != 0
  {
    SomeCarry(w, n);
    hide CarryInto;
  }

  /** The complement turns the comparison of digits into carries. */
  lemma DigitsGreaterMeansSome(w: bv32, m: bv32)
    ensures DigitsGreater(w, m) <==> exists k :: 0 <= k < 7 && Digit(w, k) > Digit(m, k)
  {
    var n := m ^ 0xFFFF_FFFF;
    BitsOfComplement(m);
    hide ComplementBits;
    DigitsOfComplement(n, m);
    hide Complements;
    GreaterIsSomeCarry(w, m, n);
    hide CarryInto;
    hide Digit;
    hide DigitsGreater;
    forall k | 0 <= k < 7
      ensures CarryInto(w, n, k + 1) != 0 ==> exists j :: 0 <= j < 7 && Digit(w, j) > Digit(m, j)
      ensures Digit(w, k) > Digit(m, k) ==> CarryInto(w, n, k + 1) != 0
    {
      CarryMeansGreater(w, m, n, k);
    }
    forall k | 1 <= k < 8 && CarryInto(w, n, k) != 0
      ensures exists j :: 0 <= j < 7 && Digit(w, j) > Digit(m, j)
    {
      CarryMeansGreater(w, m, n, k - 1);
    }
  }

  // Addition of decimal numbers.

  lemma SixesDigit(k: nat)
    requires k < 8
    ensures Digit(SIXES, k) == if k < 7 then 6 else 0
  {
    match k
    case 0 =>
    case 1 =>
    case 2 =>
    case 3 =>
    case 4 =>
    case 5 =>
    case 6 =>
    case 7 =>
  }

  predicate Corrects(q: bv32, carryOut: bv32) {
    q == if carryOut == 0 then 6 else 0
  }

  lemma CorrectionBits(x: bv32)
    ensures var q := Correction(x);
            && Corrects(q & 15, (x >> 4) & 15 & 1) && Corrects((q >> 4) & 15, (x >> 8) & 15 & 1)
            && Corrects((q >> 8) & 15, (x >> 12) & 15 & 1) && Corrects((q >> 12) & 15, (x >> 16) & 15 & 1)
            && Corrects((q >> 16) & 15, (x >> 20) & 15 & 1) && Corrects((q >> 20) & 15, (x >> 24) & 15 & 1)
            && Corrects((q >> 24) & 15, (x >> 28) & 15 & 1) && (q >> 28) & 15 == 0
  {
  }

  lemma CorrectionDigit(x: bv32, k: nat)
    requires k < 7
    ensures Corrects(Digit(Correction(x), k), Digit(x, k + 1) & 1)
    ensures Digit(Correction(x), 7) == 0
  {
    CorrectionBits(x);
    hide Corrects;
    hide Correction;
    match k
    case 0 =>
    case 1 =>
    case 2 =>
    case 3 =>
    case 4 =>
    case 5 =>
    case 6 =>
  }

  /** Two decimal digits and a carry make a decimal digit and a carry. */
  predicate DecimalColumn(a: bv32, b: bv32, carryIn: bv32, sum: bv32, carryOut: bv32) {
    var s := a + b + carryIn;
    if s > 9 then sum == s - 10 && carryOut == 1 else sum == s && carryOut == 0
  }

  lemma ColumnOfSix(d: bv32, six: bv32, c: bv32, sum: bv32, carryOut: bv32)
    requires d <= 9 && six == 6 && c == 0 && Column(d, six, c, sum, carryOut)
    ensures sum == d + 6 && carryOut == 0
  {
  }

  lemma CorrectedColumn(d: bv32, e: bv32, d6: bv32, c: bv32, t: bv32, o: bv32, q: bv32, r: bv32, u: bv32, u1: bv32)
    requires d <= 9 && e <= 9 && d6 == d + 6 && c <= 1 && r <= 15 && u == 0
    requires Column(d6, e, c, t, o) && Corrects(q, o) && Column(r, q, u, t, u1)
    ensures u1 == 0 && DecimalColumn(d, e, c, r, o)
  {
  }

  lemma {:induction false} NoCarryFromSixes(a: bv32, k: nat)
    requires k < 8 && Decimal(a)
    ensures CarryInto(a, SIXES, k) == 0
    ensures k < 7 ==> Digit(Plus(a, SIXES), k) == Digit(a, k) + 6
  {
    hide Plus;
    hide Carries;
    hide Column;
    hide CarryInto;
    hide Digit;
    if k < 7 {
      EachColumn(a, SIXES, k);
      SixesDigit(k);
    }
    if k > 0 {
      NoCarryFromSixes(a, k - 1);
      EachColumn(a, SIXES, k - 1);
      SixesDigit(k - 1);
      ColumnOfSix(Digit(a, k - 1), Digit(SIXES, k - 1), CarryInto(a, SIXES, k - 1), Digit(Plus(a, SIXES), k - 1),
          CarryInto(a, SIXES, k));
    }
    if k < 7 {
      ColumnOfSix(Digit(a, k), Digit(SIXES, k), CarryInto(a, SIXES, k), Digit(Plus(a, SIXES), k),
          CarryInto(a, SIXES, k + 1));
    }
  }

  /** Column k of the addition: t is the sum with sixes added, q the correction and r the
      result. */
  ghost predicate Row(a: bv32, b: bv32, a6: bv32, t: bv32, q: bv32, r: bv32, k: nat)
    requires k < 7
  {
    && Digit(a6, k) == Digit(a, k) + 6 && Digit(r, k) <= 15 && CarryInto(a6, b, k) <= 1
    && Column(Digit(a6, k), Digit(b, k), CarryInto(a6, b, k), Digit(t, k), CarryInto(a6, b, k + 1))
    && Corrects(Digit(q, k), CarryInto(a6, b, k + 1))
    && Column(Digit(r, k), Digit(q, k), CarryInto(r, q, k), Digit(t, k), CarryInto(r, q, k + 1))
    && (k == 0 ==> CarryInto(a6, b, k) == 0 && CarryInto(r, q, k) == 0)
  }

  lemma PlusOfDifference(t: bv32, q: bv32)
    ensures Plus(t - q, q) == t
  {
  }

  lemma MinusPlus(t: bv32, q: bv32)
    ensures Plus(Minus(t, q), q) == t
  {
    hide Plus;
    PlusOfDifference(t, q);
  }

  ghost predicate Words(a: bv32, b: bv32, a6: bv32, t: bv32, q: bv32, r: bv32) {
    a6 == Plus(a, SIXES) && t == Plus(a6, b) && q == Correction(Carries(a6, b)) && r == Minus(t, q)
  }

  lemma EachRow(a: bv32, b: bv32, a6: bv32, t: bv32, q: bv32, r: bv32, k: nat)
    requires k < 7 && Decimal(a) && Words(a, b, a6, t, q, r)
    ensures Row(a, b, a6, t, q, r, k)
  {
    hide Plus;
    hide Minus;
    hide Correction;
    hide Carries;
    hide Digit;
    hide Column;
    hide Corrects;
    DigitIsSmall(Carries(a6, b), k);
    DigitIsSmall(r, k);
    CorrectionDigit(Carries(a6, b), k);
    NoCarryFromSixes(a, k);
    EachColumn(a6, b, k);
    MinusPlus(t, q);
    EachColumn(r, q, k);
  }

  /** Removing the sixes leaves no borrow, and digits of the decimal sum. */
  lemma {:induction false} SumDigit(a: bv32, b: bv32, a6: bv32, t: bv32, q: bv32, r: bv32, k: nat)
    requires k < 7 && Decimal(a) && Decimal(b)
    requires forall j :: 0 <= j < 7 ==> Row(a, b, a6, t, q, r, j)
    ensures CarryInto(r, q, k) == 0 && CarryInto(r, q, k + 1) == 0
    ensures DecimalColumn(Digit(a, k), Digit(b, k), CarryInto(a6, b, k), Digit(r, k), CarryInto(a6, b, k + 1))
  {
    hide Column;
    hide CarryInto;
    hide Digit;
    hide Corrects;
    hide DecimalColumn;
    assert Row(a, b, a6, t, q, r, k);
    if k > 0 {
      SumDigit(a, b, a6, t, q, r, k - 1);
    }
    CorrectedColumn(Digit(a, k), Digit(b, k), Digit(a6, k), CarryInto(a6, b, k), Digit(t, k), CarryInto(a6, b, k + 1),
      Digit(q, k), Digit(r, k), CarryInto(r, q, k), CarryInto(r, q, k + 1));
  }

  /** The value of a decimal digit. */
  function Value(d: bv32): int {
    if d == 0 then 0 else if d == 1 then 1 else if d == 2 then 2 else if d == 3 then 3 else if d == 4 then 4
    else if d == 5 then 5 else if d == 6 then 6 else if d == 7 then 7 else if d == 8 then 8 else 9
  }

  lemma ValueOfColumn(a: bv32, b: bv32, carryIn: bv32, sum: bv32, carryOut: bv32)
    requires a <= 9 && b <= 9 && carryIn <= 1 && DecimalColumn(a, b, carryIn, sum, carryOut)
    ensures sum <= 9 && carryOut <= 1
    ensures Value(sum) + 10 * Value(carryOut) == Value(a) + Value(b) + Value(carryIn)
  {
  }

  /** The value of the low k digits. */
  function Low(w: bv32, k: nat): int
    requires k < 8
  {
    if k == 0 then 0 else Low(w, k - 1) + Power(k - 1) * Value(Digit(w, k - 1))
  }

  function Power(k: nat): nat {
    if k == 0 then 1 else 10 * Power(k - 1)
  }

  /** The value of a signed number: ten's complement, with F as the negative sign. */
  function Signed(w: bv32): int {
    Low(w, 7) - if Digit(w, 7) == 15 then Power(7) else 0
  }

  ghost predicate Valid(w: bv32) {
    Decimal(w) && (Digit(w, 7) == 0 || Digit(w, 7) == 15)
  }

  lemma ScaleColumn(p: int, r: int, o: int, a: int, b: int, c: int)
    requires r + 10 * o == a + b + c
    ensures p * r + (10 * p) * o == p * a + p * b + p * c
  {
    assert p * (r + 10 * o) == p * r + (10 * p) * o;
    assert p * (a + b + c) == p * a + p * b + p * c;
  }

  lemma {:induction false} SumOfLow(a: bv32, b: bv32, a6: bv32, t: bv32, q: bv32, r: bv32, k: nat)
    requires k < 8 && Decimal(a) && Decimal(b)
    requires forall j :: 0 <= j < 7 ==> Row(a, b, a6, t, q, r, j)
    ensures forall j :: 0 <= j < k ==> Digit(r, j) <= 9
    ensures CarryInto(a6, b, k) <= 1
    ensures Low(r, k) + Power(k) * Value(CarryInto(a6, b, k)) == Low(a, k) + Low(b, k)
  {
    hide Column;
    hide CarryInto;
    hide Digit;
    hide Corrects;
    hide DecimalColumn;
    if k == 0 {
      assert Row(a, b, a6, t, q, r, 0);
    } else {
      SumOfLow(a, b, a6, t, q, r, k - 1);
      SumDigit(a, b, a6, t, q, r, k - 1);
      ValueOfColumn(Digit(a, k - 1), Digit(b, k - 1), CarryInto(a6, b, k - 1), Digit(r, k - 1), CarryInto(a6, b, k));
      hide Value;
      ScaleColumn(Power(k - 1), Value(Digit(r, k - 1)), Value(CarryInto(a6, b, k)),
        Value(Digit(a, k - 1)), Value(Digit(b, k - 1)), Value(CarryInto(a6, b, k - 1)));
    }
  }

  lemma {:induction false} LowInRange(w: bv32, k: nat)
    requires k < 8
    ensures 0 <= Low(w, k) < Power(k)
  {
    if k > 0 {
      LowInRange(w, k - 1);
      var v := Value(Digit(w, k - 1));
      hide Value;
      assert 0 <= Power(k - 1) * v <= Power(k - 1) * 9 by {
        ValueInRange(Digit(w, k - 1));
      }
    }
  }

  lemma ValueInRange(d: bv32)
    ensures 0 <= Value(d) <= 9
  {
  }

  /** The top digit of the sum, from those of the numbers and the carry. */
  lemma TopDigit(a: bv32, b: bv32, c: bv32, u: bv32, q: bv32, t: bv32, r: bv32)
    requires (a == 0 || a == 15) && (b == 0 || b == 15) && c <= 1 && u == 0 && q == 0 && r <= 15
    requires TopColumn(a, b, c, t) && TopColumn(r, q, u, t)
    ensures r == 0 || r == 15 <==> (c == 0 && (a == 0 || b == 0)) || (c == 1 && (a == 15 || b == 15))
    ensures c == 0 ==> (r == 0 <==> a == 0 && b == 0)
    ensures c == 1 ==> (r == 15 <==> a == 15 && b == 15)
  {
  }

  lemma TopOfSum(a: bv32, b: bv32, a6: bv32, t: bv32, q: bv32, r: bv32)
    requires Valid(a) && Valid(b) && Words(a, b, a6, t, q, r)
    ensures TopColumn(Digit(a, 7), Digit(b, 7), CarryInto(a6, b, 7), Digit(t, 7))
    ensures TopColumn(Digit(r, 7), Digit(q, 7), CarryInto(r, q, 7), Digit(t, 7)) && Digit(q, 7) == 0
  {
    hide Plus;
    hide Minus;
    hide Correction;
    hide Carries;
    hide Digit;
    hide CarryInto;
    NoCarryFromSixes(a, 7);
    SixesDigit(7);
    TheTopColumn(a, SIXES);
    TheTopColumn(a6, b);
    MinusPlus(t, q);
    TheTopColumn(r, q);
    CorrectionDigit(Carries(a6, b), 0);
    SameTop(Digit(a, 7), Digit(SIXES, 7), CarryInto(a, SIXES, 7), Digit(a6, 7));
  }

  lemma SameTop(a: bv32, b: bv32, c: bv32, s: bv32)
    requires (a == 0 || a == 15) && b == 0 && c == 0 && TopColumn(a, b, c, s)
    ensures s == a
  {
  }

  lemma PowerSeven()
    ensures Power(7) == 10_000_000
  {
    assert Power(4) == 10_000;
  }

  /** Carry correction adds signed decimal numbers in ten's complement; the sum is well formed
      exactly if it is in range. */
  lemma AddBcdAdds(a: bv32, b: bv32)
    requires Valid(a) && Valid(b)
    ensures Valid(AddBcd(a, b)) <==> -10_000_000 <= Signed(a) + Signed(b) < 10_000_000
    ensures Valid(AddBcd(a, b)) ==> Signed(AddBcd(a, b)) == Signed(a) + Signed(b)
    ensures Decimal(AddBcd(a, b))
  {
    PowerSeven();
    hide Plus;
    hide Minus;
    hide Correction;
    hide Carries;
    hide Digit;
    hide CarryInto;
    hide Row;
    hide TopColumn;
    hide Power;
    hide Low;
    hide Column;
    hide DecimalColumn;
    var a6 := Plus(a, SIXES);
    var t := Plus(a6, b);
    var q := Correction(Carries(a6, b));
    var r := AddBcd(a, b);
    forall k | 0 <= k < 7 ensures Row(a, b, a6, t, q, r, k) {
      EachRow(a, b, a6, t, q, r, k);
    }
    SumOfLow(a, b, a6, t, q, r, 7);
    SumDigit(a, b, a6, t, q, r, 6);
    TopOfSum(a, b, a6, t, q, r);
    DigitIsSmall(r, 7);
    TopDigit(Digit(a, 7), Digit(b, 7), CarryInto(a6, b, 7), CarryInto(r, q, 7), Digit(q, 7), Digit(t, 7), Digit(r, 7));
    LowInRange(a, 7);
    LowInRange(b, 7);
    LowInRange(r, 7);
  }

  // Conversion of up to three digits.

  lemma HexDigits(d0: nat, d1: nat, d2: nat)
    requires d0 < 16 && d1 < 16 && d2 < 16
    ensures var b := d0 + 16 * d1 + 256 * d2;
            b % 16 == d0 && (b / 16) % 16 == d1 && (b / 256) % 16 == d2
  {
    var b := d0 + 16 * d1 + 256 * d2;
    assert b / 16 == d1 + 16 * d2;
    assert b / 256 == d2;
  }

  lemma DecimalDigits(d0: nat, d1: nat, d2: nat)
    requires d0 < 10 && d1 < 10 && d2 < 10
    ensures var n := d0 + 10 * d1 + 100 * d2;
            n % 10 == d0 && (n / 10) % 10 == d1 && (n / 100) % 10 == d2
  {
    var n := d0 + 10 * d1 + 100 * d2;
    assert n / 10 == d1 + 10 * d2;
    assert n / 100 == d2;
  }

  lemma LowDecimals(n: nat)
    ensures n % 1000 == n % 10 + 10 * ((n / 10) % 10) + 100 * ((n / 100) % 10)
  {
    var q := n / 1000;
    var h := n / 100;
    var t := n / 10;
    assert h / 10 == q && t / 10 == h;
  }

  lemma LowHexDigits(b: nat)
    ensures b % 0x1000 == b % 16 + 16 * ((b / 16) % 16) + 256 * ((b / 256) % 16)
  {
    var q := b / 0x1000;
    var h := b / 256;
    var t := b / 16;
    assert h / 16 == q && t / 16 == h;
  }

  lemma ToBcdAndBack(n: nat)
    ensures Bcd2Dec(Dec2Bcd(n)) == n % 1000
  {
    HexDigits(n % 10, (n / 10) % 10, (n / 100) % 10);
    LowDecimals(n);
  }

  lemma FromBcdAndBack(b: nat)
    requires b % 16 <= 9 && (b / 16) % 16 <= 9 && (b / 256) % 16 <= 9
    ensures Dec2Bcd(Bcd2Dec(b)) == b % 0x1000
  {
    DecimalDigits(b % 16, (b / 16) % 16, (b / 256) % 16);
    LowHexDigits(b);
  }
}
