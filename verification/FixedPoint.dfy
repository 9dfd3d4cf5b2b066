/** The fixed-point helpers (contracts/credence_math/src/lib.rs), machine widths included, and
    the proof that they round exactly as promised. */
module FixedPoint {
  import opened Host
  import opened Arithmetic

  const TWO_128: nat := 0x1_0000_0000_0000_0000_0000_0000_0000_0000
  const TWO_256: nat := TWO_128 * TWO_128

  datatype Rounding = Down | Up | Nearest

  /** `Panic` stands for the panic with the caller's own message. */
  datatype MathError = Panic | DivisionByZero | Overflow

  function Abs(x: int): nat {
    if x < 0 then -x else x
  }

  function WithSign(negative: bool, m: int): int {
    if negative then -m else m
  }

  function WrapI128(x: int): int {
    var m := x % TWO_128;
    if m <= I128_MAX then m else m - TWO_128
  }

  // ----- What the documentation promises, stated without computing it -----

  /** `m` is `n / d` rounded by `mode`, for magnitudes. */
  predicate RoundsMagnitude(mode: Rounding, n: nat, d: nat, m: nat) {
    match mode
    case Down => m * d <= n < (m + 1) * d
    case Up => (m - 1) * d < n <= m * d
    case Nearest => (2 * m - 1) * d <= 2 * n < (2 * m + 1) * d
  }

  /** `r` is `x / d` rounded by `mode`: toward zero, away from zero, or to the nearest integer
      with ties away from zero. */
  predicate RoundsTo(mode: Rounding, x: int, d: int, r: int) {
    && RoundsMagnitude(mode, Abs(x), Abs(d), Abs(r))
    && (r != 0 ==> (r > 0 <==> (x > 0 <==> d > 0)))
  }

  // ----- The code -----

  function RoundQuotient(mode: Rounding, numerator: nat, divisor: nat): nat
    requires divisor > 0
  {
    var quotient, remainder := numerator / divisor, numerator % divisor;
    match mode
    case Down => quotient
    case Up => if remainder == 0 then quotient else (quotient + 1) % TWO_256
    case Nearest => if (remainder * 2) % TWO_256 >= divisor then (quotient + 1) % TWO_256 else quotient
  }

  /** The last step of mul_div: range check, truncating cast and sign. */
  function Signed(negative: bool, rounded: nat): Result<int, MathError> {
    if negative then
      if rounded > I128_MAX + 1 then Err(Panic)
      else if rounded == I128_MAX + 1 then Ok(I128_MIN)
      else Ok(-(rounded % TWO_128))
    else
      if rounded > I128_MAX then Err(Panic)
      else Ok(rounded % TWO_128)
  }

  /** Products and sums of the 256-bit intermediate wrap. */
  function MulDiv(a: int, b: int, denom: int, mode: Rounding): Result<int, MathError> {
    if denom == 0 then Err(Panic)
    else
      var negative := (a < 0) != ((b < 0) != (denom < 0));
      Signed(negative, RoundQuotient(mode, (Abs(a) * Abs(b)) % TWO_256, Abs(denom)))
  }

  function MulChecked(a: int, b: int): Result<int, MathError> {
    if InI128(a * b) then Ok(a * b) else Err(Panic)
  }

  function Bps(amount: int, bps: nat): Result<int, MathError> {
    var numerator := MulChecked(amount, bps);
    if numerator.Err? then numerator else Ok(TruncDiv(numerator.value, BPS_DENOMINATOR))
  }

  function BpsRoundUp(amount: int, bps: nat): Result<int, MathError> {
    MulDiv(amount, bps, BPS_DENOMINATOR, Up)
  }

  function SplitBps(amount: int, bps: nat): Result<(int, int), MathError> {
    var fee := Bps(amount, bps);
    if fee.Err? then Err(fee.error)
    else if !InI128(amount - fee.value) then Err(Panic)
    else Ok((fee.value, amount - fee.value))
  }

  /** `b - 1` is plain machine subtraction; the sum and the division are checked. */
  function CeilDivChecked(a: int, b: int): Result<int, MathError> {
    if b == 0 then Err(DivisionByZero)
    else
      var sum := a + WrapI128(b - 1);
      if !InI128(sum) then Err(Overflow)
      else if sum == I128_MIN && b == -1 then Err(Overflow)
      else Ok(TruncDiv(sum, b))
  }

  // ----- Multiplication facts -----

  lemma MulBound(a: nat, b: nat)
    requires a <= I128_MAX + 1 && b <= I128_MAX + 1
    ensures a * b <= (I128_MAX + 1) * (I128_MAX + 1) < TWO_256
  {
    MulLe(a, I128_MAX + 1, b);
    MulLe(b, I128_MAX + 1, I128_MAX + 1);
  }

  lemma DivMagnitude(n: nat, d: nat)
    requires d > 0
    ensures n / d <= n && n == (n / d) * d + n % d && 0 <= n % d < d
  {
    if n / d > n { MulLe(n + 1, n / d, d); MulLe(1, d, n + 1); }
  }

  // ----- Exactness of mul_div -----

  lemma RoundedOrder(mode: Rounding, n: nat, d: nat, m: nat, k: nat)
    requires d > 0 && m < k && RoundsMagnitude(mode, n, d, m)
    ensures !RoundsMagnitude(mode, n, d, k)
  {
    match mode
    case Down => MulLe(m + 1, k, d);
    case Up => MulLe(m, k - 1, d);
    case Nearest => MulLe(2 * m + 1, 2 * k - 1, d);
  }

  /** At most one magnitude is the rounded one. */
  lemma RoundedUnique(mode: Rounding, n: nat, d: nat, m: nat, k: nat)
    requires d > 0 && RoundsMagnitude(mode, n, d, m) && RoundsMagnitude(mode, n, d, k)
    ensures m == k
  {
    if m < k {
      RoundedOrder(mode, n, d, m, k);
    } else if k < m {
      RoundedOrder(mode, n, d, k, m);
    }
  }

  lemma SmallMod(x: nat, m: nat)
    requires x < m
    ensures x % m == x
  {
  }

  /** The adjustment of the quotient never wraps. */
  lemma QuotientFits(mode: Rounding, n: nat, d: nat)
    requires 0 < d <= I128_MAX + 1 && n <= (I128_MAX + 1) * (I128_MAX + 1)
    ensures var q, r := n / d, n % d;
      RoundQuotient(mode, n, d) == match mode
                                   case Down => q
                                   case Up => if r == 0 then q else q + 1
                                   case Nearest => if r * 2 >= d then q + 1 else q
  {
    DivMagnitude(n, d);
    SmallMod(n / d + 1, TWO_256);
    SmallMod((n % d) * 2, TWO_256);
  }

  lemma AdjustmentRounds(mode: Rounding, n: nat, d: nat, q: nat, r: nat)
    requires d > 0 && n == q * d + r && r < d
    ensures RoundsMagnitude(mode, n, d,
                            match mode
                            case Down => q
                            case Up => if r == 0 then q else q + 1
                            case Nearest => if r * 2 >= d then q + 1 else q)
  {
    assert (q + 1) * d == q * d + d;
    match mode
    case Down =>
    case Up => assert (q - 1) * d == q * d - d;
    case Nearest =>
      assert (2 * q) * d == 2 * (q * d);
      assert (2 * q + 1) * d == 2 * (q * d) + d;
      assert (2 * q - 1) * d == 2 * (q * d) - d;
      assert (2 * (q + 1) - 1) * d == 2 * (q * d) + d;
      assert (2 * (q + 1) + 1) * d == 2 * (q * d) + 3 * d;
  }

  /** The quotient, adjusted by its remainder, is the rounded one; nothing wraps on the way. */
  lemma QuotientRounds(mode: Rounding, n: nat, d: nat)
    requires 0 < d <= I128_MAX + 1 && n <= (I128_MAX + 1) * (I128_MAX + 1)
    ensures RoundsMagnitude(mode, n, d, RoundQuotient(mode, n, d))
  {
    DivMagnitude(n, d);
    QuotientFits(mode, n, d);
    AdjustmentRounds(mode, n, d, n / d, n % d);
  }

  lemma AbsMul(a: int, b: int)
    ensures Abs(a * b) == Abs(a) * Abs(b)
    ensures a * b > 0 <==> (a > 0 && b > 0) || (a < 0 && b < 0)
    ensures a * b == 0 <==> a == 0 || b == 0
  {
    if a > 0 && b > 0 { MulLe(1, a, b); }
    if a > 0 && b < 0 { MulLe(1, a, -b); assert a * b == -(a * -b); }
    if a < 0 && b > 0 { MulLe(1, -a, b); assert a * b == -(-a * b); }
    if a < 0 && b < 0 { MulLe(1, -a, -b); assert a * b == -a * -b; }
  }

  lemma SignedIsExact(negative: bool, m: nat)
    ensures var r := WithSign(negative, m);
      Signed(negative, m) == if InI128(r) then Ok(r) else Err(Panic)
  {
    if m < TWO_128 { SmallMod(m, TWO_128); }
  }

  lemma ZeroRounds(mode: Rounding, n: nat, d: nat, m: nat)
    requires d > 0 && RoundsMagnitude(mode, n, d, m)
    ensures n == 0 ==> m == 0
  {
    if n == 0 { RoundedUnique(mode, 0, d, m, 0); }
  }

  /** Given the rounded magnitude, the rounded value has the sign of the exact quotient. */
  lemma RoundsToIs(mode: Rounding, x: int, d: int, m: nat, r: int)
    requires d != 0 && RoundsMagnitude(mode, Abs(x), Abs(d), m)
    ensures RoundsTo(mode, x, d, r) <==> r == WithSign((x > 0) != (d > 0), m)
  {
    ZeroRounds(mode, Abs(x), Abs(d), m);
    if RoundsTo(mode, x, d, r) { RoundedUnique(mode, Abs(x), Abs(d), m, Abs(r)); }
  }

  /** What mul_div computes before the range check. */
  lemma MulDivIsSigned(a: int, b: int, denom: int, mode: Rounding) returns (m: nat)
    requires InI128(a) && InI128(b) && InI128(denom) && denom != 0
    ensures RoundsMagnitude(mode, Abs(a * b), Abs(denom), m)
    ensures MulDiv(a, b, denom, mode) == Signed((a * b > 0) != (denom > 0) && m != 0, m)
  {
    AbsMul(a, b);
    MulBound(Abs(a), Abs(b));
    var n := Abs(a) * Abs(b);
    SmallMod(n, TWO_256);
    QuotientRounds(mode, n, Abs(denom));
    m := RoundQuotient(mode, n, Abs(denom));
    ZeroRounds(mode, n, Abs(denom), m);
    SmallMod(0, TWO_128);
  }

  /** mul_div returns `r` exactly when `r` is the mathematically rounded a*b/denom and fits: it
      fails exactly on a zero denominator or when the rounded quotient does not fit in i128. */
  lemma MulDivIsExact(a: int, b: int, denom: int, mode: Rounding, r: int)
    requires InI128(a) && InI128(b) && InI128(denom)
    ensures MulDiv(a, b, denom, mode) == Ok(r) <==> denom != 0 && InI128(r) && RoundsTo(mode, a * b, denom, r)
  {
    if denom != 0 {
      var m := MulDivIsSigned(a, b, denom, mode);
      SignedIsExact((a * b > 0) != (denom > 0) && m != 0, m);
      RoundsToIs(mode, a * b, denom, m, r);
    }
  }

  /** A rounded quotient always exists and is unique, so "fails" above means "does not fit". */
  lemma RoundingIsTotal(a: int, b: int, denom: int, mode: Rounding) returns (r: int)
    requires InI128(a) && InI128(b) && InI128(denom) && denom != 0
    ensures forall k :: RoundsTo(mode, a * b, denom, k) <==> k == r
    ensures MulDiv(a, b, denom, mode) == if InI128(r) then Ok(r) else Err(Panic)
  {
    var m := MulDivIsSigned(a, b, denom, mode);
    r := WithSign((a * b > 0) != (denom > 0), m);
    forall k ensures RoundsTo(mode, a * b, denom, k) <==> k == r {
      RoundsToIs(mode, a * b, denom, m, k);
    }
    SignedIsExact((a * b > 0) != (denom > 0) && m != 0, m);
  }

  // ----- The other helpers agree with mul_div -----

  lemma TruncRounds(x: int, d: int)
    requires d > 0
    ensures RoundsTo(Down, x, d, TruncDiv(x, d))
  {
    DivMagnitude(Abs(x), d);
    var q := Abs(x) / d;
    assert (q + 1) * d == q * d + d;
    ZeroRounds(Down, Abs(x), d, q);
  }

  /** bps is mul_div rounded down, restricted to products that fit in i128. */
  lemma BpsAgrees(amount: int, bps: nat)
    requires InI128(amount) && bps <= U32_MAX
    ensures Bps(amount, bps) == if InI128(amount * bps) then MulDiv(amount, bps, BPS_DENOMINATOR, Down) else Err(Panic)
  {
    if InI128(amount * bps) {
      var r := TruncDiv(amount * bps, BPS_DENOMINATOR);
      TruncRounds(amount * bps, BPS_DENOMINATOR);
      MulDivIsExact(amount, bps, BPS_DENOMINATOR, Down, r);
    }
  }

  lemma UpOverDown(n: nat, d: nat, up: nat, down: nat)
    requires d > 0 && RoundsMagnitude(Up, n, d, up) && RoundsMagnitude(Down, n, d, down)
    ensures up == down + (if n % d == 0 then 0 else 1)
  {
    DivMagnitude(n, d);
    AdjustmentRounds(Up, n, d, n / d, n % d);
    AdjustmentRounds(Down, n, d, n / d, n % d);
    RoundedUnique(Down, n, d, down, n / d);
    RoundedUnique(Up, n, d, up, if n % d == 0 then n / d else n / d + 1);
  }

  lemma BpsMagnitude(amount: int, bps: nat, up: nat, down: nat)
    requires bps <= 10_000 && RoundsMagnitude(Up, Abs(amount * bps), 10_000, up)
        && RoundsMagnitude(Down, Abs(amount * bps), 10_000, down)
    ensures up == down + (if Abs(amount * bps) % 10_000 == 0 then 0 else 1)
    ensures down <= up <= Abs(amount)
    ensures amount < 0 ==> amount * bps <= 0
  {
    AbsMul(amount, bps);
    MulLe(bps, 10_000, Abs(amount));
    UpOverDown(Abs(amount * bps), 10_000, up, down);
  }

  /** Rounding up gives what rounding down gives, or one further from zero exactly when there is
      a remainder; at rates up to 100% it never fails and never exceeds the amount. */
  lemma BpsRoundUpIsTight(amount: int, bps: nat)
    requires InI128(amount) && bps <= 10_000
    ensures BpsRoundUp(amount, bps).Ok? && MulDiv(amount, bps, BPS_DENOMINATOR, Down).Ok?
    ensures var up, down := BpsRoundUp(amount, bps).value, MulDiv(amount, bps, BPS_DENOMINATOR, Down).value;
      && Abs(up) == Abs(down) + (if Abs(amount * bps) % BPS_DENOMINATOR == 0 then 0 else 1)
      && Abs(up) <= Abs(amount)
  {
    var u := RoundingIsTotal(amount, bps, BPS_DENOMINATOR, Up);
    var d := RoundingIsTotal(amount, bps, BPS_DENOMINATOR, Down);
    assert RoundsTo(Up, amount * bps, BPS_DENOMINATOR, u) && RoundsTo(Down, amount * bps, BPS_DENOMINATOR, d);
    BpsMagnitude(amount, bps, Abs(u), Abs(d));
  }

  /** The fee and the net share add up to the amount. The subtraction cannot fail: a split fails
      only when the product does not fit. At rates up to 100% both shares keep the amount's sign. */
  lemma SplitConserves(amount: int, bps: nat)
    requires InI128(amount) && bps <= U32_MAX
    ensures SplitBps(amount, bps).Ok? <==> InI128(amount * bps)
    ensures SplitBps(amount, bps).Ok? ==>
      var (fee, net) := SplitBps(amount, bps).value;
      && fee + net == amount
      && RoundsTo(Down, amount * bps, BPS_DENOMINATOR, fee)
      && (bps <= 10_000 ==> Abs(fee) + Abs(net) == Abs(amount))
  {
    if InI128(amount * bps) {
      TruncRounds(amount * bps, BPS_DENOMINATOR);
      var fee := TruncDiv(amount * bps, BPS_DENOMINATOR);
      AbsMul(amount, bps);
      if bps > 0 { MulLe(1, bps, Abs(amount)); }
      if bps <= 10_000 { MulLe(bps, 10_000, Abs(amount)); }
      assert bps == 0 ==> fee == 0;
    }
  }

  lemma ZeroRoundsUp(a: nat, b: nat, r: nat)
    requires b > 0 && (r - 1) * b < a <= r * b
    ensures a == 0 ==> r == 0
  {
    if a == 0 { RoundedUnique(Up, 0, b, r, 0); }
  }

  /** On its stated domain ceil_div is the ceiling, which mul_div computes with Up; it fails
      there only when a + (b - 1) does not fit. */
  lemma CeilDivAgrees(a: int, b: int)
    requires InI128(a) && InI128(b) && a >= 0 && b > 0
    ensures CeilDivChecked(a, b) == if a + b - 1 <= I128_MAX then MulDiv(a, 1, b, Up) else Err(Overflow)
  {
    if a + b - 1 <= I128_MAX {
      var n, r := a + b - 1, (a + b - 1) / b;
      DivMagnitude(n, b);
      assert (r - 1) * b == r * b - b;
      ZeroRoundsUp(a, b, r);
      assert a * 1 == a;
      MulDivIsExact(a, 1, b, Up, r);
    }
  }

  /** `r` is the least integer not below a / b. */
  predicate IsCeiling(a: int, b: int, r: int) {
    if b > 0 then (r - 1) * b < a <= r * b else (r - 1) * b > a >= r * b
  }

  lemma CeilDivIs(a: int, b: int)
    requires I128_MIN <= a < 0 && 0 < b <= I128_MAX
    ensures CeilDivChecked(a, b) == Ok(TruncDiv(a + b - 1, b))
  {
  }

  /** The quotient `e` of 1 - b - a, and when -e is the ceiling of a / b. */
  lemma NegatedQuotient(a: int, b: int, q: int, t: int, e: int)
    requires b > 0 && a == q * b + t && 0 <= t < b
    requires e == if t == 0 && b == 1 then -q else if t <= 1 then -q - 1 else -q - 2
    ensures e * b <= 1 - b - a < (e + 1) * b
    ensures (-e - 1) * b < a <= -e * b <==> b == 1 || t == 1
  {
    var x := q * b;
    assert (-q) * b == -x && (-q + 1) * b == -x + b;
    assert (-q - 1) * b == -x - b && (-q - 2) * b == -x - 2 * b;
    assert (q + 1) * b == x + b && (q + 2) * b == x + 2 * b && (q - 1) * b == x - b;
  }

  lemma QuotientIs(n: nat, d: nat, q: int)
    requires d > 0 && q * d <= n < (q + 1) * d
    ensures n / d == q
  {
    DivMagnitude(n, d);
    var k := n / d;
    assert (k + 1) * d == k * d + d;
    if k < q { MulLe(k + 1, q, d); }
    if q < k { MulLe(q + 1, k, d); }
  }

  lemma CeilBelowZero(a: int, b: int)
    requires b > 0 && a + b - 1 < 0
    ensures var r := TruncDiv(a + b - 1, b);
      (r - 1) * b < a <= r * b <==> b == 1 || a % b == 1
  {
    var q, t := a / b, a % b;
    var e := if t == 0 && b == 1 then -q else if t <= 1 then -q - 1 else -q - 2;
    NegatedQuotient(a, b, q, t, e);
    QuotientIs(1 - b - a, b, e);
  }

  lemma CeilOfPositiveDivisor(a: int, b: int)
    requires InI128(a) && 0 < b <= I128_MAX && CeilDivChecked(a, b).Ok?
    ensures IsCeiling(a, b, CeilDivChecked(a, b).value) <==> a > -b || b == 1 || a % b == 1
  {
    var n := a + b - 1;
    if a >= 0 {
      DivMagnitude(n, b);
      assert (n / b - 1) * b == (n / b) * b - b;
    } else {
      CeilDivIs(a, b);
      if n < 0 { CeilBelowZero(a, b); } else { QuotientIs(n, b, 0); }
    }
  }

  lemma DivByNegative(n: nat, c: int)
    requires c > 0
    ensures n / -c == -(n / c)
  {
    var q, k := n / c, n / -c;
    assert n == q * c + n % c && n == k * (-c) + n % -c && 0 <= n % -c < c;
    assert k * (-c) == (-k) * c && (-k + 1) * c == (-k) * c + c;
    QuotientIs(n, c, -k);
  }

  /** `r` against the ceiling -q of a / -c, where a == q * c + t. */
  lemma CeilOfNegativeIs(a: int, c: int, q: int, t: int, r: int)
    requires c > 0 && a == q * c + t && 0 <= t < c
    ensures IsCeiling(a, -c, r) <==> r == -q
  {
    assert r * (-c) == -(r * c) && (r - 1) * (-c) == -(r * c) + c;
    if r == -q {
      assert r * c == -(q * c);
    } else if r < -q {
      MulLe(r + 1, -q, c);
      assert (r + 1) * c == r * c + c && (-q) * c == -(q * c);
    } else {
      MulLe(-q + 1, r, c);
      assert (-q + 1) * c == -(q * c) + c;
    }
  }

  lemma NegativeDivisorIs(a: int, c: int)
    requires InI128(a) && 0 < c <= I128_MAX && CeilDivChecked(a, -c).Ok?
    ensures CeilDivChecked(a, -c).value == if a > c then -((a - c - 1) / c) else (c + 1 - a) / c
  {
    if a > c { DivByNegative(a - c - 1, c); } else { DivByNegative(c + 1 - a, c); }
  }

  /** The quotients in terms of q and t, where a == q * c + t. */
  lemma NegativeDivisorQuotient(a: int, c: int, q: int, t: int)
    requires c > 0 && a == q * c + t && 0 <= t < c
    ensures a > c ==> (a - c - 1) / c == if t == 0 then q - 2 else q - 1
    ensures a <= c ==> (c + 1 - a) / c == if t >= 2 then -q else if t == 0 && c == 1 then 2 - q else 1 - q
  {
    var x := q * c;
    assert (q - 1) * c == x - c && (q - 2) * c == x - 2 * c;
    assert (-q) * c == -x && (1 - q) * c == c - x && (2 - q) * c == 2 * c - x && (3 - q) * c == 3 * c - x;
    if a > c {
      QuotientIs(a - c - 1, c, if t == 0 then q - 2 else q - 1);
    } else {
      QuotientIs(c + 1 - a, c, if t >= 2 then -q else if t == 0 && c == 1 then 2 - q else 1 - q);
    }
  }

  lemma CeilOfNegativeDivisor(a: int, c: int)
    requires InI128(a) && 0 < c <= I128_MAX && CeilDivChecked(a, -c).Ok?
    ensures IsCeiling(a, -c, CeilDivChecked(a, -c).value) <==> a < c && a % c >= 2
  {
    var q, t := a / c, a % c;
    NegativeDivisorIs(a, c);
    NegativeDivisorQuotient(a, c, q, t);
    CeilOfNegativeIs(a, c, q, t, CeilDivChecked(a, -c).value);
    if a == c { QuotientIs(a, c, 1); }
  }

  /** The least divisor: b - 1 wraps to the largest number, and the quotient is 0. */
  lemma CeilOfLeastDivisor(a: int)
    requires InI128(a) && CeilDivChecked(a, I128_MIN).Ok?
    ensures IsCeiling(a, I128_MIN, CeilDivChecked(a, I128_MIN).value) <==> a == 0
  {
    var sum := a + I128_MAX;
    assert WrapI128(I128_MIN - 1) == I128_MAX && sum <= I128_MAX;
    assert CeilDivChecked(a, I128_MIN).value == 0;
  }

  /** Where the formula is the ceiling. A caller can check this before the call. */
  predicate CeilDivIsSound(a: int, b: int)
    requires b != 0
  {
    if b > 0 then a > -b || b == 1 || a % b == 1
    else if b == I128_MIN then a == 0
    else a < -b && a % b >= 2
  }

  /** For all i128 inputs: when a result comes out at all, and exactly when it is the ceiling. On
      nonnegative `a` and positive `b` it always is. */
  lemma CeilDivIsCeilingIff(a: int, b: int)
    requires InI128(a) && InI128(b)
    ensures CeilDivChecked(a, b).Ok? <==>
      b != 0 && InI128(a + WrapI128(b - 1)) && !(b == -1 && a + b - 1 == I128_MIN)
    ensures CeilDivChecked(a, b).Ok? ==> (IsCeiling(a, b, CeilDivChecked(a, b).value) <==> CeilDivIsSound(a, b))
  {
    if CeilDivChecked(a, b).Ok? {
      if b > 0 {
        CeilOfPositiveDivisor(a, b);
      } else if b == I128_MIN {
        CeilOfLeastDivisor(a);
      } else {
        CeilOfNegativeDivisor(a, -b);
        assert a % b == a % -b;
      }
    }
  }

  lemma CeilDivCounterexample()
    ensures CeilDivChecked(-4, 2) == Ok(-1) && MulDiv(-4, 1, 2, Up) == Ok(-2)
  {
  }
}
