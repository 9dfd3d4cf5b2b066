/** Reading back what was printed, for every document and for every baseline. */
module JsonTheorems {
  import opened Host
  import opened Json

  // ----- Texts inside a text -----

  predicate At(b: string, i: nat, t: string) {
    i + |t| <= |b| && forall k :: 0 <= k < |t| ==> b[i + k] == t[k]
  }

  lemma AtSplit(b: string, i: nat, x: string, y: string)
    ensures At(b, i, x + y) <==> At(b, i, x) && At(b, i + |x|, y)
  {
    if At(b, i, x + y) {
      forall k | 0 <= k < |x| ensures b[i + k] == x[k] {
        assert (x + y)[k] == x[k];
      }
      forall k | 0 <= k < |y| ensures b[i + |x| + k] == y[k] {
        assert (x + y)[|x| + k] == y[k];
      }
    }
  }

  lemma AtChar(b: string, i: nat, t: string, k: nat)
    requires At(b, i, t) && k < |t|
    ensures i + k < |b| && b[i + k] == t[k]
  {
  }

  lemma AtSlice(b: string, i: nat, t: string)
    requires At(b, i, t)
    ensures b[i..i + |t|] == t
  {
  }

  // ----- Digits -----

  lemma {:induction false} DigitsRoundTrip(n: nat)
    ensures Digits(n) != "" && AllDigits(Digits(n)) && DigitsValue(Digits(n)) == n
  {
    if n >= 10 {
      DigitsRoundTrip(n / 10);
      var s := Digits(n);
      assert s[..|s| - 1] == Digits(n / 10);
    } else {
      assert Digits(n)[..0] == "";
    }
  }

  /** What a printed integer is read back as. */
  function DoubleOf(n: int): int {
    if n < 0 then -(NearestDouble(-n) as int) else NearestDouble(n)
  }

  lemma {:induction false} PointAt(s: string, i: nat, k: nat)
    requires i <= k <= |s| && (forall j :: i <= j < k ==> s[j] != '.') && (k < |s| ==> s[k] == '.')
    ensures FindPoint(s, i) == k
    decreases k - i
  {
    if i < k { PointAt(s, i + 1, k); }
  }

  lemma {:induction false} FirstLetter(s: string, i: nat, k: nat)
    requires i <= k <= |s| && (forall j :: i <= j < k ==> !IsLetter(s[j])) && (k < |s| ==> IsLetter(s[k]))
    ensures FindLetter(s, i) == k
    decreases k - i
  {
    if i < k { FirstLetter(s, i + 1, k); }
  }

  /** A mantissa: digits, and a fraction if there is a point. */
  predicate IsMantissa(t: string, w: string, f: string, point: bool) {
    && t == (if point then w + ("." + f) else w)
    && w != "" && AllDigits(w) && AllDigits(f) && (!point ==> f == "")
  }

  predicate NoLetter(t: string) {
    forall k :: 0 <= k < |t| ==> !IsLetter(t[k])
  }

  lemma MantissaText(t: string, w: string, f: string, point: bool)
    requires IsMantissa(t, w, f, point)
    ensures NoLetter(t)
  {
  }

  lemma MantissaParts(t: string, w: string, f: string, point: bool)
    requires IsMantissa(t, w, f, point)
    ensures ParseMantissa(t) == Some((JoinedValue(w, f), |f|))
  {
    PointAt(t, 0, |w|);
    assert t[..|w|] == w && (point ==> t[|w| + 1..] == f);
  }

  /** What an exponent, with its letter, is read as. */
  predicate IsExponent(e: string, k: int) {
    if e == "" then k == 0 else IsLetter(e[0]) && ParseExponent(e[1..]) == Some(k)
  }

  lemma LetterAt(t: string, e: string, k: int)
    requires NoLetter(t) && IsExponent(e, k)
    ensures FindLetter(t + e, 0) == |t| && (t + e)[..|t|] == t && ExponentAt(t + e, |t|) == Some(k)
  {
    forall j | 0 <= j < |t| ensures !IsLetter((t + e)[j]) {
      assert (t + e)[j] == t[j];
    }
    FirstLetter(t + e, 0, |t|);
    if e != "" { assert (t + e)[|t| + 1..] == e[1..]; }
  }

  lemma DecimalOf(s: string, e: nat, m: Option<(nat, nat)>, k: Option<int>)
    requires FindLetter(s, 0) == e <= |s| && ParseMantissa(s[..e]) == m && ExponentAt(s, e) == k
    ensures ParseDecimal(s) == Shifted(m, k)
  {
  }

  /** The mantissa `t` has the digits `n`, `scale` of them behind the point. */
  predicate ReadsMantissa(t: string, n: nat, scale: nat) {
    NoLetter(t) && ParseMantissa(t) == Some((n, scale))
  }

  lemma MantissaReads(t: string, w: string, f: string, point: bool, n: nat)
    requires IsMantissa(t, w, f, point) && n == JoinedValue(w, f)
    ensures ReadsMantissa(t, n, |f|)
  {
    MantissaParts(t, w, f, point);
    MantissaText(t, w, f, point);
  }

  lemma ExponentReads(k: int)
    ensures ParseExponent(IntText(k)) == Some(k)
  {
    DigitsRoundTrip(if k < 0 then -k else k);
    if k < 0 { assert IntText(k)[1..] == Digits(-k); }
  }

  /** A sign before a literal that starts with a digit. */
  lemma Signed(t: string, n: nat, scale: int)
    requires t != "" && IsDigit(t[0]) && ParseDecimal(t) == Some((n, scale))
    ensures ParseLiteral(t) == ParseLiteral("+" + t) == Some(Literal(false, n, scale))
    ensures ParseLiteral("-" + t) == Some(Literal(true, n, scale))
  {
    var minus, plus := "-" + t, "+" + t;
    assert minus[0] == '-' && minus[1..] == t;
    assert plus[0] == '+' && plus[1..] == t;
  }

  lemma ExponentText(letter: char, k: int)
    requires IsLetter(letter)
    ensures IsExponent([letter] + IntText(k), k)
  {
    var e := [letter] + IntText(k);
    ExponentReads(k);
    assert e[1..] == IntText(k);
  }

  lemma LiteralStarts(t: string, w: string, f: string, point: bool, e: string)
    requires IsMantissa(t, w, f, point)
    ensures t + e != "" && IsDigit((t + e)[0])
  {
  }

  /** An unsigned literal is a mantissa and perhaps an exponent. */
  lemma LiteralReads(t: string, n: nat, scale: nat, e: string, k: int)
    requires ReadsMantissa(t, n, scale) && IsExponent(e, k)
    ensures ParseDecimal(t + e) == Some((n, scale - k))
  {
    LetterAt(t, e, k);
    DecimalOf(t + e, |t|, Some((n, scale)), Some(k));
  }

  /** Mantissa `w.f` and exponent `k`. */
  predicate IsScientific(t: string, w: string, f: string, letter: char, k: int) {
    t == (w + ("." + f)) + ([letter] + IntText(k)) && w != "" && AllDigits(w) && AllDigits(f) && IsLetter(letter)
  }

  /** A mantissa `w.f` and the exponent `k` stand for `wf` with its point moved by `k`, whichever the
      letter. */
  lemma ScientificReads(t: string, w: string, f: string, letter: char, k: int)
    requires IsScientific(t, w, f, letter, k)
    ensures t != "" && IsDigit(t[0]) && ParseDecimal(t) == Some((JoinedValue(w, f), |f| - k))
  {
    ExponentText(letter, k);
    LiteralStarts(w + ("." + f), w, f, true, [letter] + IntText(k));
    MantissaReads(w + ("." + f), w, f, true, JoinedValue(w, f));
    LiteralReads(w + ("." + f), JoinedValue(w, f), |f|, [letter] + IntText(k), k);
  }

  lemma IntMantissa(m: nat)
    ensures ReadsMantissa(Digits(m), m, 0)
  {
    DigitsRoundTrip(m);
    MantissaReads(Digits(m), Digits(m), "", false, m);
  }

  lemma NoExponent(t: string, n: nat, scale: nat)
    requires ReadsMantissa(t, n, scale)
    ensures ParseDecimal(t) == Some((n, scale))
  {
    LiteralReads(t, n, scale, "", 0);
    assert t + "" == t;
  }

  lemma IntDigits(m: nat)
    ensures ParseDecimal(Digits(m)) == Some((m, 0))
  {
    IntMantissa(m);
    NoExponent(Digits(m), m, 0);
  }

  lemma SignedDigits(m: nat)
    ensures ParseLiteral(Digits(m)) == Some(Literal(false, m, 0))
    ensures ParseLiteral("-" + Digits(m)) == Some(Literal(true, m, 0))
  {
    IntDigits(m);
    DigitsRoundTrip(m);
    Signed(Digits(m), m, 0);
  }

  lemma IntIsNumberText(n: int)
    ensures IntText(n) != "" && forall k :: 0 <= k < |IntText(n)| ==> IsNumberChar(IntText(n)[k])
  {
    DigitsRoundTrip(if n < 0 then -n else n);
  }

  lemma WholeDouble(m: nat)
    ensures ToDouble(m, 0) == NearestDouble(m) as real
  {
    assert Pow10(0) == 1;
  }

  lemma IntRoundTrip(n: int)
    ensures ParseDouble(IntText(n)) == Some(DoubleOf(n) as real)
    ensures IntText(n) != "" && forall k :: 0 <= k < |IntText(n)| ==> IsNumberChar(IntText(n)[k])
  {
    var m: nat := if n < 0 then -n else n;
    SignedDigits(m);
    WholeDouble(m);
    IntIsNumberText(n);
  }

  lemma TenthsDigits(n: nat)
    ensures var w, f := Digits(n / 10), Digits(n % 10);
      w != "" && |f| == 1 && AllDigits(w) && AllDigits(f) && JoinedValue(w, f) == n
  {
    var w, f := Digits(n / 10), Digits(n % 10);
    DigitsRoundTrip(n / 10);
    assert f[..|f| - 1] == "" && JoinedValue(w, "") == n / 10;
  }

  lemma TenthsText(n: nat)
    ensures var t := Digits(n / 10) + "." + Digits(n % 10);
      t != "" && forall k :: 0 <= k < |t| ==> IsNumberChar(t[k])
  {
    DigitsRoundTrip(n / 10);
    DigitsRoundTrip(n % 10);
  }

  lemma TenthsDecimal(n: nat)
    ensures var t := Digits(n / 10) + "." + Digits(n % 10);
      t != "" && IsDigit(t[0]) && ParseDecimal(t) == Some((n, 1))
  {
    var w, f := Digits(n / 10), Digits(n % 10);
    var t := w + "." + f;
    TenthsDigits(n);
    assert t == w + ("." + f);
    MantissaReads(t, w, f, true, n);
    NoExponent(t, n, 1);
  }

  lemma TenthsRoundTrip(n: nat)
    ensures var t := Digits(n / 10) + "." + Digits(n % 10);
      && ParseDouble(t) == Some(ToDouble(n, 1))
      && t != "" && forall k :: 0 <= k < |t| ==> IsNumberChar(t[k])
  {
    TenthsText(n);
    TenthsDecimal(n);
    Signed(Digits(n / 10) + "." + Digits(n % 10), n, 1);
  }

  /** How far `k` is from n / d, in units of 1 / d. */
  function Distance(k: int, n: nat, d: nat): nat {
    var x := k * d - n;
    if x < 0 then -x else x
  }

  /** The multiple (k - q) * d, away from 0 and 1, is at least as far as its neighbours. */
  lemma Times(x: int, d: nat, k: int, q: int)
    requires x == k - q && d >= 1
    ensures k * d == q * d + x * d && (x < 0 ==> x * d + d <= 0) && (x == 1 ==> x * d == d)
        && (x > 1 ==> x * d >= 2 * d)
  {
    if x < 0 { assert (x + 1) * d <= 0; }
    if x > 1 { assert (x - 2) * d >= 0; }
  }

  /** Rounding picks a nearest integer, and of two nearest ones the even one. */
  lemma RoundedIsNearest(n: nat, d: nat, k: int)
    requires d >= 1
    ensures Distance(Rounded(n, d), n, d) <= Distance(k, n, d)
    ensures k != Rounded(n, d) && Distance(Rounded(n, d), n, d) == Distance(k, n, d) ==> Rounded(n, d) % 2 == 0
  {
    var q, r := n / d, n % d;
    assert n == q * d + r;
    Times(k - q, d, k, q);
    assert (q + 1) * d == q * d + d;
  }

  // ----- Doubles that are integers -----

  lemma Remainder(m: nat, u: nat)
    requires u >= 1
    ensures m == (m / u) * u + m % u && 0 <= m % u < u
  {
  }

  lemma HalfEvenIs(q: nat, r: nat, u: nat)
    requires u >= 1
    ensures var k := HalfEven(q, r, u); k == q || (k == q + 1 && r > 0)
  {
  }

  /** Rounding to a multiple of `u` is exact on multiples only. */
  lemma RoundedMultiple(m: nat, u: nat, q: nat, r: nat, k: nat)
    requires m == q * u + r && r < u && (k == q || (k == q + 1 && r > 0))
    ensures k * u == m <==> r == 0
  {
    assert (q + 1) * u == q * u + u;
  }

  lemma RoundingIff(m: nat, u: nat)
    requires u >= 1
    ensures HalfEven(m / u, m % u, u) * u == m <==> m % u == 0
  {
    Remainder(m, u);
    HalfEvenIs(m / u, m % u, u);
    RoundedMultiple(m, u, m / u, m % u, HalfEven(m / u, m % u, u));
  }

  lemma MagnitudeIff(m: nat)
    ensures NearestDouble(m) == m <==> m % Ulp(m) == 0
  {
    RoundingIff(m, Ulp(m));
  }

  /** An integer is a double exactly when it is a multiple of the distance between doubles at
      its magnitude. */
  lemma DoubleIff(n: int)
    ensures DoubleOf(n) == n <==> (if n < 0 then -n else n) % Ulp(if n < 0 then -n else n) == 0
  {
    MagnitudeIff(if n < 0 then -n else n);
  }

  /** Integers up to 2^53 in magnitude are doubles. */
  lemma SmallIsDouble(n: int)
    requires -(TWO_53 as int) <= n <= TWO_53
    ensures DoubleOf(n) == n
  {
    var m: nat := if n < 0 then -n else n;
    assert m < TWO_53 || Ulp(m) == 2 * Ulp(m / 2) == 2;
    DoubleIff(n);
  }

  lemma {:induction false} UlpOfShifted(n: nat, k: nat)
    requires Pow2(k) * (TWO_53 / 2) <= n < Pow2(k) * TWO_53
    ensures Ulp(n) == Pow2(k)
  {
    if k > 0 { UlpOfShifted(n / 2, k - 1); }
  }

  lemma UlpOfBounds()
    ensures Ulp(I64_MAX) == 1024 && Ulp(I64_MAX + 1) == 2048
  {
    UlpOfShifted(I64_MAX, 10);
    UlpOfShifted(I64_MAX + 1, 11);
  }

  lemma TruncateInt(n: int)
    ensures Truncate(n as real) == n
  {
  }

  /** A metric of type i64 survives printing and reading exactly when it is a double, or the
      largest i64, which comes back by saturation. */
  lemma I64RoundTripIff(n: int)
    requires I64_MIN <= n <= I64_MAX
    ensures AsI64(DoubleOf(n) as real) == n <==> DoubleOf(n) == n || n == I64_MAX
  {
    TruncateInt(DoubleOf(n));
    UlpOfBounds();
    if n == I64_MIN { DoubleIff(n); }
    if n == I64_MAX { assert NearestDouble(I64_MAX) == I64_MAX + 1; }
  }

  // ----- Strings and white space -----

  predicate NoQuote(s: string) {
    forall k :: 0 <= k < |s| ==> s[k] != '"'
  }

  lemma {:induction false} FindQuoteAt(b: string, i: nat, q: nat)
    requires i <= q < |b| && b[q] == '"' && forall k :: i <= k < q ==> b[k] != '"'
    ensures FindQuote(b, i) == Some(q)
    decreases q - i
  {
    if i < q { FindQuoteAt(b, i + 1, q); }
  }

  /** A quoted string is read back. */
  lemma QuotedRoundTrip(b: string, i: nat, s: string)
    requires NoQuote(s) && At(b, i, "\"" + s + "\"")
    ensures ReadString(b, i) == Ok(Parsed(s, i + |s| + 2)) && b[i] == '"'
  {
    var t := "\"" + s + "\"";
    AtChar(b, i, t, 0);
    AtChar(b, i, t, |s| + 1);
    forall k | i + 1 <= k < i + 1 + |s| ensures b[k] != '"' {
      AtChar(b, i, t, k - i);
    }
    FindQuoteAt(b, i + 1, i + 1 + |s|);
    AtSplit(b, i, "\"" + s, "\"");
    AtSplit(b, i, "\"", s);
    AtSlice(b, i + 1, s);
  }

  /** White space between `i` and `j` is skipped. */
  lemma {:induction false} SkipsTo(b: string, i: nat, j: nat)
    requires i <= j <= |b| && forall k :: i <= k < j ==> IsWs(b[k])
    ensures SkipWs(b, i) == SkipWs(b, j)
    decreases j - i
  {
    if i < j { SkipsTo(b, i + 1, j); }
  }

  lemma {:induction false} NumberEndAt(b: string, i: nat, j: nat)
    requires i <= j < |b| && !IsNumberChar(b[j]) && forall k :: i <= k < j ==> IsNumberChar(b[k])
    ensures NumberEnd(b, i) == j
    decreases j - i
  {
    if i < j { NumberEndAt(b, i + 1, j); }
  }

  lemma {:induction false} SkipIdempotent(b: string, i: nat)
    ensures SkipWs(b, SkipWs(b, i)) == SkipWs(b, i)
    decreases |b| - i
  {
    if i < |b| && IsWs(b[i]) { SkipIdempotent(b, i + 1); }
  }

  // ----- Reading a printed document -----

  /** No key or string contains a quote. */
  predicate Printable(d: Doc) {
    match d
    case DObj(fields) => forall k :: 0 <= k < |fields| ==> NoQuote(fields[k].key) && Printable(fields[k].value)
    case DStr(s) => NoQuote(s)
    case DInt(_) => true
    case DTenths(_) => true
  }

  /** What a printed document is read back as. */
  function Decode(d: Doc): Json {
    match d
    case DObj(fields) => Obj(seq(|fields|, k requires 0 <= k < |fields| =>
        Member(fields[k].key, Decode(fields[k].value))))
    case DInt(n) => Num(DoubleOf(n) as real)
    case DTenths(n) => Num(ToDouble(n, 1))
    case DStr(s) => Str(s)
  }

  /** From anywhere in the white space before `i`, the reader reads `j` and stops at `next`. */
  ghost predicate ReadsAs(b: string, i: nat, next: nat, j: Json) {
    forall p: nat {:trigger ReadValue(b, p)} :: SkipWs(b, p) == SkipWs(b, i) ==> ReadValue(b, p) == Ok(Parsed(j, next))
  }

  /** At `p` the member loop reads the member `m` and goes on at `next`. */
  ghost predicate StepsTo(b: string, p: nat, next: nat, m: Member) {
    forall acc {:trigger ReadMembers(b, p, acc)} :: ReadMembers(b, p, acc) == ReadMembers(b, next, acc + [m])
  }

  /** At `p` the member loop ends the object. */
  ghost predicate Closes(b: string, p: nat, end: nat) {
    forall acc {:trigger ReadMembers(b, p, acc)} :: ReadMembers(b, p, acc) == Ok(Parsed(Obj(acc), end))
  }

  /** A brace is next, or after a comma at least something. */
  predicate Continues(b: string, p: nat, comma: bool) {
    SkipWs(b, p) < |b| && (comma || b[SkipWs(b, p)] == '}')
  }

  lemma NumberReads(b: string, i: nat, t: string, x: real)
    requires t != "" && At(b, i, t) && i + |t| < |b| && !IsNumberChar(b[i + |t|])
    requires ParseDouble(t) == Some(x) && forall k :: 0 <= k < |t| ==> IsNumberChar(t[k])
    ensures ReadsAs(b, i, i + |t|, Num(x))
  {
    forall k | i <= k < i + |t| ensures IsNumberChar(b[k]) {
      AtChar(b, i, t, k - i);
    }
    assert SkipWs(b, i) == i && b[i] != '{' && b[i] != '"' by { assert IsNumberChar(b[i]); }
    NumberEndAt(b, i, i + |t|);
    AtSlice(b, i, t);
    assert ReadNumber(b, i) == Ok(Parsed(Num(x), i + |t|));
  }

  /** Where line `k` starts. */
  function Pos(i: nat, lines: seq<string>, k: nat): nat
    requires k <= |lines|
  {
    i + |Concat(lines, k)|
  }

  /** The lines of an object, one by one. */
  lemma {:induction false} LineAt(b: string, i: nat, lines: seq<string>, n: nat, k: nat)
    requires k < n <= |lines| && At(b, i, Concat(lines, n))
    ensures At(b, Pos(i, lines, k), lines[k]) && Pos(i, lines, k + 1) == Pos(i, lines, k) + |lines[k]|
  {
    AtSplit(b, i, Concat(lines, n - 1), lines[n - 1]);
    if k < n - 1 { LineAt(b, i, lines, n - 1, k); }
  }

  /** Where the parts of a member's line lie. */
  lemma LineParts(b: string, i: nat, key: string, value: string, indent: nat, comma: bool)
    requires At(b, i, LineOf(key, value, indent, comma))
    ensures At(b, i, Spaces(indent + 2))
    ensures At(b, i + indent + 2, "\"" + key + "\"")
    ensures At(b, i + indent + 4 + |key|, ": ")
    ensures At(b, i + indent + 6 + |key|, value)
    ensures At(b, i + indent + 6 + |key| + |value|, if comma then ",\n" else "\n")
    ensures |LineOf(key, value, indent, comma)| == indent + 6 + |key| + |value| + (if comma then 2 else 1)
  {
    var end := if comma then ",\n" else "\n";
    var x1 := Spaces(indent + 2) + "\"" + key + "\": ";
    assert LineOf(key, value, indent, comma) == x1 + value + end;
    AtSplit(b, i, x1 + value, end);
    AtSplit(b, i, x1, value);
    var q := "\"" + key + "\"";
    assert x1 == Spaces(indent + 2) + q + ": ";
    AtSplit(b, i, Spaces(indent + 2) + q, ": ");
    AtSplit(b, i, Spaces(indent + 2), q);
  }

  lemma SpacesAreWs(b: string, i: nat, n: nat)
    requires At(b, i, Spaces(n))
    ensures forall k :: i <= k < i + n ==> IsWs(b[k])
  {
    forall k | i <= k < i + n ensures IsWs(b[k]) {
      AtChar(b, i, Spaces(n), k - i);
    }
  }

  /** One turn of the member loop, given what each part of it reads. */
  lemma MemberStep(b: string, i: nat, acc: seq<Member>, key: string, keyEnd: nat, val: Json, valEnd: nat)
    requires i < |b| && b[i] != '}'
    requires ReadString(b, i) == Ok(Parsed(key, keyEnd))
    requires ReadValue(b, SkipWs(b, keyEnd) + 1) == Ok(Parsed(val, valEnd))
    ensures MembersAt(b, i, acc) == AfterMember(b, valEnd, acc + [Member(key, val)])
  {
  }

  /** A line up to its value. */
  lemma LineHead(b: string, i: nat, key: string, value: string, indent: nat, comma: bool)
    requires At(b, i, LineOf(key, value, indent, comma)) && NoQuote(key)
    ensures var p, c := i + indent + 2, i + indent + 4 + |key|;
      && SkipWs(b, i) == p < |b| && b[p] == '"'
      && ReadString(b, p) == Ok(Parsed(key, c))
      && SkipWs(b, c) == c
      && SkipWs(b, c + 1) == SkipWs(b, c + 2)
  {
    var p, c := i + indent + 2, i + indent + 4 + |key|;
    LineParts(b, i, key, value, indent, comma);
    SpacesAreWs(b, i, indent + 2);
    QuotedRoundTrip(b, p, key);
    SkipsTo(b, i, p);
    AtChar(b, c, ": ", 0);
    AtChar(b, c, ": ", 1);
    SkipsTo(b, c + 1, c + 2);
  }

  /** At `i` the member loop reads `key` and looks for its value at `v`. */
  ghost predicate KeyReads(b: string, i: nat, v: nat, key: string) {
    forall acc, j, e: nat {:trigger ReadMembers(b, i, acc), ReadsAs(b, v, e, j)} ::
      ReadsAs(b, v, e, j) ==> ReadMembers(b, i, acc) == AfterMember(b, e, acc + [Member(key, j)])
  }

  /** After a value that ends at `e` the member loop goes on at `next`. */
  ghost predicate TailReads(b: string, e: nat, next: nat) {
    forall acc {:trigger AfterMember(b, e, acc)} :: AfterMember(b, e, acc) == ReadMembers(b, next, acc)
  }

  lemma LineKey(b: string, i: nat, key: string, value: string, indent: nat, comma: bool)
    requires At(b, i, LineOf(key, value, indent, comma)) && NoQuote(key)
    ensures KeyReads(b, i, i + indent + 6 + |key|, key)
  {
    var p, c, v := i + indent + 2, i + indent + 4 + |key|, i + indent + 6 + |key|;
    LineHead(b, i, key, value, indent, comma);
    forall acc, j, e: nat | ReadsAs(b, v, e, j)
      ensures ReadMembers(b, i, acc) == AfterMember(b, e, acc + [Member(key, j)])
    {
      MemberStep(b, p, acc, key, c, j, e);
    }
  }

  lemma LineTail(b: string, e: nat, comma: bool)
    requires At(b, e, if comma then ",\n" else "\n") && Continues(b, e + (if comma then 2 else 1), comma)
    ensures TailReads(b, e, e + (if comma then 2 else 1))
  {
    var end := if comma then ",\n" else "\n";
    AtChar(b, e, end, 0);
    AtChar(b, e, end, |end| - 1);
    SkipsTo(b, e + |end| - 1, e + |end|);
    SkipIdempotent(b, e + |end|);
  }

  /** One line, put together from what its parts read. */
  lemma PartsRead(b: string, i: nat, v: nat, e: nat, next: nat, m: Member)
    requires KeyReads(b, i, v, m.key) && ReadsAs(b, v, e, m.value) && TailReads(b, e, next)
    ensures StepsTo(b, i, next, m)
  {
  }

  lemma LineEnd(b: string, i: nat, key: string, value: string, indent: nat, comma: bool)
    requires At(b, i, LineOf(key, value, indent, comma))
    requires Continues(b, i + |LineOf(key, value, indent, comma)|, comma)
    ensures TailReads(b, i + indent + 6 + |key| + |value|, i + |LineOf(key, value, indent, comma)|)
  {
    LineParts(b, i, key, value, indent, comma);
    LineTail(b, i + indent + 6 + |key| + |value|, comma);
  }

  lemma LineStep(b: string, i: nat, key: string, value: string, indent: nat, comma: bool, j: Json)
    requires At(b, i, LineOf(key, value, indent, comma)) && NoQuote(key)
    requires Continues(b, i + |LineOf(key, value, indent, comma)|, comma)
    requires var v := i + indent + 6 + |key|; ReadsAs(b, v, v + |value|, j)
    ensures StepsTo(b, i, i + |LineOf(key, value, indent, comma)|, Member(key, j))
  {
    var v, next := i + indent + 6 + |key|, i + |LineOf(key, value, indent, comma)|;
    LineKey(b, i, key, value, indent, comma);
    LineEnd(b, i, key, value, indent, comma);
    PartsRead(b, i, v, v + |value|, next, Member(key, j));
  }

  /** After the last line comes the closing brace. */
  lemma CloseReads(b: string, i: nat, indent: nat)
    requires At(b, i, Spaces(indent)) && At(b, i + indent, "}")
    ensures Continues(b, i, false) && Closes(b, i, i + indent + 1)
  {
    AtChar(b, i + indent, "}", 0);
    SpacesAreWs(b, i, indent);
    SkipsTo(b, i, i + indent);
  }

  lemma StringReads(b: string, i: nat, s: string)
    requires NoQuote(s) && At(b, i, "\"" + s + "\"")
    ensures ReadsAs(b, i, i + |s| + 2, Str(s))
  {
    QuotedRoundTrip(b, i, s);
    assert SkipWs(b, i) == i;
  }

  lemma BlockParts(b: string, i: nat, lines: string, indent: nat)
    requires At(b, i, "{\n" + lines + Spaces(indent) + "}")
    ensures At(b, i, "{\n") && At(b, i + 2, lines) && At(b, i + 2 + |lines|, Spaces(indent))
        && At(b, i + 2 + |lines| + indent, "}")
  {
    AtSplit(b, i, "{\n" + lines + Spaces(indent), "}");
    AtSplit(b, i, "{\n" + lines, Spaces(indent));
    AtSplit(b, i, "{\n", lines);
  }

  lemma BraceReads(b: string, i: nat, j: Json, end: nat)
    requires At(b, i, "{\n") && ReadMembers(b, i + 2, []) == Ok(Parsed(j, end))
    ensures ReadsAs(b, i, end, j)
  {
    AtChar(b, i, "{\n", 0);
    AtChar(b, i, "{\n", 1);
    SkipsTo(b, i + 1, i + 2);
    assert SkipWs(b, i) == i;
    assert ValueAt(b, i) == ReadMembers(b, i + 1, []);
  }

  /** The value of a line is there, and the character after it belongs to no number. */
  lemma ValueInLine(b: string, i: nat, key: string, value: string, indent: nat, comma: bool)
    requires At(b, i, LineOf(key, value, indent, comma))
    ensures var v := i + indent + 6 + |key|; At(b, v, value) && v + |value| < |b| && !IsNumberChar(b[v + |value|])
  {
    LineParts(b, i, key, value, indent, comma);
    AtChar(b, i + indent + 6 + |key| + |value|, if comma then ",\n" else "\n", 0);
  }

  /** Before a character that is no white space there is always something to read. */
  lemma {:induction false} SkipStops(b: string, i: nat, stop: nat)
    requires i <= stop < |b| && !IsWs(b[stop])
    ensures SkipWs(b, i) <= stop
    decreases stop - i
  {
    if i < stop { SkipStops(b, i + 1, stop); }
  }

  /** The member loop from `k` on, in terms of the positions it passes. */
  lemma {:induction false} LoopReads(b: string, heads: seq<nat>, ms: seq<Member>, k: nat, end: nat)
    requires k <= |ms| && |heads| == |ms| + 1
    requires forall n :: 0 <= n < |ms| ==> StepsTo(b, heads[n], heads[n + 1], ms[n])
    requires Closes(b, heads[|ms|], end)
    ensures ReadMembers(b, heads[k], ms[..k]) == Ok(Parsed(Obj(ms), end))
    decreases |ms| - k
  {
    if k == |ms| {
      assert ms[..k] == ms;
    } else {
      assert StepsTo(b, heads[k], heads[k + 1], ms[k]);
      assert ms[..k] + [ms[k]] == ms[..k + 1];
      LoopReads(b, heads, ms, k + 1, end);
    }
  }

  /** Wherever `text` stands, with no number character behind it, it is read as `j`. */
  ghost predicate TextReads(text: string, j: Json) {
    forall b, i: nat {:trigger At(b, i, text)} ::
      At(b, i, text) && i + |text| < |b| && !IsNumberChar(b[i + |text|]) ==> ReadsAs(b, i, i + |text|, j)
  }

  lemma ValueReads(b: string, i: nat, key: string, value: string, j: Json, indent: nat, comma: bool)
    requires TextReads(value, j) && At(b, i, LineOf(key, value, indent, comma))
    ensures var v := i + indent + 6 + |key|; ReadsAs(b, v, v + |value|, j)
  {
    ValueInLine(b, i, key, value, indent, comma);
  }

  /** A member's line, if its value reads. */
  lemma FieldReads(b: string, i: nat, line: string, next: nat, value: string, m: Member, indent: nat, comma: bool)
    requires NoQuote(m.key) && TextReads(value, m.value) && line == LineOf(m.key, value, indent, comma)
    requires At(b, i, line) && next == i + |line| && Continues(b, next, comma)
    ensures StepsTo(b, i, next, m)
  {
    ValueReads(b, i, m.key, value, m.value, indent, comma);
    LineStep(b, i, m.key, value, indent, comma, m.value);
  }

  /** Lines at `i` and a brace at `close` behind them. */
  ghost predicate Laid(b: string, i: nat, lines: seq<string>, close: nat) {
    && At(b, i, Concat(lines, |lines|)) && Pos(i, lines, |lines|) <= close < |b| && b[close] == '}'
    && Continues(b, Pos(i, lines, |lines|), false)
  }

  lemma {:induction false} PosGrows(i: nat, lines: seq<string>, k: nat, n: nat)
    requires k <= n <= |lines|
    ensures Pos(i, lines, k) <= Pos(i, lines, n)
  {
    if k < n { PosGrows(i, lines, k, n - 1); }
  }

  /** Line `k` is there, and something follows it. */
  lemma LineLaid(b: string, i: nat, lines: seq<string>, close: nat, k: nat)
    requires Laid(b, i, lines, close) && k < |lines|
    ensures At(b, Pos(i, lines, k), lines[k]) && Pos(i, lines, k + 1) == Pos(i, lines, k) + |lines[k]|
    ensures Continues(b, Pos(i, lines, k + 1), k + 1 < |lines|)
  {
    LineAt(b, i, lines, |lines|, k);
    PosGrows(i, lines, k + 1, |lines|);
    SkipStops(b, Pos(i, lines, k + 1), close);
  }

  /** Line `k` prints the member `m`, whose value reads. */
  ghost predicate Prints(lines: seq<string>, k: nat, value: string, m: Member, indent: nat)
    requires k < |lines|
  {
    lines[k] == LineOf(m.key, value, indent, k + 1 < |lines|) && NoQuote(m.key) && TextReads(value, m.value)
  }

  lemma FieldStep(b: string, i: nat, lines: seq<string>, close: nat, k: nat, value: string, m: Member, indent: nat)
    requires Laid(b, i, lines, close) && k < |lines| && Prints(lines, k, value, m, indent)
    ensures StepsTo(b, Pos(i, lines, k), Pos(i, lines, k + 1), m)
  {
    var here, next, line, more := Pos(i, lines, k), Pos(i, lines, k + 1), lines[k], k + 1 < |lines|;
    assert At(b, here, line) && next == here + |line| && Continues(b, next, more)
        by { LineLaid(b, i, lines, close, k); }
    FieldReads(b, here, line, next, value, m, indent, more);
  }

  /** All lines and the brace, given that the member loop takes each line. */
  lemma BodyReads(b: string, i: nat, lines: seq<string>, close: nat, ms: seq<Member>)
    requires |ms| == |lines| && Closes(b, Pos(i, lines, |lines|), close)
    requires forall k :: 0 <= k < |lines| ==> StepsTo(b, Pos(i, lines, k), Pos(i, lines, k + 1), ms[k])
    ensures ReadMembers(b, i, []) == Ok(Parsed(Obj(ms), close))
  {
    var heads := seq(|ms| + 1, k requires 0 <= k <= |ms| => Pos(i, lines, k));
    LoopReads(b, heads, ms, 0, close);
    assert ms[..0] == [] && heads[0] == i;
  }

  /** An object printed as a block, its lines laid out from `i + 2` on. */
  lemma BlockLaid(b: string, i: nat, lines: seq<string>, indent: nat)
    requires At(b, i, Block(lines, indent))
    ensures At(b, i, "{\n") && Laid(b, i + 2, lines, Pos(i + 2, lines, |lines|) + indent)
    ensures Closes(b, Pos(i + 2, lines, |lines|), i + |Block(lines, indent)|)
  {
    BlockParts(b, i, Concat(lines, |lines|), indent);
    CloseReads(b, Pos(i + 2, lines, |lines|), indent);
    AtChar(b, Pos(i + 2, lines, |lines|) + indent, "}", 0);
  }

  lemma LinesStep(b: string, i: nat, lines: seq<string>, close: nat, values: seq<string>, ms: seq<Member>, indent: nat)
    requires |values| == |lines| == |ms| && Laid(b, i, lines, close)
    requires forall k :: 0 <= k < |lines| ==> Prints(lines, k, values[k], ms[k], indent)
    ensures forall k :: 0 <= k < |lines| ==> StepsTo(b, Pos(i, lines, k), Pos(i, lines, k + 1), ms[k])
  {
    forall k | 0 <= k < |lines| ensures StepsTo(b, Pos(i, lines, k), Pos(i, lines, k + 1), ms[k]) {
      FieldStep(b, i, lines, close, k, values[k], ms[k], indent);
    }
  }

  lemma BlockReads(b: string, i: nat, lines: seq<string>, values: seq<string>, ms: seq<Member>, indent: nat)
    requires |values| == |lines| == |ms| && At(b, i, Block(lines, indent))
    requires forall k :: 0 <= k < |lines| ==> Prints(lines, k, values[k], ms[k], indent)
    ensures ReadsAs(b, i, i + |Block(lines, indent)|, Obj(ms))
  {
    var start, end := i + 2, i + |Block(lines, indent)|;
    BlockLaid(b, i, lines, indent);
    assert ReadMembers(b, start, []) == Ok(Parsed(Obj(ms), end)) by {
      LinesStep(b, start, lines, Pos(start, lines, |lines|) + indent, values, ms, indent);
      BodyReads(b, start, lines, end, ms);
    }
    BraceReads(b, i, Obj(ms), end);
  }

  lemma BlockTextReads(lines: seq<string>, values: seq<string>, ms: seq<Member>, indent: nat)
    requires |values| == |lines| == |ms|
    requires forall k :: 0 <= k < |lines| ==> Prints(lines, k, values[k], ms[k], indent)
    ensures TextReads(Block(lines, indent), Obj(ms))
  {
    forall b, i: nat | At(b, i, Block(lines, indent)) ensures ReadsAs(b, i, i + |Block(lines, indent)|, Obj(ms)) {
      BlockReads(b, i, lines, values, ms, indent);
    }
  }

  lemma NumberTextReads(t: string, x: real)
    requires t != "" && ParseDouble(t) == Some(x) && forall k :: 0 <= k < |t| ==> IsNumberChar(t[k])
    ensures TextReads(t, Num(x))
  {
    forall b, i: nat | At(b, i, t) && i + |t| < |b| && !IsNumberChar(b[i + |t|])
        ensures ReadsAs(b, i, i + |t|, Num(x)) {
      NumberReads(b, i, t, x);
    }
  }

  lemma StringTextReads(s: string)
    requires NoQuote(s)
    ensures TextReads("\"" + s + "\"", Str(s))
  {
    var t := "\"" + s + "\"";
    forall b, i: nat | At(b, i, t) ensures ReadsAs(b, i, i + |t|, Str(s)) {
      StringReads(b, i, s);
    }
  }

  lemma LinesAgree(fields: seq<Field>, lines: seq<string>, indent: nat)
    requires |lines| == |fields|
    requires forall k :: 0 <= k < |fields| ==>
        lines[k] == LineOf(fields[k].key, Render(fields[k].value, indent + 2), indent, k + 1 < |fields|)
    ensures Render(DObj(fields), indent) == Block(lines, indent)
  {
    assert lines == seq(|fields|, k requires 0 <= k < |fields| =>
      LineOf(fields[k].key, Render(fields[k].value, indent + 2), indent, k + 1 < |fields|));
  }

  /** Every printable document is read back as its decoding, wherever it stands. */
  lemma {:induction false} ReadsRendered(d: Doc, indent: nat)
    requires Printable(d)
    ensures TextReads(Render(d, indent), Decode(d))
  {
    match d
    case DInt(n) =>
      IntRoundTrip(n);
      NumberTextReads(IntText(n), DoubleOf(n) as real);
    case DTenths(n) =>
      TenthsRoundTrip(n);
      NumberTextReads(Digits(n / 10) + "." + Digits(n % 10), ToDouble(n, 1));
    case DStr(s) =>
      StringTextReads(s);
    case DObj(fields) =>
      var values := seq(|fields|, k requires 0 <= k < |fields| => Render(fields[k].value, indent + 2));
      var lines := seq(|fields|, k requires 0 <= k < |fields| =>
        LineOf(fields[k].key, values[k], indent, k + 1 < |fields|));
      var ms := Decode(d).members;
      forall k | 0 <= k < |fields| ensures Prints(lines, k, values[k], ms[k], indent) {
        ReadsRendered(fields[k].value, indent + 2);
      }
      BlockTextReads(lines, values, ms, indent);
      assert Render(d, indent) == Block(lines, indent) by { LinesAgree(fields, lines, indent); }
  }

  // ----- The baseline -----

  /** The metrics an entry is read back with. */
  function Reread(c: EntryCost): EntryCost {
    EntryCost(AsI64(DoubleOf(c.cpuInsns) as real), AsI64(DoubleOf(c.memBytes) as real),
              AsU32(DoubleOf(c.readEntries) as real), AsU32(DoubleOf(c.writeEntries) as real),
              AsU32(DoubleOf(c.readBytes) as real), AsU32(DoubleOf(c.writeBytes) as real))
  }

  /** The fields are within their types: two i64 and four u32. */
  predicate InTypes(c: EntryCost) {
    && I64_MIN <= c.cpuInsns <= I64_MAX && I64_MIN <= c.memBytes <= I64_MAX
    && 0 <= c.readEntries <= U32_MAX && 0 <= c.writeEntries <= U32_MAX
    && 0 <= c.readBytes <= U32_MAX && 0 <= c.writeBytes <= U32_MAX
  }

  lemma {:induction false} FirstMemberAt(ms: seq<Member>, key: string, k: nat)
    requires k < |ms| && ms[k].key == key && forall i :: 0 <= i < k ==> ms[i].key != key
    ensures FirstMember(ms, key) == Some(ms[k].value)
  {
    if k > 0 { FirstMemberAt(ms[1..], key, k - 1); }
  }

  lemma MetricNamesDiffer()
    ensures var names := ["cpu_insns", "mem_bytes", "read_entries", "write_entries", "read_bytes", "write_bytes"];
      forall i, j :: 0 <= i < j < 6 ==> names[i] != names[j]
  {
    assert "cpu_insns"[0] != "mem_bytes"[0];
  }

  lemma MetricOf(c: EntryCost, k: nat, key: string, n: int)
    requires k < 6 && CostDoc(c).fields[k] == Field(key, DInt(n))
    ensures Metric(Decode(CostDoc(c)), key) == Ok(DoubleOf(n) as real)
  {
    var ms := Decode(CostDoc(c)).members;
    MetricNamesDiffer();
    FirstMemberAt(ms, key, k);
  }

  /** The six metrics of one entry come back. */
  lemma CostReads(c: EntryCost)
    ensures ReadCost(Decode(CostDoc(c))) == Ok(Reread(c))
  {
    MetricOf(c, 0, "cpu_insns", c.cpuInsns);
    MetricOf(c, 1, "mem_bytes", c.memBytes);
    MetricOf(c, 2, "read_entries", c.readEntries);
    MetricOf(c, 3, "write_entries", c.writeEntries);
    MetricOf(c, 4, "read_bytes", c.readBytes);
    MetricOf(c, 5, "write_bytes", c.writeBytes);
  }

  /** The costs of the named entries, as they are read back. */
  function RereadAll(names: seq<string>, costs: map<string, EntryCost>): map<string, EntryCost>
    requires forall n :: n in names ==> n in costs
  {
    map n | n in names :: Reread(costs[n])
  }

  lemma RereadStep(front: seq<string>, last: string, costs: map<string, EntryCost>)
    requires forall n :: n in front + [last] ==> n in costs
    ensures (forall n :: n in front ==> n in costs) && last in costs
    ensures RereadAll(front + [last], costs) == RereadAll(front, costs)[last := Reread(costs[last])]
  {
    assert forall n :: n in front ==> n in front + [last];
    assert last in front + [last];
  }

  /** Member `k` is the printed entry of name `k`. */
  predicate EntryAt(ms: seq<Member>, names: seq<string>, costs: map<string, EntryCost>, k: nat)
    requires k < |ms| == |names| && names[k] in costs
  {
    ms[k].key == names[k] && ReadCost(ms[k].value) == Ok(Reread(costs[names[k]]))
  }

  lemma {:induction false} CostsRead(ms: seq<Member>, names: seq<string>, costs: map<string, EntryCost>)
    requires |ms| == |names| && forall n :: n in names ==> n in costs
    requires forall k :: 0 <= k < |ms| ==> EntryAt(ms, names, costs, k)
    ensures ReadCosts(ms) == Ok(RereadAll(names, costs))
  {
    if ms != [] {
      var k := |ms| - 1;
      var front, last := names[..k], names[k];
      assert names == front + [last];
      RereadStep(front, last, costs);
      forall j | 0 <= j < k ensures EntryAt(ms[..k], front, costs, j) {
        assert EntryAt(ms, names, costs, j);
      }
      CostsRead(ms[..k], front, costs);
      assert EntryAt(ms, names, costs, k);
    }
  }

  lemma HelpHasNoQuote()
    ensures NoQuote(METRIC_HELP)
  {
    var a, b := "cpu_insns and mem_bytes are modelled host", " costs; read/write_entries and read/write";
    var c, d := "_bytes are the ledger rw-unit footprint.", " See docs/gas-regression.md.";
    assert NoQuote(a);
    assert NoQuote(b);
    assert NoQuote(c);
    assert NoQuote(d);
    assert METRIC_HELP == (a + b) + (c + d);
  }

  lemma EntryPointsHaveNoQuote()
    ensures forall n :: n in ENTRYPOINTS ==> NoQuote(n)
  {
  }

  lemma CostPrintable(c: EntryCost)
    ensures Printable(CostDoc(c))
  {
  }

  lemma EntriesPrintable(names: seq<string>, costs: map<string, EntryCost>)
    requires (forall n :: n in names ==> n in costs) && forall n :: n in names ==> n in ENTRYPOINTS
    ensures Printable(DObj(EntryFields(names, costs)))
  {
    EntryPointsHaveNoQuote();
    forall c ensures Printable(CostDoc(c)) {
      CostPrintable(c);
    }
    forall k | 0 <= k < |names| ensures NoQuote(names[k]) && Printable(CostDoc(costs[names[k]])) {
      assert names[k] in names;
    }
  }

  /** The names that are both tracked and measured. */
  function Tracked(costs: map<string, EntryCost>): seq<string> {
    Names(ENTRYPOINTS, costs)
  }

  lemma BaselinePrintable(costs: map<string, EntryCost>)
    ensures Printable(BaselineDoc(costs))
  {
    var d := BaselineDoc(costs);
    HelpHasNoQuote();
    EntriesPrintable(Tracked(costs), costs);
    forall k | 0 <= k < 4 ensures NoQuote(d.fields[k].key) && Printable(d.fields[k].value) {
      assert k == 0 || k == 1 || k == 2 || k == 3;
    }
  }

  lemma TenIsExact()
    ensures ToDouble(TOLERANCE_TENTHS, 1) == TOLERANCE_PCT
  {
    assert Pow10(1) == 10 * Pow10(0) == 10;
    assert NearestDouble(10) == 10;
  }

  /** The decoded document: its tolerance and its entries. */
  lemma BaselineMembers(costs: map<string, EntryCost>)
    ensures var root := Decode(BaselineDoc(costs));
      && ObjGet(root, "tolerance_pct") == Some(Num(TOLERANCE_PCT))
      && ObjGet(root, "entrypoints") == Some(Decode(DObj(EntryFields(Tracked(costs), costs))))
  {
    var ms := Decode(BaselineDoc(costs)).members;
    TenIsExact();
    assert "metric_help"[0] != "entrypoints"[0];
    assert ms[0].key == "schema" && ms[1].key == "tolerance_pct";
    assert ms[2].key == "metric_help" && ms[3].key == "entrypoints";
    FirstMemberAt(ms, "tolerance_pct", 1);
    FirstMemberAt(ms, "entrypoints", 3);
  }

  lemma EntriesRead(names: seq<string>, costs: map<string, EntryCost>)
    requires forall n :: n in names ==> n in costs
    ensures ReadCosts(Decode(DObj(EntryFields(names, costs))).members) == Ok(RereadAll(names, costs))
  {
    var ms := Decode(DObj(EntryFields(names, costs))).members;
    forall k | 0 <= k < |ms| ensures names[k] in costs && EntryAt(ms, names, costs, k) {
      assert names[k] in names;
      CostReads(costs[names[k]]);
    }
    CostsRead(ms, names, costs);
  }

  lemma TextAlone(text: string, j: Json)
    requires TextReads(text, j)
    ensures ReadValue(text + "\n", 0) == Ok(Parsed(j, |text|))
  {
    AtSplit(text + "\n", 0, text, "\n");
    assert ReadsAs(text + "\n", 0, |text|, j);
  }

  /** A whole document followed by a line end is read as its decoding. */
  lemma DocumentReads(d: Doc, indent: nat)
    requires Printable(d)
    ensures var text := Render(d, indent); ReadValue(text + "\n", 0) == Ok(Parsed(Decode(d), |text|))
  {
    ReadsRendered(d, indent);
    TextAlone(Render(d, indent), Decode(d));
  }

  lemma DecodedBaseline(costs: map<string, EntryCost>)
    ensures BaselineOf(Decode(BaselineDoc(costs))) == Ok(Baseline(TOLERANCE_PCT, RereadAll(Tracked(costs), costs)))
  {
    BaselineMembers(costs);
    EntriesRead(Tracked(costs), costs);
  }

  /** What reading a printed baseline gives, for every table of costs. */
  lemma PrintedBaselineReads(costs: map<string, EntryCost>)
    ensures ParseBaseline(ToJson(costs)) == Ok(Baseline(TOLERANCE_PCT, RereadAll(Tracked(costs), costs)))
  {
    BaselinePrintable(costs);
    DocumentReads(BaselineDoc(costs), 0);
    DecodedBaseline(costs);
  }

  /** Does a metric of type i64 survive? */
  predicate Survives(n: int) {
    DoubleOf(n) == n || n == I64_MAX
  }

  lemma U32RoundTrip(n: int)
    requires 0 <= n <= U32_MAX
    ensures AsU32(DoubleOf(n) as real) == n
  {
    SmallIsDouble(n);
    TruncateInt(n);
  }

  lemma RereadIff(c: EntryCost)
    requires InTypes(c)
    ensures Reread(c) == c <==> Survives(c.cpuInsns) && Survives(c.memBytes)
  {
    I64RoundTripIff(c.cpuInsns);
    I64RoundTripIff(c.memBytes);
    U32RoundTrip(c.readEntries);
    U32RoundTrip(c.writeEntries);
    U32RoundTrip(c.readBytes);
    U32RoundTrip(c.writeBytes);
  }

  /** The tracked part of a table of costs. */
  function Restricted(costs: map<string, EntryCost>): map<string, EntryCost> {
    map n | n in costs && n in ENTRYPOINTS :: costs[n]
  }

  lemma TrackedKeys(costs: map<string, EntryCost>)
    ensures RereadAll(Tracked(costs), costs).Keys == Restricted(costs).Keys
    ensures forall n :: n in Restricted(costs) <==> n in costs && n in ENTRYPOINTS
    ensures forall n :: n in Restricted(costs) ==> RereadAll(Tracked(costs), costs)[n] == Reread(costs[n])
  {
  }

  lemma MapsEqual<V>(a: map<string, V>, b: map<string, V>)
    requires a.Keys == b.Keys
    ensures a == b <==> forall n :: n in b ==> a[n] == b[n]
  {
    if forall n :: n in b ==> a[n] == b[n] {
      assert forall n :: n in a <==> n in a.Keys;
      assert a == b;
    }
  }

  /** The round trip: reading what was printed gives the written tolerance and exactly the tracked
      costs, if and only if each of their i64 metrics is a double or the largest i64. */
  lemma BaselineRoundTripIff(costs: map<string, EntryCost>)
    requires forall n :: n in costs ==> InTypes(costs[n])
    ensures ParseBaseline(ToJson(costs)) == Ok(Baseline(TOLERANCE_PCT, Restricted(costs))) <==>
      forall n :: n in costs && n in ENTRYPOINTS ==> Survives(costs[n].cpuInsns) && Survives(costs[n].memBytes)
  {
    PrintedBaselineReads(costs);
    var a, b := RereadAll(Tracked(costs), costs), Restricted(costs);
    TrackedKeys(costs);
    forall n | n in b ensures a[n] == b[n] <==> Survives(costs[n].cpuInsns) && Survives(costs[n].memBytes) {
      RereadIff(costs[n]);
    }
    MapsEqual(a, b);
  }

  /** In particular it holds whenever no metric exceeds 2^53 in magnitude. */
  lemma BaselineRoundTrip(costs: map<string, EntryCost>)
    requires forall n :: n in costs ==> InTypes(costs[n])
    requires forall n :: n in costs ==> -(TWO_53 as int) <= costs[n].cpuInsns <= TWO_53
    requires forall n :: n in costs ==> -(TWO_53 as int) <= costs[n].memBytes <= TWO_53
    ensures ParseBaseline(ToJson(costs)) == Ok(Baseline(TOLERANCE_PCT, Restricted(costs)))
  {
    forall n | n in costs ensures Survives(costs[n].cpuInsns) && Survives(costs[n].memBytes) {
      SmallIsDouble(costs[n].cpuInsns);
      SmallIsDouble(costs[n].memBytes);
    }
    BaselineRoundTripIff(costs);
  }

  /** The first integer that does not survive. */
  lemma BeyondDoubles()
    ensures DoubleOf(TWO_53 + 1) == TWO_53 && !Survives(TWO_53 + 1)
  {
    assert Ulp(TWO_53 + 1) == 2 * Ulp((TWO_53 + 1) / 2) == 2;
  }

  // ----- Fractions and casts -----

  lemma MulLess(a: int, b: int, d: nat)
    requires d >= 1
    ensures a * d < b * d ==> a < b
    ensures (a + 1) * d == a * d + d && (b - 1) * d == b * d - d
  {
    if a >= b { assert (a - b) * d >= 0; assert a * d == b * d + (a - b) * d; }
  }

  lemma DoubleQuotient(n: nat, d: nat)
    requires d >= 1
    ensures 2 * (n / d) <= 2 * n / d <= 2 * (n / d) + 1
  {
    var q, k := n / d, 2 * n / d;
    Remainder(n, d);
    Remainder(2 * n, d);
    assert (2 * q) * d == 2 * (q * d) && (2 * q + 2) * d == 2 * (q * d) + 2 * d;
    MulLess(2 * q, k + 1, d);
    MulLess(k, 2 * q + 2, d);
  }

  lemma DoubleShift(n: nat, j: nat)
    ensures Product(2 * n, Pow2(j)) == Product(n, Pow2(j + 1))
  {
    var p := Pow2(j);
    assert Pow2(j + 1) == 2 * p;
    assert (2 * n) * p == n * (2 * p);
  }

  /** Where doubling a fraction below 2^52 stops: at 53 binary digits, or at the smallest double. */
  lemma {:induction false} ShiftStops(n: nat, d: nat, k: nat)
    requires d >= 1 && n / d < TWO_53 / 2 && k <= MAX_SHIFT
    ensures var j := Shift(n, d, k);
      && k <= j <= MAX_SHIFT
      && Product(n, Pow2(j - k)) / d < TWO_53
      && (Product(n, Pow2(j - k)) / d >= TWO_53 / 2 || j == MAX_SHIFT)
    decreases MAX_SHIFT - k
  {
    assert Pow2(0) == 1 && Pow2(1) == 2;
    if k < MAX_SHIFT {
      DoubleQuotient(n, d);
      if 2 * n / d < TWO_53 / 2 {
        ShiftStops(2 * n, d, k + 1);
        DoubleShift(n, Shift(2 * n, d, k + 1) - k - 1);
      } else {
        assert Shift(2 * n, d, k + 1) == k + 1;
      }
    }
  }

  /** A rounded quotient is off by half a unit at most. */
  lemma HalfAtMost(n: nat, d: nat)
    requires d >= 1
    ensures 2 * Distance(Rounded(n, d), n, d) <= d && n / d <= Rounded(n, d) <= n / d + 1
  {
    var q, r := n / d, n % d;
    Remainder(n, d);
    assert (q + 1) * d == q * d + d;
  }

  lemma {:induction false} UlpSpan(m: nat)
    requires m >= TWO_53 / 2
    ensures Ulp(m) * (TWO_53 / 2) <= m < Ulp(m) * TWO_53
  {
    if m >= TWO_53 { UlpSpan(m / 2); }
  }

  /** The double read for a fraction that is below 2^52 is k / 2^j, off by half of 1 / 2^j at most,
      where k has 53 binary digits or 2^j is the largest power there is. */
  lemma SmallFraction(n: nat, d: nat) returns (k: nat, j: nat)
    requires d >= 1 && n / d < TWO_53 / 2
    ensures NearestFraction(n, d) == k as real / Pow2(j) as real
    ensures 2 * Distance(k, Product(n, Pow2(j)), d) <= d && k <= TWO_53
    ensures j <= 1074 && (k >= TWO_53 / 2 || j == 1074)
  {
    j := Shift(n, d, 0);
    k := Rounded(Product(n, Pow2(j)), d);
    ShiftStops(n, d, 0);
    HalfAtMost(Product(n, Pow2(j)), d);
  }

  /** And for one from 2^52 on it is k * u, off by half of u at most, where k has 53 binary digits. */
  lemma LargeFraction(n: nat, d: nat) returns (k: nat, u: nat)
    requires d >= 1 && n / d >= TWO_53 / 2
    ensures NearestFraction(n, d) == Product(k, u) as real && u >= 1
    ensures 2 * Distance(k, n, Product(u, d)) <= Product(u, d)
    ensures u * (TWO_53 / 2) <= n / d < u * TWO_53
  {
    u := Ulp(n / d);
    k := Rounded(n, Product(u, d));
    HalfAtMost(n, Product(u, d));
    UlpSpan(n / d);
  }

  /** The casts drop the fraction, toward zero, and stop at the ends of their types. */
  lemma CastsTruncate(x: real)
    ensures AsI64(x) == if x >= 9223372036854775807.0 then I64_MAX
                        else if x <= -9223372036854775808.0 then I64_MIN
                        else if x >= 0.0 then x.Floor else -((-x).Floor)
    ensures AsU32(x) == if x >= 4294967295.0 then 4294967295 else if x <= 0.0 then 0 else x.Floor
  {
  }

  // ----- Which documents are baselines -----

  /** The object has a number under this key, first of that name. */
  predicate HasNumber(c: Json, key: string) {
    c.Obj? && FirstMember(c.members, key).Some? && FirstMember(c.members, key).value.Num?
  }

  predicate HasMetrics(c: Json) {
    && HasNumber(c, "cpu_insns") && HasNumber(c, "mem_bytes") && HasNumber(c, "read_entries")
    && HasNumber(c, "write_entries") && HasNumber(c, "read_bytes") && HasNumber(c, "write_bytes")
  }

  lemma MetricReadsIff(c: Json, key: string)
    ensures Metric(c, key).Ok? <==> HasNumber(c, key)
    ensures HasNumber(c, key) ==> Metric(c, key) == Ok(FirstMember(c.members, key).value.value)
  {
  }

  /** An entry is read if and only if all six metrics are there as numbers. */
  lemma CostReadsIff(c: Json)
    ensures ReadCost(c).Ok? <==> HasMetrics(c)
  {
    MetricReadsIff(c, "cpu_insns");
    MetricReadsIff(c, "mem_bytes");
    MetricReadsIff(c, "read_entries");
    MetricReadsIff(c, "write_entries");
    MetricReadsIff(c, "read_bytes");
    MetricReadsIff(c, "write_bytes");
  }

  /** Member `i` is the last of its name. */
  predicate LastOfName(ms: seq<Member>, i: nat) {
    i < |ms| && forall j :: i < j < |ms| ==> ms[j].key != ms[i].key
  }

  /** The entries are read if and only if each of them is. */
  lemma {:induction false} CostsReadIff(ms: seq<Member>)
    ensures ReadCosts(ms).Ok? <==> forall i :: 0 <= i < |ms| ==> HasMetrics(ms[i].value)
  {
    if ms != [] {
      var front, last := ms[..|ms| - 1], ms[|ms| - 1];
      CostsReadIff(front);
      CostReadsIff(last.value);
      assert ms == front + [last];
    }
  }

  lemma LastOfFront(ms: seq<Member>, i: nat)
    requires LastOfName(ms, i) && i < |ms| - 1
    ensures LastOfName(ms[..|ms| - 1], i) && ms[|ms| - 1].key != ms[i].key
  {
    var front := ms[..|ms| - 1];
    forall j | i < j < |front| ensures front[j].key != front[i].key { assert ms[j].key != ms[i].key; }
  }

  /** And of several with one name the last counts. */
  lemma {:induction false} LastCostCounts(ms: seq<Member>, i: nat)
    requires ReadCosts(ms).Ok? && LastOfName(ms, i)
    ensures ms[i].key in ReadCosts(ms).value && ReadCost(ms[i].value) == Ok(ReadCosts(ms).value[ms[i].key])
  {
    if i < |ms| - 1 {
      LastOfFront(ms, i);
      LastCostCounts(ms[..|ms| - 1], i);
    }
  }

  /** A document is a baseline if and only if its tolerance, if there is one, is a number, and each of its
      entry points, if there is an object of them, has all its metrics. */
  lemma BaselineReadsIff(root: Json)
    ensures BaselineOf(root).Ok? <==>
      && (ObjGet(root, "tolerance_pct").Some? ==> ObjGet(root, "tolerance_pct").value.Num?)
      && (ObjGet(root, "entrypoints").Some? && ObjGet(root, "entrypoints").value.Obj? ==>
            forall i :: 0 <= i < |ObjGet(root, "entrypoints").value.members| ==>
                          HasMetrics(ObjGet(root, "entrypoints").value.members[i].value))
    ensures BaselineOf(root).Ok? ==>
      BaselineOf(root).value.tolerancePct ==
        if ObjGet(root, "tolerance_pct").Some? then ObjGet(root, "tolerance_pct").value.value else 10.0
  {
    var e := ObjGet(root, "entrypoints");
    if e.Some? && e.value.Obj? { CostsReadIff(e.value.members); }
  }
}
