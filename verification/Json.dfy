/** The cost-baseline printer and its recursive-descent reader
    (contracts/credence_bond/benches/harness.rs 176-343). A document is a sequence of bytes,
    written as characters; a panic of the reader is an error result. */
module Json {
  import opened Host

  datatype Json = Obj(members: seq<Member>) | Num(value: real) | Str(text: string)

  datatype Member = Member(key: string, value: Json)

  datatype ReadError = OutOfBounds | BadNumber | MissingKey | NotANumber

  /** What was read, and the index after it. */
  datatype Parsed<+T> = Parsed(value: T, next: nat)

  type Read<+T> = Result<Parsed<T>, ReadError>

  // ----- Numbers -----

  predicate IsDigit(c: char) {
    '0' <= c <= '9'
  }

  predicate AllDigits(s: string) {
    forall i :: 0 <= i < |s| ==> IsDigit(s[i])
  }

  function DigitsValue(s: string): nat
    requires AllDigits(s)
  {
    if s == "" then 0 else DigitsValue(s[..|s| - 1]) * 10 + (s[|s| - 1] - '0') as nat
  }

  function Digits(n: nat): string {
    if n < 10 then [n as char + '0'] else Digits(n / 10) + [(n % 10) as char + '0']
  }

  function IntText(n: int): string {
    if n < 0 then "-" + Digits(-n) else Digits(n)
  }

  const TWO_53: nat := 0x20_0000_0000_0000

  /** The distance between neighbouring doubles at the magnitude of `n`, for integers. */
  function Ulp(n: nat): (u: nat)
    ensures u >= 1
  {
    if n < TWO_53 then 1 else 2 * Ulp(n / 2)
  }

  /** The quotient `q` with remainder `r` of a division by `u`, rounded, ties to even. */
  function HalfEven(q: nat, r: nat, u: nat): nat {
    if 2 * r < u || (2 * r == u && q % 2 == 0) then q else q + 1
  }

  /** The double nearest to the integer `n`, ties to even. */
  function NearestDouble(n: nat): nat {
    var u := Ulp(n);
    HalfEven(n / u, n % u, u) * u
  }

  function Pow10(k: nat): (p: nat)
    ensures p >= 1
  {
    if k == 0 then 1 else 10 * Pow10(k - 1)
  }

  const MAX_SHIFT: nat := 1074

  /** How often a fraction is doubled, starting from `k` doublings, to have 53 binary digits or to
      reach the smallest positive double. */
  function Shift(n: nat, d: nat, k: nat): (j: nat)
    requires d >= 1
    decreases MAX_SHIFT - k
  {
    if n / d >= TWO_53 / 2 || k >= MAX_SHIFT then k else Shift(2 * n, d, k + 1)
  }

  function Pow2(k: nat): (p: nat)
    ensures p >= 1
  {
    if k == 0 then 1 else 2 * Pow2(k - 1)
  }

  /** n / d rounded to an integer, ties to even. */
  function Rounded(n: nat, d: nat): nat
    requires d >= 1
  {
    HalfEven(n / d, n % d, d)
  }

  function Product(a: nat, b: nat): (p: nat)
    ensures a >= 1 && b >= 1 ==> p >= 1
  {
    a * b
  }

  /** The double nearest to n / d, ties to even: 2^52 and more are rounded to a multiple of the
      distance between doubles there, smaller fractions in the last of 53 binary digits. */
  function NearestFraction(n: nat, d: nat): real
    requires d >= 1
  {
    if n / d >= TWO_53 / 2 then
      var u := Ulp(n / d);
      Product(Rounded(n, Product(u, d)), u) as real
    else
      var p := Pow2(Shift(n, d, 0));
      Rounded(Product(n, p), d) as real / p as real
  }

  /** The double nearest to mantissa / 10^scale. */
  function ToDouble(mantissa: nat, scale: int): real {
    if scale <= 0 then NearestDouble(Product(mantissa, Pow10(-scale))) as real
    else
      var p := Pow10(scale);
      if mantissa % p == 0 then NearestDouble(mantissa / p) as real else NearestFraction(mantissa, p)
  }

  /** The first point at `i` or later. */
  function FindPoint(s: string, i: nat): (k: nat)
    requires i <= |s|
    ensures i <= k <= |s|
    decreases |s| - i
  {
    if i == |s| || s[i] == '.' then i else FindPoint(s, i + 1)
  }

  predicate IsLetter(c: char) {
    c == 'e' || c == 'E'
  }

  /** The first letter of an exponent at `i` or later. */
  function FindLetter(s: string, i: nat): (k: nat)
    requires i <= |s|
    ensures i <= k <= |s|
    decreases |s| - i
  {
    if i == |s| || IsLetter(s[i]) then i else FindLetter(s, i + 1)
  }

  /** What follows the letter of an exponent: digits, with or without a sign. */
  function ParseExponent(s: string): Option<int> {
    var negative := s != "" && s[0] == '-';
    var digits := if negative || (s != "" && s[0] == '+') then s[1..] else s;
    if digits == "" || !AllDigits(digits) then None
    else Some(if negative then -(DigitsValue(digits) as int) else DigitsValue(digits))
  }

  /** The digits `w` and then `f` as one number. */
  function JoinedValue(w: string, f: string): nat
    requires AllDigits(w) && AllDigits(f)
    decreases |f|
  {
    if f == "" then DigitsValue(w) else JoinedValue(w, f[..|f| - 1]) * 10 + (f[|f| - 1] - '0') as nat
  }

  /** The digits of a mantissa with at most one point among them, and how many follow the point. */
  function ParseMantissa(m: string): Option<(nat, nat)> {
    var p := FindPoint(m, 0);
    var w, f := m[..p], if p < |m| then m[p + 1..] else "";
    if (w == "" && f == "") || !AllDigits(w) || !AllDigits(f) then None else Some((JoinedValue(w, f), |f|))
  }

  /** The exponent, given the index of its letter if there is one. */
  function ExponentAt(t: string, e: nat): Option<int> {
    if e < |t| then ParseExponent(t[e + 1..]) else Some(0)
  }

  /** An exponent moves the point of a mantissa. */
  function Shifted(m: Option<(nat, nat)>, exponent: Option<int>): Option<(nat, int)> {
    if m.None? || exponent.None? then None else Some((m.value.0, m.value.1 - exponent.value))
  }

  /** A literal without sign, a mantissa and perhaps an exponent: its digits, and how many of them
      follow the point. */
  function ParseDecimal(t: string): Option<(nat, int)> {
    var e := FindLetter(t, 0);
    Shifted(ParseMantissa(t[..e]), ExponentAt(t, e))
  }

  /** A number as it is written: a sign, digits, and how many of them follow the point. */
  datatype Literal = Literal(negative: bool, digits: nat, scale: int)

  function ParseLiteral(s: string): Option<Literal> {
    var negative := s != "" && s[0] == '-';
    var x := ParseDecimal(if negative || (s != "" && s[0] == '+') then s[1..] else s);
    if x.None? then None else Some(Literal(negative, x.value.0, x.value.1))
  }

  function ValueOf(l: Literal): real {
    if l.negative then -ToDouble(l.digits, l.scale) else ToDouble(l.digits, l.scale)
  }

  /** str::parse::<f64> on the characters of a number. */
  function ParseDouble(s: string): Option<real> {
    var l := ParseLiteral(s);
    if l.None? then None else Some(ValueOf(l.value))
  }

  function Truncate(x: real): int {
    if x >= 0.0 then x.Floor else -((-x).Floor)
  }

  const I64_MAX: int := 0x7FFF_FFFF_FFFF_FFFF
  const I64_MIN: int := -I64_MAX - 1

  /** Float-to-integer casts truncate and saturate. */
  function AsI64(x: real): int {
    Max(I64_MIN, Min(I64_MAX, Truncate(x)))
  }

  function AsU32(x: real): int {
    Max(0, Min(U32_MAX, Truncate(x)))
  }

  // ----- The reader -----

  /** White space among the first 256 characters. */
  predicate IsWs(c: char) {
    c == ' ' || '\t' <= c <= '\r' || c == '\U{0085}' || c == '\U{00A0}'
  }

  function SkipWs(b: string, i: nat): (j: nat)
    ensures i <= j
    decreases |b| - i
  {
    if i < |b| && IsWs(b[i]) then SkipWs(b, i + 1) else i
  }

  function FindQuote(b: string, i: nat): (q: Option<nat>)
    ensures q.Some? ==> i <= q.value < |b|
    decreases |b| - i
  {
    if i >= |b| then None else if b[i] == '"' then Some(i) else FindQuote(b, i + 1)
  }

  /** The byte where the opening quote belongs is skipped unread. */
  function ReadString(b: string, i: nat): (r: Read<string>)
    ensures r.Ok? ==> i < r.value.next <= |b|
  {
    var start := SkipWs(b, i) + 1;
    var q := FindQuote(b, start);
    if q.None? then Err(OutOfBounds) else Ok(Parsed(b[start..q.value], q.value + 1))
  }

  predicate IsNumberChar(c: char) {
    c == '-' || c == '+' || c == '.' || c == 'e' || c == 'E' || IsDigit(c)
  }

  function NumberEnd(b: string, i: nat): (j: nat)
    ensures i <= j && (i <= |b| ==> j <= |b|)
    decreases |b| - i
  {
    if i < |b| && IsNumberChar(b[i]) then NumberEnd(b, i + 1) else i
  }

  function ReadNumber(b: string, i: nat): (r: Read<Json>)
    requires i <= |b|
    ensures r.Ok? ==> i < r.value.next <= |b|
  {
    var end := NumberEnd(b, i);
    var x := ParseDouble(b[i..end]);
    if x.None? then Err(BadNumber) else Ok(Parsed(Num(x.value), end))
  }

  function ReadValue(b: string, i: nat): (r: Read<Json>)
    ensures r.Ok? ==> i < r.value.next <= |b|
    decreases |b| - i, 1
  {
    ValueAt(b, SkipWs(b, i))
  }

  function ValueAt(b: string, i: nat): (r: Read<Json>)
    ensures r.Ok? ==> i < r.value.next <= |b|
    decreases |b| - i, 0
  {
    if i >= |b| then Err(OutOfBounds)
    else if b[i] == '{' then ReadMembers(b, i + 1, [])
    else if b[i] == '"' then
      var s := ReadString(b, i);
      if s.Err? then Err(s.error) else Ok(Parsed(Str(s.value.value), s.value.next))
    else ReadNumber(b, i)
  }

  /** The loop over the members of an object, `acc` being those already read. */
  function ReadMembers(b: string, i: nat, acc: seq<Member>): (r: Read<Json>)
    ensures r.Ok? ==> i < r.value.next <= |b|
    decreases |b| - i, 1
  {
    MembersAt(b, SkipWs(b, i), acc)
  }

  function MembersAt(b: string, i: nat, acc: seq<Member>): (r: Read<Json>)
    ensures r.Ok? ==> i < r.value.next <= |b|
    decreases |b| - i, 0
  {
    if i >= |b| then Err(OutOfBounds)
    else if b[i] == '}' then Ok(Parsed(Obj(acc), i + 1))
    else
      var key := ReadString(b, i);
      if key.Err? then Err(key.error)
      else
        var val := ReadValue(b, SkipWs(b, key.value.next) + 1);
        if val.Err? then val
        else AfterMember(b, val.value.next, acc + [Member(key.value.value, val.value.value)])
  }

  /** A comma after a member is optional. */
  function AfterMember(b: string, i: nat, acc: seq<Member>): (r: Read<Json>)
    ensures r.Ok? ==> i < r.value.next <= |b|
    decreases |b| - i, 2
  {
    var k := SkipWs(b, i);
    if k >= |b| then Err(OutOfBounds) else ReadMembers(b, if b[k] == ',' then k + 1 else k, acc)
  }

  // ----- The baseline -----

  datatype EntryCost = EntryCost(
    cpuInsns: int, memBytes: int, readEntries: int, writeEntries: int, readBytes: int, writeBytes: int)

  datatype Baseline = Baseline(tolerancePct: real, costs: map<string, EntryCost>)

  const ENTRYPOINTS: seq<string> := ["create_bond", "top_up", "withdraw", "withdraw_early", "slash_bond",
                                     "add_attestation"]
  const TOLERANCE_TENTHS: nat := 100
  const TOLERANCE_PCT: real := 10.0

  function FirstMember(ms: seq<Member>, key: string): Option<Json> {
    if ms == [] then None
    else if ms[0].key == key then Some(ms[0].value)
    else FirstMember(ms[1..], key)
  }

  function ObjGet(j: Json, key: string): Option<Json> {
    if j.Obj? then FirstMember(j.members, key) else None
  }

  function Metric(c: Json, key: string): Result<real, ReadError> {
    var v := ObjGet(c, key);
    if v.None? then Err(MissingKey) else if !v.value.Num? then Err(NotANumber) else Ok(v.value.value)
  }

  /** The six metrics of an entry, in the order they are read. */
  function ReadCost(c: Json): Result<EntryCost, ReadError> {
    var cpu, mem := Metric(c, "cpu_insns"), Metric(c, "mem_bytes");
    var re, we := Metric(c, "read_entries"), Metric(c, "write_entries");
    var rb, wb := Metric(c, "read_bytes"), Metric(c, "write_bytes");
    if cpu.Err? then Err(cpu.error)
    else if mem.Err? then Err(mem.error)
    else if re.Err? then Err(re.error)
    else if we.Err? then Err(we.error)
    else if rb.Err? then Err(rb.error)
    else if wb.Err? then Err(wb.error)
    else Ok(EntryCost(AsI64(cpu.value), AsI64(mem.value), AsU32(re.value), AsU32(we.value), AsU32(rb.value),
                      AsU32(wb.value)))
  }

  function ReadCosts(ms: seq<Member>): Result<map<string, EntryCost>, ReadError> {
    if ms == [] then Ok(map[])
    else
      var before := ReadCosts(ms[..|ms| - 1]);
      var last := ms[|ms| - 1];
      var c := ReadCost(last.value);
      if before.Err? then before else if c.Err? then Err(c.error) else Ok(before.value[last.key := c.value])
  }

  function BaselineOf(root: Json): Result<Baseline, ReadError> {
    var t, e := ObjGet(root, "tolerance_pct"), ObjGet(root, "entrypoints");
    if t.Some? && !t.value.Num? then Err(NotANumber)
    else
      var tolerance := if t.Some? then t.value.value else TOLERANCE_PCT;
      if e.None? || !e.value.Obj? then Ok(Baseline(tolerance, map[]))
      else
        var costs := ReadCosts(e.value.members);
        if costs.Err? then Err(costs.error) else Ok(Baseline(tolerance, costs.value))
  }

  function ParseBaseline(text: string): Result<Baseline, ReadError> {
    var root := ReadValue(text, 0);
    if root.Err? then Err(root.error) else BaselineOf(root.value.value)
  }

  // ----- The printer -----

  /** A document to print. A `Tenths` is printed with one decimal. */
  datatype Doc = DObj(fields: seq<Field>) | DInt(n: int) | DTenths(tenths: nat) | DStr(text: string)

  datatype Field = Field(key: string, value: Doc)

  function Spaces(n: nat): string {
    seq(n, i => ' ')
  }

  /** The first `k` lines. */
  function Concat(lines: seq<string>, k: nat): string
    requires k <= |lines|
  {
    if k == 0 then "" else Concat(lines, k - 1) + lines[k - 1]
  }

  /** An object, given its lines. */
  function Block(lines: seq<string>, indent: nat): string {
    "{\n" + Concat(lines, |lines|) + Spaces(indent) + "}"
  }

  function LineOf(key: string, value: string, indent: nat, comma: bool): string {
    Spaces(indent + 2) + "\"" + key + "\": " + value + (if comma then ",\n" else "\n")
  }

  /** The pretty printer: one member a line, two blanks deeper than its object. */
  function Render(d: Doc, indent: nat): string {
    match d
    case DObj(fields) =>
      Block(seq(|fields|, k requires 0 <= k < |fields| =>
                LineOf(fields[k].key, Render(fields[k].value, indent + 2), indent, k + 1 < |fields|)), indent)
    case DInt(n) => IntText(n)
    case DTenths(n) => Digits(n / 10) + "." + Digits(n % 10)
    case DStr(s) => "\"" + s + "\""
  }

  function CostDoc(c: EntryCost): Doc {
    DObj([Field("cpu_insns", DInt(c.cpuInsns)), Field("mem_bytes", DInt(c.memBytes)),
          Field("read_entries", DInt(c.readEntries)), Field("write_entries", DInt(c.writeEntries)),
          Field("read_bytes", DInt(c.readBytes)), Field("write_bytes", DInt(c.writeBytes))])
  }

  /** The tracked entry points that were measured, in canonical order. */
  function Names(all: seq<string>, costs: map<string, EntryCost>): (names: seq<string>)
    ensures forall n :: n in names <==> n in all && n in costs
  {
    if all == [] then []
    else Names(all[..|all| - 1], costs) + (if all[|all| - 1] in costs then [all[|all| - 1]] else [])
  }

  function EntryFields(names: seq<string>, costs: map<string, EntryCost>): seq<Field>
    requires forall n :: n in names ==> n in costs
  {
    seq(|names|, i requires 0 <= i < |names| => assert names[i] in names; Field(names[i], CostDoc(costs[names[i]])))
  }

  const SCHEMA: string := "credence_bond.cost_baseline.v1"
  const METRIC_HELP: string :=
    (("cpu_insns and mem_bytes are modelled host" + " costs; read/write_entries and read/write")
     + ("_bytes are the ledger rw-unit footprint." + " See docs/gas-regression.md."))

  function BaselineDoc(costs: map<string, EntryCost>): Doc {
    DObj([Field("schema", DStr(SCHEMA)), Field("tolerance_pct", DTenths(TOLERANCE_TENTHS)),
          Field("metric_help", DStr(METRIC_HELP)),
          Field("entrypoints", DObj(EntryFields(Names(ENTRYPOINTS, costs), costs)))])
  }

  function ToJson(costs: map<string, EntryCost>): string {
    Render(BaselineDoc(costs), 0) + "\n"
  }
}
