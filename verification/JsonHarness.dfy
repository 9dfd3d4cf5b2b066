/** The reader and the printer as the harness runs them: an index moved through the text, and a
    text extended piece by piece. */
module JsonHarness {
  import opened Host
  import opened Json
  import J = Json
  import T = JsonTheorems

  /** A method's outcome and its final index are what the specification reads. */
  ghost predicate Agrees<V>(r: Result<V, ReadError>, i: nat, spec: Read<V>) {
    if spec.Ok? then r == Ok(spec.value.value) && i == spec.value.next else r == Err(spec.error)
  }

  class Reader {
    const b: string
    var i: nat

    constructor (text: string)
      ensures b == text && i == 0
    {
      b, i := text, 0;
    }

    method Ws()
      modifies this
      ensures i == SkipWs(b, old(i))
    {
      while i < |b| && IsWs(b[i])
        invariant SkipWs(b, i) == SkipWs(b, old(i))
        decreases |b| - i
      {
        i := i + 1;
      }
    }

    method Value() returns (r: Result<Json, ReadError>)
      modifies this
      ensures Agrees(r, i, ReadValue(b, old(i))) || r.Err?
      ensures r.Err? <==> ReadValue(b, old(i)).Err?
      ensures r.Err? ==> r.error == ReadValue(b, old(i)).error
      decreases |b| - i, 2
    {
      Ws();
      if i >= |b| {
        r := Err(OutOfBounds);
      } else if b[i] == '{' {
        r := Object();
      } else if b[i] == '"' {
        var s := String();
        r := if s.Err? then Err(s.error) else Ok(Str(s.value));
      } else {
        r := Number();
      }
    }

    method Object() returns (r: Result<Json, ReadError>)
      requires i < |b|
      modifies this
      ensures Agrees(r, i, ReadMembers(b, old(i) + 1, [])) || r.Err?
      ensures r.Err? <==> ReadMembers(b, old(i) + 1, []).Err?
      ensures r.Err? ==> r.error == ReadMembers(b, old(i) + 1, []).error
      decreases |b| - i, 1
    {
      ghost var start := i + 1;
      i := i + 1;
      var members: seq<Member> := [];
      var done := false;
      r := Err(OutOfBounds);
      while !done
        invariant !done ==> start <= i && ReadMembers(b, start, []) == ReadMembers(b, i, members)
        invariant done && r.Ok? ==> ReadMembers(b, start, []) == Ok(Parsed(r.value, i))
        invariant done && r.Err? ==> ReadMembers(b, start, []) == Err(r.error)
        decreases !done, |b| - i
      {
        Ws();
        if i >= |b| {
          done, r := true, Err(OutOfBounds);
        } else if b[i] == '}' {
          i := i + 1;
          done, r := true, Ok(Obj(members));
        } else {
          var m := KeyAndValue();
          if m.Err? {
            done, r := true, Err(m.error);
          } else {
            members := members + [m.value];
            var more := Separator();
            if !more {
              done, r := true, Err(OutOfBounds);
            }
          }
        }
      }
    }

    /** A member: its key, the colon, its value. */
    method KeyAndValue() returns (m: Result<Member, ReadError>)
      requires i < |b| && b[i] != '}'
      modifies this
      ensures m.Ok? ==> old(i) < i <= |b|
      ensures m.Ok? ==> forall acc :: MembersAt(b, old(i), acc) == AfterMember(b, i, acc + [m.value])
      ensures m.Err? ==> forall acc :: MembersAt(b, old(i), acc) == Err(m.error)
      decreases |b| - i, 0
    {
      var key := String();
      if key.Err? {
        m := Err(key.error);
      } else {
        Ws();
        i := i + 1;  // the colon
        var val := Value();
        m := if val.Err? then Err(val.error) else Ok(Member(key.value, val.value));
      }
    }

    /** The optional comma after a member. */
    method Separator() returns (more: bool)
      modifies this
      ensures old(i) <= i
      ensures forall acc :: AfterMember(b, old(i), acc) == if more then ReadMembers(b, i, acc) else Err(OutOfBounds)
    {
      Ws();
      more := i < |b|;
      if more && b[i] == ',' {
        i := i + 1;
      }
    }

    method String() returns (r: Result<string, ReadError>)
      modifies this
      ensures r.Ok? ==> ReadString(b, old(i)) == Ok(Parsed(r.value, i))
      ensures r.Err? ==> ReadString(b, old(i)) == Err(r.error)
    {
      Ws();
      i := i + 1;  // the opening quote
      var start := i;
      while i < |b| && b[i] != '"'
        invariant start <= i && FindQuote(b, start) == FindQuote(b, i)
        decreases |b| - i
      {
        i := i + 1;
      }
      if i >= |b| {
        r := Err(OutOfBounds);
      } else {
        r := Ok(b[start..i]);
        i := i + 1;  // the closing quote
      }
    }

    method Number() returns (r: Result<Json, ReadError>)
      requires i < |b|
      modifies this
      ensures r.Ok? ==> ReadNumber(b, old(i)) == Ok(Parsed(r.value, i))
      ensures r.Err? ==> ReadNumber(b, old(i)) == Err(r.error)
    {
      var start := i;
      while i < |b| && IsNumberChar(b[i])
        invariant start <= i <= |b| && NumberEnd(b, start) == NumberEnd(b, i)
        decreases |b| - i
      {
        i := i + 1;
      }
      var x := ParseDouble(b[start..i]);
      r := if x.None? then Err(BadNumber) else Ok(Num(x.value));
    }
  }

  lemma {:induction false} StopsAt(ms: seq<Member>, k: nat)
    requires k <= |ms| && ReadCosts(ms[..k]).Err?
    ensures ReadCosts(ms) == ReadCosts(ms[..k])
  {
    if k < |ms| {
      assert ms[..|ms| - 1][..k] == ms[..k];
      StopsAt(ms[..|ms| - 1], k);
    } else {
      assert ms[..k] == ms;
    }
  }

  /** The entries in turn; the first that lacks a metric stops the reading. */
  method CollectCosts(ms: seq<Member>) returns (r: Result<map<string, EntryCost>, ReadError>)
    ensures r == ReadCosts(ms)
  {
    var costs := map[];
    for k := 0 to |ms|
      invariant ReadCosts(ms[..k]) == Ok(costs)
    {
      assert ms[..k + 1][..k] == ms[..k];
      var c := ReadCost(ms[k].value);
      if c.Err? {
        StopsAt(ms, k + 1);
        return Err(c.error);
      }
      costs := costs[ms[k].key := c.value];
    }
    assert ms[..|ms|] == ms;
    return Ok(costs);
  }

  /** parse_baseline. It comes to an end on every text. */
  method ParseBaseline(text: string) returns (r: Result<Baseline, ReadError>)
    ensures r == J.ParseBaseline(text)
  {
    var reader := new Reader(text);
    var root := reader.Value();
    if root.Err? {
      return Err(root.error);
    }
    var t, e := ObjGet(root.value, "tolerance_pct"), ObjGet(root.value, "entrypoints");
    if t.Some? && !t.value.Num? {
      return Err(NotANumber);
    }
    var tolerance := if t.Some? then t.value.value else TOLERANCE_PCT;
    if e.None? || !e.value.Obj? {
      return Ok(Baseline(tolerance, map[]));
    }
    var costs := CollectCosts(e.value.members);
    r := if costs.Err? then Err(costs.error) else Ok(Baseline(tolerance, costs.value));
  }

  // ----- The printer -----

  lemma Assoc(a: string, b: string, c: string)
    ensures (a + b) + c == a + (b + c)
  {
  }

  /** One metric, at the indentation of an entry. */
  method PushMetric(s: string, key: string, n: int, comma: bool) returns (t: string)
    ensures t == s + LineOf(key, IntText(n), 4, comma)
  {
    var end := if comma then ",\n" else "\n";
    t := s + "      \"" + key + "\": " + IntText(n) + end;
    assert Spaces(6) + "\"" == "      \"";
    var x := "      \"" + key + "\": " + IntText(n) + end;
    assert LineOf(key, IntText(n), 4, comma) == x;
    assert t == s + x;
  }

  /** The lines of one entry. */
  function CostLines(c: EntryCost): seq<string> {
    [LineOf("cpu_insns", IntText(c.cpuInsns), 4, true), LineOf("mem_bytes", IntText(c.memBytes), 4, true),
     LineOf("read_entries", IntText(c.readEntries), 4, true), LineOf("write_entries", IntText(c.writeEntries), 4, true),
     LineOf("read_bytes", IntText(c.readBytes), 4, true), LineOf("write_bytes", IntText(c.writeBytes), 4, false)]
  }

  lemma CostDocIs(c: EntryCost)
    ensures Render(CostDoc(c), 4) == Block(CostLines(c), 4)
  {
    T.LinesAgree(CostDoc(c).fields, CostLines(c), 4);
  }

  /** Pushing the next line. */
  lemma NextLine(p: string, lines: seq<string>, k: nat)
    requires k < |lines|
    ensures (p + Concat(lines, k)) + lines[k] == p + Concat(lines, k + 1)
  {
    Assoc(p, Concat(lines, k), lines[k]);
  }

  /** The six metrics of an entry, behind what was printed before. */
  method PushMetrics(s: string, c: EntryCost) returns (t: string)
    ensures t == s + Concat(CostLines(c), 6)
  {
    ghost var lines := CostLines(c);
    t := PushMetric(s, "cpu_insns", c.cpuInsns, true);
    assert t == s + Concat(lines, 1) by { NextLine(s, lines, 0); }
    t := PushMetric(t, "mem_bytes", c.memBytes, true);
    assert t == s + Concat(lines, 2) by { NextLine(s, lines, 1); }
    t := PushMetric(t, "read_entries", c.readEntries, true);
    assert t == s + Concat(lines, 3) by { NextLine(s, lines, 2); }
    t := PushMetric(t, "write_entries", c.writeEntries, true);
    assert t == s + Concat(lines, 4) by { NextLine(s, lines, 3); }
    t := PushMetric(t, "read_bytes", c.readBytes, true);
    assert t == s + Concat(lines, 5) by { NextLine(s, lines, 4); }
    t := PushMetric(t, "write_bytes", c.writeBytes, false);
    assert t == s + Concat(lines, 6) by { NextLine(s, lines, 5); }
  }

  lemma EntryIs(name: string, c: EntryCost, comma: bool, head: string, tail: string)
    requires head == "    \"" + name + "\": {\n" && tail == "    }" + (if comma then "," else "") + "\n"
    ensures LineOf(name, Render(CostDoc(c), 4), 2, comma) == head + Concat(CostLines(c), 6) + tail
  {
    CostDocIs(c);
    var mid := Concat(CostLines(c), 6);
    var end := if comma then ",\n" else "\n";
    assert Spaces(4) + "\"" == "    \"";
    assert head == "    \"" + name + "\": " + "{\n";
    assert Spaces(4) + "}" + end == tail;
    var value := "{\n" + mid + Spaces(4) + "}";
    assert "    \"" + name + "\": " + value + end == head + mid + tail;
  }

  /** One entry with its closing brace. */
  method PushEntry(s: string, name: string, c: EntryCost, comma: bool) returns (t: string)
    ensures t == s + LineOf(name, Render(CostDoc(c), 4), 2, comma)
  {
    var head, tail := "    \"" + name + "\": {\n", "    }" + (if comma then "," else "") + "\n";
    t := PushMetrics(s + head, c);
    t := t + tail;
    EntryIs(name, c, comma, head, tail);
    var mid := Concat(CostLines(c), 6);
    assert t == ((s + head) + mid) + tail;
    Assoc(s + head, mid, tail);
    Assoc(s, head, mid + tail);
    Assoc(head, mid, tail);
  }

  /** The measured entry points in canonical order. */
  method TrackedNames(costs: map<string, EntryCost>) returns (names: seq<string>)
    ensures names == Names(ENTRYPOINTS, costs)
  {
    names := [];
    for k := 0 to |ENTRYPOINTS|
      invariant names == Names(ENTRYPOINTS[..k], costs)
    {
      assert ENTRYPOINTS[..k + 1][..k] == ENTRYPOINTS[..k];
      if ENTRYPOINTS[k] in costs {
        names := names + [ENTRYPOINTS[k]];
      }
    }
    assert ENTRYPOINTS[..|ENTRYPOINTS|] == ENTRYPOINTS;
  }

  /** The lines of all entries. */
  function EntryLines(names: seq<string>, costs: map<string, EntryCost>): seq<string>
    requires forall n :: n in names ==> n in costs
  {
    seq(|names|, k requires 0 <= k < |names| =>
      assert names[k] in names; LineOf(names[k], Render(CostDoc(costs[names[k]]), 4), 2, k + 1 < |names|))
  }

  lemma EntriesDocIs(names: seq<string>, costs: map<string, EntryCost>)
    requires forall n :: n in names ==> n in costs
    ensures Render(DObj(EntryFields(names, costs)), 2) == Block(EntryLines(names, costs), 2)
  {
    T.LinesAgree(EntryFields(names, costs), EntryLines(names, costs), 2);
  }

  /** What is printed before the entries. */
  function Header(): string {
    "{\n" + LineOf("schema", Render(DStr(SCHEMA), 2), 0, true)
    + LineOf("tolerance_pct", Render(DTenths(TOLERANCE_TENTHS), 2), 0, true)
    + LineOf("metric_help", Render(DStr(METRIC_HELP), 2), 0, true) + "  \"entrypoints\": {\n"
  }

  function TopLines(entries: string): seq<string> {
    [LineOf("schema", Render(DStr(SCHEMA), 2), 0, true),
     LineOf("tolerance_pct", Render(DTenths(TOLERANCE_TENTHS), 2), 0, true),
     LineOf("metric_help", Render(DStr(METRIC_HELP), 2), 0, true), LineOf("entrypoints", entries, 0, false)]
  }

  lemma TopDocIs(costs: map<string, EntryCost>)
    ensures var names := Names(ENTRYPOINTS, costs);
      Render(BaselineDoc(costs), 0) == Block(TopLines(Block(EntryLines(names, costs), 2)), 0)
  {
    var names := Names(ENTRYPOINTS, costs);
    var fields, lines := BaselineDoc(costs).fields, TopLines(Block(EntryLines(names, costs), 2));
    EntriesDocIs(names, costs);
    forall k | 0 <= k < 4 ensures lines[k] == LineOf(fields[k].key, Render(fields[k].value, 2), 0, k + 1 < 4) {
      assert k == 0 || k == 1 || k == 2 || k == 3;
    }
    T.LinesAgree(fields, lines, 0);
  }

  lemma ConcatFour(l: seq<string>)
    requires |l| == 4
    ensures Concat(l, 4) == l[0] + l[1] + l[2] + l[3]
  {
    assert Concat(l, 1) == l[0];
    assert Concat(l, 2) == l[0] + l[1];
    assert Concat(l, 3) == l[0] + l[1] + l[2];
  }

  lemma LastLine(mid: string)
    ensures LineOf("entrypoints", "{\n" + mid + Spaces(2) + "}", 0, false) == "  \"entrypoints\": {\n" + mid + "  }\n"
  {
    assert Spaces(2) == "  ";
    var key := "  \"entrypoints\": ";
    assert Spaces(2) + "\"" + "entrypoints" + "\": " == key;
    assert key + "{\n" == "  \"entrypoints\": {\n";
    assert key + ("{\n" + mid + "  " + "}") + "\n" == (key + "{\n") + mid + "  }\n";
  }

  lemma Frame(a: string, b: string, c: string, d: string, mid: string)
    requires d == "  \"entrypoints\": {\n" + mid + "  }\n"
    ensures ("{\n" + (a + b + c + d) + Spaces(0) + "}") + "\n"
      == ("{\n" + a + b + c + "  \"entrypoints\": {\n") + mid + "  }\n" + "}\n"
  {
    var e := "  \"entrypoints\": {\n";
    assert Spaces(0) == "";
    assert a + b + c + d == (a + b + c + e) + mid + "  }\n";
    assert "{\n" + (a + b + c + e) == "{\n" + a + b + c + e;
  }

  /** The printed document: header, entries, and the two closing braces. */
  lemma DocumentIs(costs: map<string, EntryCost>)
    ensures var lines := EntryLines(Names(ENTRYPOINTS, costs), costs);
      J.ToJson(costs) == Header() + Concat(lines, |lines|) + "  }\n" + "}\n"
  {
    var lines := EntryLines(Names(ENTRYPOINTS, costs), costs);
    var mid := Concat(lines, |lines|);
    var l := TopLines(Block(lines, 2));
    TopDocIs(costs);
    ConcatFour(l);
    LastLine(mid);
    Frame(l[0], l[1], l[2], l[3], mid);
  }

  /** The entries in turn, a comma after all but the last. */
  method PushEntries(s: string, names: seq<string>, costs: map<string, EntryCost>) returns (t: string)
    requires forall n :: n in names ==> n in costs
    ensures t == s + Concat(EntryLines(names, costs), |names|)
  {
    ghost var lines := EntryLines(names, costs);
    t := s;
    for k := 0 to |names|
      invariant t == s + Concat(lines, k)
    {
      assert names[k] in names;
      NextLine(s, lines, k);
      t := PushEntry(t, names[k], costs[names[k]], k + 1 < |names|);
    }
  }

  /** A line of the outermost object. */
  method PushTop(s: string, key: string, value: string) returns (t: string)
    ensures t == s + LineOf(key, value, 0, true)
  {
    t := s + "  \"" + key + "\": " + value + ",\n";
    var line := "  \"" + key + "\": " + value + ",\n";
    assert Spaces(2) + "\"" == "  \"";
    assert LineOf(key, value, 0, true) == line && t == s + line;
  }

  method PushHeader() returns (s: string)
    ensures s == Header()
  {
    s := "{\n";
    s := PushTop(s, "schema", "\"" + SCHEMA + "\"");
    s := PushTop(s, "tolerance_pct", Digits(TOLERANCE_TENTHS / 10) + "." + Digits(TOLERANCE_TENTHS % 10));
    s := PushTop(s, "metric_help", "\"" + METRIC_HELP + "\"");
    s := s + "  \"entrypoints\": {\n";
  }

  /** to_json. */
  method ToJson(costs: map<string, EntryCost>) returns (s: string)
    ensures s == J.ToJson(costs)
  {
    var names := TrackedNames(costs);
    s := PushHeader();
    s := PushEntries(s, names, costs);
    s := s + "  }\n";
    s := s + "}\n";
    DocumentIs(costs);
  }
}
