/**
  The `/proc/stat` reader of the CPU collector: every line that begins with
  `cpu` becomes one entry of a map from CPU label to a partial record of up
  to ten positional counters (the tokens are kept as text; they are
  converted to numbers when the metrics are built).
 */
module CpuStat {
  import opened PyStrings

  /** The ten positional counters of a `cpu` line, in file order. */
  datatype Field = User | Nice | System | Idle | Iowait | Irq | Softirq | Steal | Guest | GuestNice

  const FIELDS: seq<Field> := [User, Nice, System, Idle, Iowait, Irq, Softirq, Steal, Guest, GuestNice]

  lemma FieldsListed()
    ensures forall f: Field :: f in FIELDS
  {
    forall f: Field
      ensures f in FIELDS
    {
      match f
      case User =>
      case Nice =>
      case System =>
      case Idle =>
      case Iowait =>
      case Irq =>
      case Softirq =>
      case Steal =>
      case Guest =>
      case GuestNice =>
    }
  }

  /** Where a field stands among the tokens after the label. */
  function Position(f: Field): nat {
    match f
    case User => 0
    case Nice => 1
    case System => 2
    case Idle => 3
    case Iowait => 4
    case Irq => 5
    case Softirq => 6
    case Steal => 7
    case Guest => 8
    case GuestNice => 9
  }

  /** The key under which the collector stores a field, and the last part of its metric name. */
  function Name(f: Field): string {
    match f
    case User => "user"
    case Nice => "nice"
    case System => "system"
    case Idle => "idle"
    case Iowait => "iowait"
    case Irq => "irq"
    case Softirq => "softirq"
    case Steal => "steal"
    case Guest => "guest"
    case GuestNice => "guest_nice"
  }

  /** The counters read for one CPU label; a field the line does not reach is absent. */
  type Record = map<Field, string>

  /** `line.startswith('cpu')` */
  predicate IsCpuLine(line: string) {
    "cpu" <= line
  }

  /** The aggregate line `cpu` is stored as `total`; every other label as it is. */
  function LabelOf(token: string): string {
    if token == "cpu" then "total" else token
  }

  /** The record after the first `k` guarded field assignments of the reading loop. */
  function FirstFields(elements: seq<string>, k: nat): Record
    requires k <= |FIELDS|
  {
    if k == 0 then map[]
    else if k < |elements| then FirstFields(elements, k - 1)[FIELDS[k - 1] := elements[k]]
    else FirstFields(elements, k - 1)
  }

  /** The record built from the split line, after all ten assignments (see `RecordOfIs`). */
  function RecordOf(elements: seq<string>): Record {
    FirstFields(elements, |FIELDS|)
  }

  lemma CpuLineSplits(line: string)
    requires IsCpuLine(line)
    ensures Split(line) != [] && "cpu" <= Split(line)[0]
  {
    assert line[0] == 'c' && line[1] == 'p' && line[2] == 'u';
    assert line[1..][0] == 'p' && line[2..][0] == 'u';
    assert Word(line) == [line[0]] + Word(line[1..]);
    assert Word(line[1..]) == [line[1]] + Word(line[2..]);
    assert Word(line[2..]) == [line[2]] + Word(line[3..]);
  }

  /** The label of a line: its first token, renamed by `LabelOf` (a `cpu` line always has one, see `CpuLineSplits`). */
  function LineLabel(line: string): string {
    var elements := Split(line);
    if elements == [] then "" else LabelOf(elements[0])
  }

  /** The record of a `cpu` line. */
  function LineRecord(line: string): Record {
    RecordOf(Split(line))
  }

  /** One pass of the reading loop: a `cpu` line (re)sets the entry of its label, any other line is skipped. */
  function AfterLine(results: map<string, Record>, line: string): map<string, Record> {
    if IsCpuLine(line) then results[LineLabel(line) := LineRecord(line)] else results
  }

  /** The map the reading loop leaves behind after `lines`. */
  function Parse(lines: seq<string>): map<string, Record> {
    if lines == [] then map[]
    else AfterLine(Parse(lines[..|lines| - 1]), lines[|lines| - 1])
  }

  lemma {:induction false} FirstFieldsAre(elements: seq<string>, k: nat)
    requires k <= |FIELDS|
    ensures FirstFields(elements, k) ==
      map f | f in FIELDS && Position(f) < k && Position(f) + 1 < |elements| :: elements[Position(f) + 1]
  {
    if k > 0 {
      FirstFieldsAre(elements, k - 1);
      assert Position(FIELDS[k - 1]) == k - 1;
      forall f | f in FIELDS && Position(f) == k - 1
        ensures f == FIELDS[k - 1]
      {
      }
    }
  }

  /** Field number i of the record holds token i + 1 of the split line, when the line has it. */
  lemma RecordOfIs(elements: seq<string>)
    ensures RecordOf(elements) == map f | f in FIELDS && Position(f) + 1 < |elements| :: elements[Position(f) + 1]
  {
    FirstFieldsAre(elements, |FIELDS|);
  }

  /** The ten field assignments of the reading loop, one per available token. */
  method ReadFields(elements: seq<string>) returns (record: Record)
    ensures record == RecordOf(elements)
  {
    record := map[];
    assert record == FirstFields(elements, 0);
    if |elements| >= 2 {
      record := record[User := elements[1]];
    }
    assert record == FirstFields(elements, 1);
    if |elements| >= 3 {
      record := record[Nice := elements[2]];
    }
    assert record == FirstFields(elements, 2);
    if |elements| >= 4 {
      record := record[System := elements[3]];
    }
    assert record == FirstFields(elements, 3);
    if |elements| >= 5 {
      record := record[Idle := elements[4]];
    }
    assert record == FirstFields(elements, 4);
    if |elements| >= 6 {
      record := record[Iowait := elements[5]];
    }
    assert record == FirstFields(elements, 5);
    if |elements| >= 7 {
      record := record[Irq := elements[6]];
    }
    assert record == FirstFields(elements, 6);
    if |elements| >= 8 {
      record := record[Softirq := elements[7]];
    }
    assert record == FirstFields(elements, 7);
    if |elements| >= 9 {
      record := record[Steal := elements[8]];
    }
    assert record == FirstFields(elements, 8);
    if |elements| >= 10 {
      record := record[Guest := elements[9]];
    }
    assert record == FirstFields(elements, 9);
    if |elements| >= 11 {
      record := record[GuestNice := elements[10]];
    }
  }

  /** The body of the reading loop, for one line. */
  method ReadLine(results: map<string, Record>, line: string) returns (updated: map<string, Record>)
    ensures updated == AfterLine(results, line)
  {
    if "cpu" <= line {
      assert line[0] == 'c';
      var elements := Split(line);
      var cpu := elements[0];
      if cpu == "cpu" {
        cpu := "total";
      }
      var record := ReadFields(elements);
      updated := results[cpu := record];
    } else {
      updated := results;
    }
  }

  /** The reading loop over the lines of `/proc/stat`. */
  method ReadStat(lines: seq<string>) returns (results: map<string, Record>)
    ensures results == Parse(lines)
  {
    results := map[];
    for i := 0 to |lines|
      invariant results == Parse(lines[..i])
    {
      assert lines[..i + 1][..i] == lines[..i];
      results := ReadLine(results, lines[i]);
    }
    assert lines[..|lines|] == lines;
  }

  // ----- What the reader promises -----

  /** Field number i is present exactly when the line has a token i + 1, and then it holds that token. */
  lemma RecordField(elements: seq<string>, i: nat)
    requires i < |FIELDS|
    ensures FIELDS[i] in RecordOf(elements) <==> i + 1 < |elements|
    ensures i + 1 < |elements| ==> RecordOf(elements)[FIELDS[i]] == elements[i + 1]
  {
    RecordOfIs(elements);
    assert Position(FIELDS[i]) == i;
  }

  /** Every field the record holds is one of the ten, at its own position. */
  lemma RecordKeys(elements: seq<string>, f: Field)
    ensures f in RecordOf(elements) <==> Position(f) + 1 < |elements|
  {
    RecordOfIs(elements);
    assert f in FIELDS;
  }

  /** A line that holds only its label yields an empty record. */
  lemma RecordOfLabelOnly(token: string)
    ensures RecordOf([token]) == map[]
  {
    RecordOfIs([token]);
    assert forall f :: f !in RecordOf([token]);
  }

  /** Tokens past the tenth field are never stored. */
  lemma RecordIgnoresExtraTokens(elements: seq<string>)
    requires |elements| > 11
    ensures RecordOf(elements) == RecordOf(elements[..11])
  {
    RecordOfIs(elements);
    RecordOfIs(elements[..11]);
    forall f | f in FIELDS
      ensures Position(f) + 1 < 11
    {
    }
  }

  /** The first token of a `cpu` line, normalised: `cpu` becomes `total`, anything else is kept verbatim. */
  lemma LineLabelIs(line: string)
    requires IsCpuLine(line)
    ensures Split(line) != [] && "cpu" <= Split(line)[0]
    ensures LineLabel(line) == "total" <==> Split(line)[0] == "cpu"
    ensures Split(line)[0] != "cpu" ==> LineLabel(line) == Split(line)[0]
  {
    CpuLineSplits(line);
    var t := Split(line)[0];
    assert t[0] == 'c';
    assert "total"[0] == 't';
  }

  /** A label is in the result exactly when some `cpu` line carries it. */
  lemma {:induction false} ParseDomain(lines: seq<string>, cpu: string)
    ensures cpu in Parse(lines) <==>
      exists i :: 0 <= i < |lines| && IsCpuLine(lines[i]) && LineLabel(lines[i]) == cpu
  {
    if lines != [] {
      var n := |lines| - 1;
      var earlier := lines[..n];
      assert Parse(lines) == AfterLine(Parse(earlier), lines[n]);
      ParseDomain(earlier, cpu);
      if cpu in Parse(earlier) {
        var i :| 0 <= i < |earlier| && IsCpuLine(earlier[i]) && LineLabel(earlier[i]) == cpu;
        assert lines[i] == earlier[i];
      }
      if i :| 0 <= i < |lines| && IsCpuLine(lines[i]) && LineLabel(lines[i]) == cpu {
        if i < n {
          assert earlier[i] == lines[i];
        }
      }
    }
  }

  /**
    The entry of a label is the record of the LAST `cpu` line with that label:
    an earlier line with the same label leaves no field behind.
   */
  lemma {:induction false} ParseLastWins(lines: seq<string>, i: nat)
    requires i < |lines| && IsCpuLine(lines[i])
    requires forall j :: i < j < |lines| && IsCpuLine(lines[j]) ==> LineLabel(lines[j]) != LineLabel(lines[i])
    ensures LineLabel(lines[i]) in Parse(lines)
    ensures Parse(lines)[LineLabel(lines[i])] == LineRecord(lines[i])
  {
    var n := |lines| - 1;
    var earlier := lines[..n];
    assert Parse(lines) == AfterLine(Parse(earlier), lines[n]);
    if i < n {
      assert earlier[i] == lines[i];
      forall j | i < j < |earlier| && IsCpuLine(earlier[j])
        ensures LineLabel(earlier[j]) != LineLabel(earlier[i])
      {
        assert earlier[j] == lines[j];
      }
      ParseLastWins(earlier, i);
      if IsCpuLine(lines[n]) {
        assert LineLabel(lines[n]) != LineLabel(lines[i]);
      }
    }
  }

  /** A line that does not begin with `cpu` leaves the result unchanged, wherever it stands. */
  lemma {:induction false} ParseSkipsOtherLines(before: seq<string>, line: string, after: seq<string>)
    requires !IsCpuLine(line)
    ensures Parse(before + [line] + after) == Parse(before + after)
    decreases |after|
  {
    if after == [] {
      assert (before + [line] + after)[..|before|] == before;
      assert before + after == before;
    } else {
      var n := |after| - 1;
      var with := before + [line] + after;
      var without := before + after;
      assert with[..|with| - 1] == before + [line] + after[..n];
      assert without[..|without| - 1] == before + after[..n];
      assert with[|with| - 1] == after[n] == without[|without| - 1];
      ParseSkipsOtherLines(before, line, after[..n]);
    }
  }

  lemma RecordOfFive(a: string, b: string, c: string, d: string, e: string)
    ensures RecordOf([a, b, c, d, e]) == map[User := b, Nice := c, System := d, Idle := e]
  {
    var elements := [a, b, c, d, e];
    assert FirstFields(elements, 1) == map[User := b];
    assert FirstFields(elements, 2) == map[User := b, Nice := c];
    assert FirstFields(elements, 3) == map[User := b, Nice := c, System := d];
    assert FirstFields(elements, 4) == map[User := b, Nice := c, System := d, Idle := e];
    assert FirstFields(elements, 10) == FirstFields(elements, 9) == FirstFields(elements, 8);
    assert FirstFields(elements, 8) == FirstFields(elements, 7) == FirstFields(elements, 6);
    assert FirstFields(elements, 6) == FirstFields(elements, 5) == FirstFields(elements, 4);
  }

  lemma RecordOfTwo(a: string, b: string)
    ensures RecordOf([a, b]) == map[User := b]
  {
    var elements := [a, b];
    assert FirstFields(elements, 1) == map[User := b];
    assert FirstFields(elements, 10) == FirstFields(elements, 9) == FirstFields(elements, 8) == FirstFields(elements, 7);
    assert FirstFields(elements, 7) == FirstFields(elements, 6) == FirstFields(elements, 5) == FirstFields(elements, 4);
    assert FirstFields(elements, 4) == FirstFields(elements, 3) == FirstFields(elements, 2) == FirstFields(elements, 1);
  }

  /** A `cpu` line with one counter, whatever its text, gives a `total` record holding only `user`. */
  lemma UserOnlyLine(user: string)
    requires user != [] && NoSpace(user)
    ensures Parse([Line(["cpu", user])]) == map["total" := map[User := user]]
  {
    var tokens := ["cpu", user];
    var line := Line(tokens);
    forall t | t in tokens
      ensures t != [] && NoSpace(t)
    {
    }
    SplitLine(tokens);
    RecordOfTwo("cpu", user);
    assert line == "cpu" + [' '] + Line(tokens[1..]);
    assert line[..3] == "cpu";
    var lines: seq<string> := [line];
    assert lines[..0] == [];
    assert Parse(lines) == map[][LineLabel(line) := LineRecord(line)];
  }

  /**
    A `cpu` line written as the kernel writes it (the label, then four
    counters, each after one blank, then a newline) parses back to the
    `total` label and a record of the first four fields.
   */
  lemma AggregateLine(user: string, nice: string, system: string, idle: string)
    requires IsDigits(user) && IsDigits(nice) && IsDigits(system) && IsDigits(idle)
    ensures IsCpuLine(Line(["cpu", user, nice, system, idle]))
    ensures LineLabel(Line(["cpu", user, nice, system, idle])) == "total"
    ensures LineRecord(Line(["cpu", user, nice, system, idle])) == map[User := user, Nice := nice, System := system, Idle := idle]
  {
    var tokens := ["cpu", user, nice, system, idle];
    var line := Line(tokens);
    forall t | t in tokens
      ensures t != [] && NoSpace(t)
    {
    }
    SplitLine(tokens);
    RecordOfFive("cpu", user, nice, system, idle);
    assert line == "cpu" + [' '] + Line(tokens[1..]);
    assert line[..3] == "cpu";
  }

  /** An aggregate line, after a line that is not about CPUs, yields a map holding only the `total` record. */
  lemma AggregateLineExample(other: string, user: string, nice: string, system: string, idle: string)
    requires !IsCpuLine(other)
    requires IsDigits(user) && IsDigits(nice) && IsDigits(system) && IsDigits(idle)
    ensures Parse([other, Line(["cpu", user, nice, system, idle])]) ==
      map["total" := map[User := user, Nice := nice, System := system, Idle := idle]]
  {
    AggregateLine(user, nice, system, idle);
    var line := Line(["cpu", user, nice, system, idle]);
    var lines := [other, line];
    assert lines[..1] == [other];
    assert [other][..0] == [];
    assert Parse([other]) == map[];
    assert Parse(lines) == map[][LineLabel(line) := LineRecord(line)];
  }
}
