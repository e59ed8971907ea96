/**
 * The GPU adapter (src/system/gpu.rs): reading the CSV that
 * `nvidia-smi --query-gpu=index,name,utilization.gpu,memory.used,memory.total,temperature.gpu
 * --format=csv,noheader,nounits` prints into one `GpuInfo` per valid record.
 * Running the command is outside the model: its result is a parameter.
 */
module Gpu {
  import opened Wrappers
  import opened Strings
  import opened Numbers
  import opened History

  /** One GPU as the dashboard shows it; `usage` and the memory sizes are floats in Rust. */
  datatype GpuInfo = GpuInfo(
    name: string,
    usage: real,
    memUsedMb: real,
    memTotalMb: real,
    tempC: nat,
    history: seq<nat>)

  /** What running the command gave: its exit status and its standard output. */
  datatype CommandOutput = CommandOutput(success: bool, stdout: string)

  /** A valid record has exactly this many comma-separated fields. */
  const FieldCount: nat := 6

  /** A line is a record when it holds `FieldCount - 1` commas, so that it splits into `FieldCount` fields. */
  predicate IsRecord(line: string) {
    Occurrences(line, ',') == FieldCount - 1
  }

  /**
   * One CSV line: split on `,`, trim every field, skip the line unless it
   * has six fields; the first (index) field is not used, and a numeric
   * field that does not parse reads as zero.
   */
  function ParseRecord(line: string): (r: Option<GpuInfo>)
    ensures r.Some? <==> IsRecord(line)
    ensures r.Some? ==> r.value.history == Zeros(Capacity) && r.value.tempC <= U32Max
  {
    var parts := Split(line, ',');
    SplitCount(line, ',');
    if |parts| != FieldCount then None else Some(RecordOf(parts))
  }

  /** The GPU described by six trimmed-on-use fields. */
  function RecordOf(parts: seq<string>): (g: GpuInfo)
    requires |parts| == FieldCount
    ensures g.history == Zeros(Capacity) && g.tempC <= U32Max
  {
    GpuInfo(
      Trim(parts[1]),
      ParseDecimal(Trim(parts[2])).GetOr(0.0),
      ParseDecimal(Trim(parts[3])).GetOr(0.0),
      ParseDecimal(Trim(parts[4])).GetOr(0.0),
      ParseU32(Trim(parts[5])).GetOr(0),
      Zeros(Capacity))
  }

  /** The GPUs of the valid records among `lines`, in line order. */
  function ValidRecords(lines: seq<string>): seq<GpuInfo> {
    FilterMap(ParseRecord, lines)
  }

  /**
   * The result of `get_gpu_info` for a given command result: `None` when
   * the command could not run, exited with failure, or printed no valid
   * record.
   */
  function GpuInfoOf(output: Option<CommandOutput>): Option<seq<GpuInfo>> {
    if output.None? || !output.value.success then None
    else
      var gpus := ValidRecords(Lines(output.value.stdout));
      if gpus == [] then None else Some(gpus)
  }

  /**
   * `get_gpu_info` once the command has run: `None` when it could not run or
   * failed, otherwise the valid records of its output, `None` if there are none.
   */
  method GetGpuInfo(output: Option<CommandOutput>) returns (r: Option<seq<GpuInfo>>)
    ensures r == GpuInfoOf(output)
  {
    if output.None? {
      return None;
    }
    if !output.value.success {
      return None;
    }
    var gpus := ReadRecords(Lines(output.value.stdout));
    if gpus == [] {
      r := None;
    } else {
      r := Some(gpus);
    }
  }

  /** The `filter_map` over the output lines, as a loop. */
  method ReadRecords(lines: seq<string>) returns (gpus: seq<GpuInfo>)
    ensures gpus == ValidRecords(lines)
  {
    gpus := [];
    for i := 0 to |lines|
      invariant gpus == ValidRecords(lines[..i])
    {
      var gpu := ReadRecord(lines[i]);
      ValidRecordsStep(lines, i);
      if gpu.Some? {
        gpus := gpus + [gpu.value];
      }
    }
    assert lines[..|lines|] == lines;
  }

  /** The closure that turns one line into a `GpuInfo`, or skips it. */
  method ReadRecord(line: string) returns (r: Option<GpuInfo>)
    ensures r == ParseRecord(line)
  {
    var parts := Split(line, ',');
    if |parts| != FieldCount {
      return None;
    }
    var gpu := RecordOf(parts);
    var history := NewHistory();
    r := Some(gpu.(history := history));
  }

  /**
   * No GPU list is reported exactly when the command is missing, failed, or
   * printed no line with six fields; every reported GPU starts with a full
   * history of zeros.
   */
  lemma GpuInfoOfCases(output: Option<CommandOutput>)
    ensures GpuInfoOf(output).None? <==>
              output.None? || !output.value.success
              || forall k :: 0 <= k < |Lines(output.value.stdout)| ==>
                   !IsRecord(Lines(output.value.stdout)[k])
    ensures GpuInfoOf(output).Some? ==>
              forall k :: 0 <= k < |GpuInfoOf(output).value| ==> GpuInfoOf(output).value[k].history == Zeros(Capacity)
  {
    if output.Some? && output.value.success {
      var lines := Lines(output.value.stdout);
      ValidRecordsEmpty(lines);
      ValidRecordsHistories(lines);
    }
  }

  lemma ValidRecordsStep(lines: seq<string>, i: nat)
    requires i < |lines|
    ensures ValidRecords(lines[..i + 1]) == ValidRecords(lines[..i]) + ParseRecord(lines[i]).ToSeq()
  {
    FilterMapStep(ParseRecord, lines, i);
  }

  /** No GPU is read exactly when every line is skipped. */
  lemma ValidRecordsEmpty(lines: seq<string>)
    ensures ValidRecords(lines) == [] <==> forall k :: 0 <= k < |lines| ==> !IsRecord(lines[k])
  {
    FilterMapEmpty(ParseRecord, lines);
  }

  /** Every GPU read starts with a history of `Capacity` zeros. */
  lemma ValidRecordsHistories(lines: seq<string>)
    ensures forall k :: 0 <= k < |ValidRecords(lines)| ==> ValidRecords(lines)[k].history == Zeros(Capacity)
  {
    forall k | 0 <= k < |ValidRecords(lines)| ensures ValidRecords(lines)[k].history == Zeros(Capacity) {
      FilterMapFrom(ParseRecord, lines, k);
    }
  }

  /** Records are read line by line: the GPUs of two runs of lines are concatenated. */
  lemma ValidRecordsAppend(a: seq<string>, b: seq<string>)
    ensures ValidRecords(a + b) == ValidRecords(a) + ValidRecords(b)
  {
    FilterMapAppend(ParseRecord, a, b);
  }

  /**
   * Which field is which: for six comma-free fields the name is the
   * trimmed second field, the numbers come from the third to the sixth
   * field or are zero when they do not parse, and the first field is
   * ignored.
   */
  lemma RecordFields(fields: seq<string>)
    requires |fields| == FieldCount
    requires forall k :: 0 <= k < |fields| ==> ',' !in fields[k]
    ensures ParseRecord(Join(fields, ',')) == Some(GpuInfo(
              Trim(fields[1]),
              ParseDecimal(Trim(fields[2])).GetOr(0.0),
              ParseDecimal(Trim(fields[3])).GetOr(0.0),
              ParseDecimal(Trim(fields[4])).GetOr(0.0),
              ParseU32(Trim(fields[5])).GetOr(0),
              Zeros(Capacity)))
  {
    SplitJoin(fields, ',');
  }

  /** A field whose first character cannot start a numeral, such as `[N/A]`. */
  predicate NotNumeral(field: string) {
    field != [] && !IsDigit(field[0]) && field[0] !in ".+-"
  }

  /** Numeric fields that are not numerals read as zero; the record is still kept. */
  lemma UnparsableFieldsReadZero(fields: seq<string>)
    requires |fields| == FieldCount
    requires forall k :: 0 <= k < |fields| ==> ',' !in fields[k]
    requires forall k :: 2 <= k < FieldCount ==> NotNumeral(Trim(fields[k]))
    ensures ParseRecord(Join(fields, ',')) == Some(GpuInfo(Trim(fields[1]), 0.0, 0.0, 0.0, 0, Zeros(Capacity)))
  {
    RecordFields(fields);
    NotNumeralReadsZero(Trim(fields[2]));
    NotNumeralReadsZero(Trim(fields[3]));
    NotNumeralReadsZero(Trim(fields[4]));
    NotNumeralReadsZero(Trim(fields[5]));
  }

  lemma NotNumeralReadsZero(field: string)
    requires NotNumeral(field)
    ensures ParseDecimal(field).GetOr(0.0) == 0.0 && ParseU32(field).GetOr(0) == 0
  {
    ParseDecimalRejects(field);
    ParseU32RejectsNonDigit(field, 0);
  }

  /** A record for GPU 0 named `name` whose four readings all print as `na`. */
  function PlaceholderFields(name: string, na: string): seq<string> {
    ["0", " " + name, " " + na, " " + na, " " + na, " " + na]
  }

  lemma PlaceholderCommaFree(name: string, na: string)
    requires ',' !in name && ',' !in na
    ensures var fields := PlaceholderFields(name, na);
            |fields| == FieldCount && forall k :: 0 <= k < |fields| ==> ',' !in fields[k]
  {
    var fields := PlaceholderFields(name, na);
    forall k | 0 <= k < |fields| ensures ',' !in fields[k] {
      if k == 0 {
        assert fields[k] == "0";
      } else if k == 1 {
        assert fields[k] == " " + name;
      } else {
        assert fields[k] == " " + na;
      }
    }
  }

  lemma PlaceholderName(name: string, na: string)
    requires IsTrimmed(name)
    ensures Trim(PlaceholderFields(name, na)[1]) == name
  {
    PaddedName(name);
    assert PlaceholderFields(name, na)[1] == " " + name;
  }

  lemma PlaceholderNotNumeral(name: string, na: string)
    requires IsTrimmed(na) && NotNumeral(na)
    ensures forall k :: 2 <= k < FieldCount ==> NotNumeral(Trim(PlaceholderFields(name, na)[k]))
  {
    PaddedName(na);
    var fields := PlaceholderFields(name, na);
    forall k | 2 <= k < FieldCount ensures NotNumeral(Trim(fields[k])) {
      assert fields[k] == " " + na;
    }
  }

  /** A GPU whose readings are all a placeholder is listed with usage, memory and temperature zero. */
  lemma PlaceholderReadsZero(name: string, na: string)
    requires IsTrimmed(name) && ',' !in name
    requires IsTrimmed(na) && ',' !in na && NotNumeral(na)
    ensures ParseRecord(Join(PlaceholderFields(name, na), ','))
         == Some(GpuInfo(name, 0.0, 0.0, 0.0, 0, Zeros(Capacity)))
  {
    PlaceholderCommaFree(name, na);
    PlaceholderName(name, na);
    PlaceholderNotNumeral(name, na);
    UnparsableFieldsReadZero(PlaceholderFields(name, na));
  }

  /** The placeholders `nvidia-smi` prints for a reading it cannot take, `[N/A]` and `[Not Supported]`, read as zero. */
  lemma NotAvailableReadsZero(name: string)
    requires IsTrimmed(name) && ',' !in name
    ensures ParseRecord(Join(PlaceholderFields(name, "[N/A]"), ','))
         == Some(GpuInfo(name, 0.0, 0.0, 0.0, 0, Zeros(Capacity)))
    ensures ParseRecord(Join(PlaceholderFields(name, "[Not Supported]"), ','))
         == Some(GpuInfo(name, 0.0, 0.0, 0.0, 0, Zeros(Capacity)))
  {
    Placeholders();
    PlaceholderReadsZero(name, "[N/A]");
    PlaceholderReadsZero(name, "[Not Supported]");
  }

  lemma Placeholders()
    ensures IsTrimmed("[N/A]") && ',' !in "[N/A]" && NotNumeral("[N/A]")
    ensures IsTrimmed("[Not Supported]") && ',' !in "[Not Supported]" && NotNumeral("[Not Supported]")
  {
  }

  /** What the driver reports about one GPU, in the integer units `nounits` prints. */
  datatype GpuReading = GpuReading(index: nat, name: string, utilization: nat, memUsed: nat, memTotal: nat, temperature: nat)

  predicate Printable(g: GpuReading) {
    ',' !in g.name && '\n' !in g.name && IsTrimmed(g.name) && g.temperature <= U32Max
  }

  /** The fields of one record: `index, name, utilization, used, total, temperature`. */
  function RecordFieldsOf(g: GpuReading): seq<string> {
    [NatToString(g.index), " " + g.name, " " + NatToString(g.utilization),
     " " + NatToString(g.memUsed), " " + NatToString(g.memTotal), " " + NatToString(g.temperature)]
  }

  /** The line `nvidia-smi` prints for one GPU. */
  function FormatRecord(g: GpuReading): string {
    Join(RecordFieldsOf(g), ',')
  }

  /** The `GpuInfo` a reading should produce. */
  function Expected(g: GpuReading): GpuInfo {
    GpuInfo(g.name, g.utilization as real, g.memUsed as real, g.memTotal as real, g.temperature, Zeros(Capacity))
  }

  /** A numeral holds no comma and no newline, with or without the space printed before it. */
  lemma NumeralFree(n: nat)
    ensures ',' !in NatToString(n) && '\n' !in NatToString(n)
    ensures ',' !in " " + NatToString(n) && '\n' !in " " + NatToString(n)
  {
    DigitsExclude(NatToString(n), ',');
    DigitsExclude(NatToString(n), '\n');
  }

  /** No field of a printed record holds a comma or a newline. */
  lemma FieldsFree(g: GpuReading)
    requires Printable(g)
    ensures forall k :: 0 <= k < |RecordFieldsOf(g)| ==> ',' !in RecordFieldsOf(g)[k] && '\n' !in RecordFieldsOf(g)[k]
  {
    NumeralFree(g.index);
    NumeralFree(g.utilization);
    NumeralFree(g.memUsed);
    NumeralFree(g.memTotal);
    NumeralFree(g.temperature);
    assert ',' !in " " + g.name && '\n' !in " " + g.name;
  }

  /** A space-padded digit string trims to the digits and parses to their value. */
  lemma PaddedNumeral(s: string)
    requires s != [] && AllDigits(s)
    ensures Trim(" " + s) == s
    ensures ParseDecimal(Trim(" " + s)) == Some(DigitsValue(s) as real)
  {
    assert IsDigit(s[0]) && IsDigit(s[|s| - 1]);
    TrimPadded(" ", s, []);
    assert " " + s + [] == " " + s;
    ParseDecimalOfDigits(s);
  }

  /** Fields printed as `index, name, numerals...` read back as those values. */
  lemma NumeralFieldsRead(index: string, name: string, u: string, used: string, total: string, t: string)
    requires IsTrimmed(name)
    requires u != [] && AllDigits(u) && used != [] && AllDigits(used)
    requires total != [] && AllDigits(total) && t != [] && AllDigits(t) && DigitsValue(t) <= U32Max
    ensures RecordOf([index, " " + name, " " + u, " " + used, " " + total, " " + t])
         == GpuInfo(name, DigitsValue(u) as real, DigitsValue(used) as real, DigitsValue(total) as real,
                    DigitsValue(t), Zeros(Capacity))
  {
    RecordOfPadded(index, name, u, used, total, t);
    PaddedName(name);
    PaddedDecimal(u);
    PaddedDecimal(used);
    PaddedDecimal(total);
    PaddedU32(t);
  }

  lemma PaddedName(name: string)
    requires IsTrimmed(name)
    ensures Trim(" " + name) == name
  {
    TrimPadded(" ", name, []);
    assert " " + name + [] == " " + name;
  }

  lemma PaddedDecimal(s: string)
    requires s != [] && AllDigits(s)
    ensures ParseDecimal(Trim(" " + s)).GetOr(0.0) == DigitsValue(s) as real
  {
    PaddedNumeral(s);
  }

  lemma PaddedU32(s: string)
    requires s != [] && AllDigits(s) && DigitsValue(s) <= U32Max
    ensures ParseU32(Trim(" " + s)).GetOr(0) == DigitsValue(s)
  {
    PaddedNumeral(s);
    ParseU32OfDigits(s);
  }

  lemma RecordOfPadded(index: string, name: string, u: string, used: string, total: string, t: string)
    ensures RecordOf([index, " " + name, " " + u, " " + used, " " + total, " " + t])
         == GpuInfo(Trim(" " + name), ParseDecimal(Trim(" " + u)).GetOr(0.0),
                    ParseDecimal(Trim(" " + used)).GetOr(0.0), ParseDecimal(Trim(" " + total)).GetOr(0.0),
                    ParseU32(Trim(" " + t)).GetOr(0), Zeros(Capacity))
  {
    var parts := [index, " " + name, " " + u, " " + used, " " + total, " " + t];
    assert parts[1] == " " + name && parts[2] == " " + u && parts[3] == " " + used;
    assert parts[4] == " " + total && parts[5] == " " + t;
  }

  /** The fields of a printed record read back as the reading's values. */
  lemma FieldsRead(g: GpuReading)
    requires Printable(g)
    ensures RecordOf(RecordFieldsOf(g)) == Expected(g)
  {
    NatToStringValue(g.utilization);
    NatToStringValue(g.memUsed);
    NatToStringValue(g.memTotal);
    NatToStringValue(g.temperature);
    NumeralFieldsRead(NatToString(g.index), g.name, NatToString(g.utilization), NatToString(g.memUsed),
                      NatToString(g.memTotal), NatToString(g.temperature));
  }

  /** A printed record reads back as the GPU it describes. */
  lemma ParseFormatRecord(g: GpuReading)
    requires Printable(g)
    ensures ParseRecord(FormatRecord(g)) == Some(Expected(g))
  {
    FieldsFree(g);
    SplitJoin(RecordFieldsOf(g), ',');
    FieldsRead(g);
  }

  function FormatRecords(gs: seq<GpuReading>): (lines: seq<string>)
    ensures |lines| == |gs|
  {
    if gs == [] then [] else FormatRecords(gs[..|gs| - 1]) + [FormatRecord(gs[|gs| - 1])]
  }

  function ExpectedAll(gs: seq<GpuReading>): (infos: seq<GpuInfo>)
    ensures |infos| == |gs|
  {
    if gs == [] then [] else ExpectedAll(gs[..|gs| - 1]) + [Expected(gs[|gs| - 1])]
  }

  lemma {:induction false} NoNewlineInJoin(parts: seq<string>, sep: char)
    requires |parts| >= 1 && sep != '\n'
    requires forall k :: 0 <= k < |parts| ==> '\n' !in parts[k]
    ensures '\n' !in Join(parts, sep)
    decreases |parts|
  {
    if |parts| > 1 {
      NoNewlineInJoin(parts[1..], sep);
    }
  }

  /** A line `lines()` gives back unchanged: no newline, no final carriage return. */
  predicate PlainLine(line: string) {
    '\n' !in line && (line == [] || line[|line| - 1] != '\r')
  }

  lemma {:induction false} ValidFormatted(gs: seq<GpuReading>)
    requires forall k :: 0 <= k < |gs| ==> Printable(gs[k])
    ensures ValidRecords(FormatRecords(gs)) == ExpectedAll(gs)
    ensures forall k :: 0 <= k < |gs| ==> PlainLine(FormatRecords(gs)[k])
  {
    if gs != [] {
      var init := gs[..|gs| - 1];
      var g := gs[|gs| - 1];
      ValidFormatted(init);
      var lines := FormatRecords(gs);
      var line := FormatRecord(g);
      assert lines == FormatRecords(init) + [line];
      assert ValidRecords(lines) == ExpectedAll(gs) by {
        assert lines[..|lines| - 1] == FormatRecords(init);
        ParseFormatRecord(g);
      }
      assert PlainLine(line) by {
        FieldsFree(g);
        NoNewlineInJoin(RecordFieldsOf(g), ',');
        FormatEndsInDigit(g);
      }
      forall k | 0 <= k < |gs| ensures PlainLine(lines[k]) {
        if k < |gs| - 1 {
          assert lines[k] == FormatRecords(init)[k];
        }
      }
    }
  }

  lemma {:induction false} JoinEndsWithLast(parts: seq<string>, sep: char)
    requires |parts| >= 1
    ensures var j := Join(parts, sep); var last := parts[|parts| - 1];
            |last| <= |j| && j[|j| - |last|..] == last
    decreases |parts|
  {
    if |parts| > 1 {
      JoinEndsWithLast(parts[1..], sep);
    }
  }

  /** A printed record ends in the last digit of the temperature. */
  lemma FormatEndsInDigit(g: GpuReading)
    ensures var line := FormatRecord(g); line != [] && IsDigit(line[|line| - 1])
  {
    var f := RecordFieldsOf(g);
    var t := NatToString(g.temperature);
    JoinEndsWithLast(f, ',');
    var line := Join(f, ',');
    assert line[|line| - |f[5]|..] == " " + t;
    assert line[|line| - 1] == (" " + t)[|t|];
  }

  /**
   * End to end: the output of a successful run that lists at least one GPU,
   * one record per line, is read as exactly those GPUs in that order.
   */
  lemma GpuInfoOfReport(gs: seq<GpuReading>)
    requires gs != []
    requires forall k :: 0 <= k < |gs| ==> Printable(gs[k])
    ensures GpuInfoOf(Some(CommandOutput(true, Terminated(FormatRecords(gs))))) == Some(ExpectedAll(gs))
  {
    ValidFormatted(gs);
    var lines := FormatRecords(gs);
    assert forall k :: 0 <= k < |lines| ==> PlainLine(lines[k]);
    LinesTerminated(lines);
  }
}
