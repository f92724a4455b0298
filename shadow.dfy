/** The shadow-copy space check (`win_vss`): pick the used and maximum
    shadow storage sizes out of the storage listing, print them, and warn
    when the used size is more than a tenth of the maximum, understanding
    only sizes given in GB or TB. */
module ShadowStorage {
  import opened Wrappers
  import opened Text
  import opened BlockParser

  const UsedPhrase := "Used Shadow Copy Storage space"
  const MaxPhrase := "Maximum Shadow Copy Storage space"

  const ListFailed := "Failed to list shadow storage – run as Administrator."
  const UsedLabel := "Used Storage:"
  const MaxLabel := "Max Storage:"
  const NotAvailable := "N/A"
  const OverWarning := "Warning: Shadow copy storage exceeds 10% of maximum size"
  const CannotCalculate := "(Could not calculate usage percentage)"

  /** A line giving the used size. */
  predicate IsUsedLine(line: string) {
    Contains(line, UsedPhrase)
  }

  /** A line giving the maximum size; a line that names both sizes counts
      as the used one, the first test the loop makes. */
  predicate IsMaxLine(line: string) {
    !IsUsedLine(line) && Contains(line, MaxPhrase)
  }

  /** A size line without a colon: taking the text after the colon fails on
      it, and nothing catches that failure. */
  predicate LacksValue(line: string) {
    (IsUsedLine(line) || IsMaxLine(line)) && ':' !in line
  }

  /** `line.split(":", 1)[1].strip()`: the stripped text after the first
      colon, which is the value half of `BlockParser.Field`. */
  function ValueOf(line: string): string
    requires ':' in line
  {
    Field(line).value.1
  }

  /** What one line tells the scan: a used or maximum size, with its value
      or `None` when the line has no colon, or nothing. */
  datatype Kind = UsedSize(value: Option<string>) | MaxSize(value: Option<string>) | Unrelated

  predicate Broken(kind: Kind) {
    !kind.Unrelated? && kind.value.None?
  }

  function Classify(line: string): (kind: Kind)
    ensures kind.UsedSize? <==> IsUsedLine(line)
    ensures kind.MaxSize? <==> IsMaxLine(line)
    ensures Broken(kind) <==> LacksValue(line)
    ensures !kind.Unrelated? && kind.value.Some? ==> ':' in line && kind.value.value == ValueOf(line)
  {
    var value := if ':' in line then Some(ValueOf(line)) else None;
    if IsUsedLine(line) then UsedSize(value)
    else if IsMaxLine(line) then MaxSize(value)
    else Unrelated
  }

  /** The result of the scan: the last used and maximum sizes seen, or the
      index of the size line without a colon at which the scan stops. */
  datatype Scan = Scanned(used: Option<string>, maximum: Option<string>) | NoValue(line: nat)

  /** The scan over the lines, defined from the last line back, for any
      classification of lines; the lemmas about it hold whatever the
      classification. */
  function ScanWith(lines: seq<string>, classify: string -> Kind): (r: Scan)
    ensures r.NoValue? ==> r.line < |lines|
  {
    if lines == [] then Scanned(None, None)
    else
      var n := |lines| - 1;
      var prev := ScanWith(lines[..n], classify);
      var kind := classify(lines[n]);
      if prev.NoValue? then prev
      else if Broken(kind) then NoValue(n)
      else if kind.UsedSize? then Scanned(kind.value, prev.maximum)
      else if kind.MaxSize? then Scanned(prev.used, kind.value)
      else prev
  }

  function ScanLines(lines: seq<string>): Scan {
    ScanWith(lines, Classify)
  }

  /** Once the scan has stopped, later lines change nothing. */
  lemma {:induction false} NoValueSticks(lines: seq<string>, k: nat, classify: string -> Kind)
    requires k <= |lines| && ScanWith(lines[..k], classify).NoValue?
    ensures ScanWith(lines, classify) == ScanWith(lines[..k], classify)
    decreases |lines| - k
  {
    if k < |lines| {
      var n := |lines| - 1;
      assert lines[..n][..k] == lines[..k];
      NoValueSticks(lines[..n], k, classify);
    } else {
      assert lines[..k] == lines;
    }
  }

  /** One more line, as `ScanWith` reads it. */
  lemma ScanStep(lines: seq<string>, i: nat, classify: string -> Kind)
    requires i < |lines|
    ensures ScanWith(lines[..i + 1], classify) ==
              var prev := ScanWith(lines[..i], classify);
              var kind := classify(lines[i]);
              if prev.NoValue? then prev
              else if Broken(kind) then NoValue(i)
              else if kind.UsedSize? then Scanned(kind.value, prev.maximum)
              else if kind.MaxSize? then Scanned(prev.used, kind.value)
              else prev
  {
    assert lines[..i + 1][..i] == lines[..i];
  }

  /** The loop of `win_vss`: it keeps the value of the latest used and
      maximum size lines and fails at the first size line without a
      colon. */
  method ScanShadowStorage(lines: seq<string>) returns (r: Scan)
    ensures r == ScanLines(lines)
  {
    var current: Option<string> := None;
    var maxSize: Option<string> := None;
    var i := 0;
    while i < |lines|
      invariant 0 <= i <= |lines|
      invariant ScanLines(lines[..i]) == Scanned(current, maxSize)
    {
      var line := lines[i];
      ScanStep(lines, i, Classify);
      if Contains(line, UsedPhrase) {
        if ':' !in line {
          NoValueSticks(lines, i + 1, Classify);
          return NoValue(i);
        }
        current := Some(ValueOf(line));
      } else if Contains(line, MaxPhrase) {
        if ':' !in line {
          NoValueSticks(lines, i + 1, Classify);
          return NoValue(i);
        }
        maxSize := Some(ValueOf(line));
      }
      i := i + 1;
    }
    assert lines[..i] == lines;
    r := Scanned(current, maxSize);
  }

  lemma {:induction false} StopsAtFirstWith(lines: seq<string>, classify: string -> Kind)
    ensures ScanWith(lines, classify).NoValue? <==> exists k :: 0 <= k < |lines| && Broken(classify(lines[k]))
    ensures ScanWith(lines, classify).NoValue? ==>
              var k := ScanWith(lines, classify).line;
              Broken(classify(lines[k])) && forall j :: 0 <= j < k ==> !Broken(classify(lines[j]))
  {
    if lines != [] {
      var n := |lines| - 1;
      var front := lines[..n];
      StopsAtFirstWith(front, classify);
      assert forall j :: 0 <= j < n ==> front[j] == lines[j];
    }
  }

  /** The scan stops exactly when some size line lacks a colon, and it
      stops at the first such line. */
  lemma ScanStopsAtFirst(lines: seq<string>)
    ensures ScanLines(lines).NoValue? <==> exists k :: 0 <= k < |lines| && LacksValue(lines[k])
    ensures ScanLines(lines).NoValue? ==>
              var k := ScanLines(lines).line;
              LacksValue(lines[k]) && forall j :: 0 <= j < k ==> !LacksValue(lines[j])
  {
    StopsAtFirstWith(lines, Classify);
    assert forall j :: 0 <= j < |lines| ==> (Broken(Classify(lines[j])) <==> LacksValue(lines[j]));
  }

  lemma {:induction false} UsedIsLastWith(lines: seq<string>, classify: string -> Kind) returns (k: nat)
    requires ScanWith(lines, classify).Scanned?
    ensures ScanWith(lines, classify).used.None? <==>
              forall j :: 0 <= j < |lines| ==> !classify(lines[j]).UsedSize?
    ensures ScanWith(lines, classify).used.Some? ==>
              && k < |lines| && classify(lines[k]) == UsedSize(ScanWith(lines, classify).used)
              && forall j :: k < j < |lines| ==> !classify(lines[j]).UsedSize?
  {
    k := 0;
    if lines != [] {
      var n := |lines| - 1;
      var front := lines[..n];
      assert forall j :: 0 <= j < n ==> front[j] == lines[j];
      k := UsedIsLastWith(front, classify);
      if classify(lines[n]).UsedSize? {
        k := n;
      }
    }
  }

  lemma {:induction false} MaximumIsLastWith(lines: seq<string>, classify: string -> Kind) returns (k: nat)
    requires ScanWith(lines, classify).Scanned?
    ensures ScanWith(lines, classify).maximum.None? <==>
              forall j :: 0 <= j < |lines| ==> !classify(lines[j]).MaxSize?
    ensures ScanWith(lines, classify).maximum.Some? ==>
              && k < |lines| && classify(lines[k]) == MaxSize(ScanWith(lines, classify).maximum)
              && forall j :: k < j < |lines| ==> !classify(lines[j]).MaxSize?
  {
    k := 0;
    if lines != [] {
      var n := |lines| - 1;
      var front := lines[..n];
      assert forall j :: 0 <= j < n ==> front[j] == lines[j];
      k := MaximumIsLastWith(front, classify);
      if classify(lines[n]).MaxSize? {
        k := n;
      }
    }
  }

  /** The used size is the value of the last used-size line, and there is
      none exactly when no line gives it. */
  lemma UsedIsLast(lines: seq<string>) returns (k: nat)
    requires ScanLines(lines).Scanned?
    ensures ScanLines(lines).used.None? <==> forall j :: 0 <= j < |lines| ==> !IsUsedLine(lines[j])
    ensures ScanLines(lines).used.Some? ==>
              && k < |lines| && IsUsedLine(lines[k]) && ':' in lines[k]
              && ScanLines(lines).used.value == ValueOf(lines[k])
              && forall j :: k < j < |lines| ==> !IsUsedLine(lines[j])
  {
    k := UsedIsLastWith(lines, Classify);
    assert forall j :: 0 <= j < |lines| ==> (Classify(lines[j]).UsedSize? <==> IsUsedLine(lines[j]));
  }

  /** Likewise the maximum size is the value of the last maximum-size
      line. */
  lemma MaximumIsLast(lines: seq<string>) returns (k: nat)
    requires ScanLines(lines).Scanned?
    ensures ScanLines(lines).maximum.None? <==> forall j :: 0 <= j < |lines| ==> !IsMaxLine(lines[j])
    ensures ScanLines(lines).maximum.Some? ==>
              && k < |lines| && IsMaxLine(lines[k]) && ':' in lines[k]
              && ScanLines(lines).maximum.value == ValueOf(lines[k])
              && forall j :: k < j < |lines| ==> !IsMaxLine(lines[j])
  {
    k := MaximumIsLastWith(lines, Classify);
    assert forall j :: 0 <= j < |lines| ==> (Classify(lines[j]).MaxSize? <==> IsMaxLine(lines[j]));
  }

  /** `value or "N/A"`: a missing or empty value prints as N/A. */
  function Display(value: Option<string>): (shown: string)
    ensures shown != ""
    ensures value.None? || value.value == "" ==> shown == NotAvailable
    ensures value.Some? && value.value != "" ==> shown == value.value
  {
    if value.None? || value.value == "" then NotAvailable else value.value
  }

  /** The factor `parse_size` applies for the unit it finds in the
      upper-cased text, GB before TB; zero stands for "no known unit". */
  function UnitFactor(upper: string): real {
    if Contains(upper, "GB") then 1.0
    else if Contains(upper, "TB") then 1024.0
    else 0.0
  }

  /** `parse_size`, in GB. `None` means it raised: on a missing value, or when
      `toNumber` (Python's `float`) rejects the text before the first
      space. A value with neither unit is 0 without being read. */
  function ParseSize(s: Option<string>, toNumber: string -> Option<real>): (size: Option<real>)
    ensures s.None? ==> size.None?
    ensures s.Some? && !Contains(Upper(s.value), "GB") && !Contains(Upper(s.value), "TB") ==> size == Some(0.0)
  {
    match s
    case None => None
    case Some(text) =>
      var upper := Upper(text);
      var factor := UnitFactor(upper);
      if factor == 0.0 then Some(0.0)
      else
        match toNumber(FirstToken(upper, ' '))
        case None => None
        case Some(x) => Some(x * factor)
  }

  /** `parse_size` ignores case: the value and its lower-cased form parse
      alike. */
  lemma ParseSizeIgnoresCase(text: string, toNumber: string -> Option<real>)
    ensures ParseSize(Some(Lower(text)), toNumber) == ParseSize(Some(text), toNumber)
  {
    UpperForgetsCase(text);
  }

  /** Digits and a decimal point: text `float` reads and that holds no
      letter, space or unit. */
  predicate IsNumeral(tok: string) {
    forall i :: 0 <= i < |tok| ==> '0' <= tok[i] <= '9' || tok[i] == '.'
  }

  /** A number followed by a unit: "x GB" is `x` GB and "x TB" is 1024 times
      `x` GB. */
  lemma ParseSizeOfUnits(tok: string, x: real, toNumber: string -> Option<real>)
    requires IsNumeral(tok) && toNumber(tok) == Some(x)
    ensures ParseSize(Some(tok + " GB"), toNumber) == Some(x)
    ensures ParseSize(Some(tok + " TB"), toNumber) == Some(1024.0 * x)
  {
    GigabyteSize(tok, x, toNumber);
    TerabyteSize(tok, x, toNumber);
  }

  lemma GigabyteSize(tok: string, x: real, toNumber: string -> Option<real>)
    requires IsNumeral(tok) && toNumber(tok) == Some(x)
    ensures ParseSize(Some(tok + " GB"), toNumber) == Some(x)
  {
    assert tok + " GB" == tok + [' ', 'G', 'B'];
    NumeralUnit(tok, 'G');
    HasUnit(tok, 'G');
  }

  lemma TerabyteSize(tok: string, x: real, toNumber: string -> Option<real>)
    requires IsNumeral(tok) && toNumber(tok) == Some(x)
    ensures ParseSize(Some(tok + " TB"), toNumber) == Some(1024.0 * x)
  {
    assert tok + " TB" == tok + [' ', 'T', 'B'];
    NumeralUnit(tok, 'T');
    HasUnit(tok, 'T');
    NoGigabytes(tok);
  }

  /** "numeral TB" does not mention GB: it has no letter G at all. */
  lemma NoGigabytes(tok: string)
    requires IsNumeral(tok)
    ensures !Contains(tok + [' ', 'T', 'B'], "GB")
  {
    var tb := tok + [' ', 'T', 'B'];
    assert forall i :: 0 <= i < |tb| ==> tb[i] != 'G';
    MissingFirstNotContained(tb, "GB");
  }

  /** "numeral xB" contains the unit "xB". */
  lemma HasUnit(tok: string, letter: char)
    ensures Contains(tok + [' ', letter, 'B'], [letter, 'B'])
  {
    OccurrenceContained(tok + [' ', letter, 'B'], [letter, 'B'], |tok| + 1);
  }

  /** GB is tested before TB: a text naming both units, such as
      "x TB (y GB)", is read as `x` GB. */
  lemma GigabytesTestedFirst(tok: string, other: string, x: real, toNumber: string -> Option<real>)
    requires IsNumeral(tok) && IsNumeral(other) && toNumber(tok) == Some(x)
    ensures ParseSize(Some(tok + " TB (" + other + " GB)"), toNumber) == Some(x)
  {
    var rest := "TB (" + other + " GB)";
    var text := tok + [' '] + rest;
    assert tok + " TB (" + other + " GB)" == text;
    assert ' ' !in tok;
    FirstTokenOf(tok, ' ', rest);
    NoLowerLetters(text);
    var at := |tok| + 5 + |other| + 1;
    assert text[at..at + 2] == "GB";
    OccurrenceContained(text, "GB", at);
  }

  /** A text holding no lower-case letter is its own upper-cased form. */
  lemma NoLowerLetters(text: string)
    requires forall i :: 0 <= i < |text| ==> !('a' <= text[i] <= 'z')
    ensures Upper(text) == text
  {
  }

  /** Upper-casing leaves a numeral and its unit as they are, and the first
      token of "numeral unit" is the numeral. */
  lemma NumeralUnit(tok: string, letter: char)
    requires IsNumeral(tok) && 'A' <= letter <= 'Z'
    ensures Upper(tok + [' ', letter, 'B']) == tok + [' ', letter, 'B']
    ensures FirstToken(tok + [' ', letter, 'B'], ' ') == tok
  {
    assert ' ' !in tok;
    assert tok + [' ', letter, 'B'] == tok + [' '] + [letter, 'B'];
    FirstTokenOf(tok, ' ', [letter, 'B']);
  }

  /** How the check ends: a warning, no remark, or the remark that the
      percentage could not be worked out (one of the sizes raised). */
  datatype Verdict = OverTenth | WithinTenth | CouldNotCalculate

  /** The used size is parsed first; a failure there skips the maximum. A
      zero maximum is never divided by. */
  function UsageVerdict(current: Option<string>, maxSize: Option<string>, toNumber: string -> Option<real>): (v: Verdict)
    ensures v == CouldNotCalculate <==>
              ParseSize(current, toNumber).None? || ParseSize(maxSize, toNumber).None?
    ensures ParseSize(maxSize, toNumber) == Some(0.0) ==> v != OverTenth
  {
    match ParseSize(current, toNumber)
    case None => CouldNotCalculate
    case Some(used) =>
      match ParseSize(maxSize, toNumber)
      case None => CouldNotCalculate
      case Some(maximum) =>
        if maximum != 0.0 && used / maximum > 1.0 / 10.0 then OverTenth else WithinTenth
  }

  /** With a positive maximum, the warning is given exactly when ten times
      the used size exceeds the maximum. */
  lemma WarnsOverTenth(current: Option<string>, maxSize: Option<string>, toNumber: string -> Option<real>)
    requires ParseSize(current, toNumber).Some? && ParseSize(maxSize, toNumber).Some?
    requires ParseSize(maxSize, toNumber).value > 0.0
    ensures UsageVerdict(current, maxSize, toNumber) == OverTenth <==>
              10.0 * ParseSize(current, toNumber).value > ParseSize(maxSize, toNumber).value
  {
    var used := ParseSize(current, toNumber).value;
    var maximum := ParseSize(maxSize, toNumber).value;
    var q := used / maximum;
    var excess := q - 1.0 / 10.0;
    assert q * maximum == used;
    assert excess * maximum == used - maximum / 10.0;
    PositiveFactor(maximum, excess);
    assert UsageVerdict(current, maxSize, toNumber) == if q > 1.0 / 10.0 then OverTenth else WithinTenth;
  }

  /** Multiplying by a positive number keeps the sign. */
  lemma PositiveFactor(a: real, b: real)
    requires a > 0.0
    ensures b > 0.0 <==> b * a > 0.0
  {
    if b <= 0.0 {
      assert b * a <= 0.0 * a;
    }
  }

  /** A maximum in neither GB nor TB counts as zero, so there is never a
      warning, whatever the used size. */
  lemma UnknownMaximumNeverWarns(current: Option<string>, text: string, toNumber: string -> Option<real>)
    requires UnitFactor(Upper(text)) == 0.0
    ensures UsageVerdict(current, Some(text), toNumber) != OverTenth
  {
  }

  /** A used size of 1 TB against a maximum of `m` GB warns exactly when
      `m` is below 10240: units are converted before comparing. */
  lemma TerabyteAgainstGigabytes(used: string, maximum: string, m: real, toNumber: string -> Option<real>)
    requires IsNumeral(used) && IsNumeral(maximum)
    requires toNumber(used) == Some(1.0) && toNumber(maximum) == Some(m) && m > 0.0
    ensures UsageVerdict(Some(used + " TB"), Some(maximum + " GB"), toNumber) == OverTenth <==> m < 10240.0
  {
    ParseSizeOfUnits(used, 1.0, toNumber);
    ParseSizeOfUnits(maximum, m, toNumber);
    WarnsOverTenth(Some(used + " TB"), Some(maximum + " GB"), toNumber);
  }

  /** Two sizes in GB are compared as they are: "x GB" against "y GB" warns
      exactly when `x` is more than a tenth of `y`. */
  lemma GigabytesCompared(used: string, maximum: string, x: real, y: real, toNumber: string -> Option<real>)
    requires IsNumeral(used) && IsNumeral(maximum)
    requires toNumber(used) == Some(x) && toNumber(maximum) == Some(y) && y > 0.0
    ensures UsageVerdict(Some(used + " GB"), Some(maximum + " GB"), toNumber) == OverTenth <==> 10.0 * x > y
  {
    GigabyteSize(used, x, toNumber);
    GigabyteSize(maximum, y, toNumber);
    WarnsOverTenth(Some(used + " GB"), Some(maximum + " GB"), toNumber);
  }

  /** What `win_vss` prints after its banner, or the index of the line at
      which it fails. */
  datatype Outcome = Completed(report: seq<string>) | Crashed(line: nat)

  function VerdictLines(v: Verdict): seq<string> {
    match v
    case OverTenth => [OverWarning]
    case WithinTenth => []
    case CouldNotCalculate => [CannotCalculate]
  }

  /** The whole check, given the listing, or `None` when `vssadmin`
      failed. */
  function Audit(output: Option<seq<string>>, toNumber: string -> Option<real>): (o: Outcome)
    ensures output.None? ==> o == Completed([ListFailed])
    ensures output.Some? ==>
              (o.Crashed? <==> exists k :: 0 <= k < |output.value| && LacksValue(output.value[k]))
    ensures output.Some? && o.Completed? ==>
              && 2 <= |o.report| <= 3
              && StartsWith(o.report[0], UsedLabel + " ") && |o.report[0]| > |UsedLabel + " "|
              && StartsWith(o.report[1], MaxLabel + " ") && |o.report[1]| > |MaxLabel + " "|
  {
    match output
    case None => Completed([ListFailed])
    case Some(lines) =>
      ScanStopsAtFirst(lines);
      match ScanLines(lines)
      case NoValue(k) => Crashed(k)
      case Scanned(used, maximum) =>
        var first := UsedLabel + " " + Display(used);
        var second := MaxLabel + " " + Display(maximum);
        assert StartsWith(first, UsedLabel + " ");
        assert StartsWith(second, MaxLabel + " ");
        Completed([first, second] + VerdictLines(UsageVerdict(used, maximum, toNumber)))
  }

  /** A finished check prints, after the used-size label, the value of the
      last used-size line, or N/A when there is no such line or its value is
      empty. */
  lemma UsedShown(lines: seq<string>, toNumber: string -> Option<real>) returns (u: nat)
    requires Audit(Some(lines), toNumber).Completed?
    ensures var report := Audit(Some(lines), toNumber).report;
            (forall j :: 0 <= j < |lines| ==> !IsUsedLine(lines[j])) ==> report[0] == UsedLabel + " " + NotAvailable
    ensures var report := Audit(Some(lines), toNumber).report;
            (exists j :: 0 <= j < |lines| && IsUsedLine(lines[j])) ==>
              && u < |lines| && IsUsedLine(lines[u]) && ':' in lines[u]
              && (forall j :: u < j < |lines| ==> !IsUsedLine(lines[j]))
              && report[0] == UsedLabel + " " + Display(Some(ValueOf(lines[u])))
  {
    ReportLines(lines, toNumber);
    u := UsedIsLast(lines);
  }

  /** The same for the maximum size, on the second line of the report. */
  lemma MaximumShown(lines: seq<string>, toNumber: string -> Option<real>) returns (m: nat)
    requires Audit(Some(lines), toNumber).Completed?
    ensures var report := Audit(Some(lines), toNumber).report;
            (forall j :: 0 <= j < |lines| ==> !IsMaxLine(lines[j])) ==> report[1] == MaxLabel + " " + NotAvailable
    ensures var report := Audit(Some(lines), toNumber).report;
            (exists j :: 0 <= j < |lines| && IsMaxLine(lines[j])) ==>
              && m < |lines| && IsMaxLine(lines[m]) && ':' in lines[m]
              && (forall j :: m < j < |lines| ==> !IsMaxLine(lines[j]))
              && report[1] == MaxLabel + " " + Display(Some(ValueOf(lines[m])))
  {
    ReportLines(lines, toNumber);
    m := MaximumIsLast(lines);
  }

  /** A finished check's first two lines show the scanned sizes. */
  lemma ReportLines(lines: seq<string>, toNumber: string -> Option<real>)
    requires Audit(Some(lines), toNumber).Completed?
    ensures ScanLines(lines).Scanned?
    ensures var report := Audit(Some(lines), toNumber).report;
            && report[0] == UsedLabel + " " + Display(ScanLines(lines).used)
            && report[1] == MaxLabel + " " + Display(ScanLines(lines).maximum)
  {
    ScanStopsAtFirst(lines);
  }

  /** When the listing has no used-size line the used size prints as N/A
      and the percentage cannot be worked out. */
  lemma MissingUsedSize(lines: seq<string>, toNumber: string -> Option<real>)
    requires forall j :: 0 <= j < |lines| ==> !IsUsedLine(lines[j]) && !IsMaxLine(lines[j])
    ensures Audit(Some(lines), toNumber) ==
              Completed([UsedLabel + " " + NotAvailable, MaxLabel + " " + NotAvailable, CannotCalculate])
  {
    ScanStopsAtFirst(lines);
    var _ := UsedIsLast(lines);
    var _ := MaximumIsLast(lines);
  }

  /** A finished check prints the two sizes, then the warning exactly when
      the verdict is over a tenth, nothing more when it is within a tenth,
      and the remark when a size could not be parsed. */
  lemma ReportFollowsVerdict(lines: seq<string>, toNumber: string -> Option<real>)
    requires Audit(Some(lines), toNumber).Completed?
    ensures ScanLines(lines).Scanned?
    ensures var report := Audit(Some(lines), toNumber).report;
            var v := UsageVerdict(ScanLines(lines).used, ScanLines(lines).maximum, toNumber);
            && (|report| == 2 <==> v == WithinTenth)
            && (|report| == 3 && report[2] == OverWarning <==> v == OverTenth)
            && (|report| == 3 && report[2] == CannotCalculate <==> v == CouldNotCalculate)
  {
    assert OverWarning != CannotCalculate by {
      assert |OverWarning| != |CannotCalculate|;
    }
  }
}
