/** The scheduled-task audit (`win_tasks`): parse the verbose task listing
    into records with the shared block parser, keep the tasks whose name
    does not mention Microsoft, and print their names and next run times as
    a two-column table. */
module TaskAudit {
  import opened Wrappers
  import opened Text
  import opened Seqs
  import opened BlockParser

  const TaskNameField := "TaskName"
  const NextRunField := "Next Run Time"
  const Vendor := "Microsoft"

  const QueryFailed := "Failed to query scheduled tasks – try running as Administrator."
  const NoTasks := "No non-Microsoft scheduled tasks found."
  const NameHeader := "Task Name"
  const NextRunHeader := "Next Run Time"
  /** The separator line is this much longer than the name column. */
  const RuleExtra := 20

  /** One reported task: its name and next run time, `"?"` for a missing
      field. */
  datatype TaskRow = TaskRow(name: string, nextRun: string)

  /** The task's name (`""` when it has none) does not mention Microsoft. */
  predicate IsThirdParty(task: Record) {
    !Contains(Lookup(task, TaskNameField, ""), Vendor)
  }

  function Row(task: Record): TaskRow {
    TaskRow(Lookup(task, TaskNameField, "?"), Lookup(task, NextRunField, "?"))
  }

  /** The rows `win_tasks` collects: one per emitted block that holds a field
      and whose name does not mention Microsoft, in listing order. */
  function TaskRows(lines: seq<string>): (rows: seq<TaskRow>)
    ensures |rows| <= |ParseBlocks(lines)|
  {
    Map(Filter(ParseBlocks(lines), IsThirdParty), Row)
  }

  /** No reported name mentions Microsoft, not even the `"?"` of a task
      without a name. */
  lemma NoMicrosoftRow(lines: seq<string>)
    ensures forall i :: 0 <= i < |TaskRows(lines)| ==> !Contains(TaskRows(lines)[i].name, Vendor)
  {
    var kept := Filter(ParseBlocks(lines), IsThirdParty);
    forall i | 0 <= i < |kept| ensures !Contains(Row(kept[i]).name, Vendor) {
      assert IsThirdParty(kept[i]);
      if TaskNameField !in kept[i] {
        assert !Contains("?", Vendor) by {
          if Contains("?", Vendor) {
            ContainsNoLonger("?", Vendor);
          }
        }
      }
    }
  }

  /** The rows are exactly the third-party records, in order: row `i` comes
      from parsed record `idx[i]`, the positions increase, and every parsed
      record that does not mention Microsoft has a row. */
  lemma TaskRowsSelect(lines: seq<string>) returns (idx: seq<nat>)
    ensures var records := ParseBlocks(lines);
            && |idx| == |TaskRows(lines)|
            && (forall i :: 0 <= i < |idx| ==>
                  idx[i] < |records| && IsThirdParty(records[idx[i]]) &&
                  TaskRows(lines)[i] == Row(records[idx[i]]))
            && (forall i, j :: 0 <= i < j < |idx| ==> idx[i] < idx[j])
            && (forall k :: 0 <= k < |records| && IsThirdParty(records[k]) ==> k in idx)
  {
    var records := ParseBlocks(lines);
    idx := FilterSelects(records, IsThirdParty);
    var kept := Filter(records, IsThirdParty);
    forall i | 0 <= i < |idx| ensures IsThirdParty(records[idx[i]]) {
      assert kept[i] == records[idx[i]];
    }
  }

  /** A whitespace-only line adds the accumulated task's row when the task
      holds a field and does not mention Microsoft. */
  lemma TaskRowsBlankLine(lines: seq<string>, line: string)
    requires IsBlank(line)
    ensures TaskRows(lines + [line]) ==
              TaskRows(lines) +
              (if IsNonEmpty(Pending(lines)) && IsThirdParty(Pending(lines)) then [Row(Pending(lines))] else [])
  {
    ParseBlankLine(lines, line);
    var records := ParseBlocks(lines);
    var task := Pending(lines);
    if IsNonEmpty(task) {
      MapFilterSnoc(records, task, IsThirdParty, Row);
    } else {
      assert records + [] == records;
    }
  }

  /** What line `i` does to the rows collected so far and to the
      accumulated task. */
  lemma TaskRowsStep(lines: seq<string>, i: nat)
    requires i < |lines|
    ensures var task := Pending(lines[..i]);
            IsBlank(lines[i]) ==>
              && TaskRows(lines[..i + 1]) ==
                   TaskRows(lines[..i]) + (if IsNonEmpty(task) && IsThirdParty(task) then [Row(task)] else [])
              && Pending(lines[..i + 1]) == map[]
    ensures !IsBlank(lines[i]) ==>
              && TaskRows(lines[..i + 1]) == TaskRows(lines[..i])
              && Pending(lines[..i + 1]) == Assign(Pending(lines[..i]), lines[i])
  {
    ParseStep(lines, i);
    if IsBlank(lines[i]) {
      assert lines[..i + 1] == lines[..i] + [lines[i]];
      TaskRowsBlankLine(lines[..i], lines[i]);
    }
  }

  /** The parse loop of `win_tasks`: like the service parser, but it keeps
      the name and next run time of each third-party task as it is
      emitted. */
  method CollectTasks(lines: seq<string>) returns (tasks: seq<TaskRow>)
    ensures tasks == TaskRows(lines)
  {
    tasks := [];
    var task: Record := map[];
    var i := 0;
    while i < |lines|
      invariant 0 <= i <= |lines|
      invariant tasks == TaskRows(lines[..i])
      invariant task == Pending(lines[..i])
    {
      var line := lines[i];
      TaskRowsStep(lines, i);
      if Trim(line) == "" {
        if task != map[] && !Contains(Lookup(task, TaskNameField, ""), Vendor) {
          tasks := tasks + [TaskRow(Lookup(task, TaskNameField, "?"), Lookup(task, NextRunField, "?"))];
        }
        task := map[];
      } else {
        AssignAt(task, line);
        if ':' in line {
          var parts := SplitOnce(line, ':');
          task := task[Trim(parts.0) := Trim(parts.1)];
        }
      }
      i := i + 1;
    }
    assert lines[..i] == lines;
  }

  /** `max(len(name) for name, _ in tasks)`: the width of the name column,
      the length of the longest name. */
  function NameWidth(rows: seq<TaskRow>): (w: nat)
    requires rows != []
    ensures forall i :: 0 <= i < |rows| ==> |rows[i].name| <= w
    ensures exists i :: 0 <= i < |rows| && |rows[i].name| == w
  {
    if |rows| == 1 then |rows[0].name|
    else
      var w := NameWidth(rows[..|rows| - 1]);
      var last := |rows[|rows| - 1].name|;
      if last > w then last else w
  }

  /** `f"{s:<{width}}"`: `s` padded with spaces on the right to `width`
      characters; a longer `s` is kept whole. */
  function PadRight(s: string, width: nat): (r: string)
    ensures |r| == if |s| < width then width else |s|
    ensures r[..|s|] == s
    ensures forall k :: |s| <= k < |r| ==> r[k] == ' '
  {
    if |s| < width then s + seq(width - |s|, _ => ' ') else s
  }

  /** A table line in two columns: `left` padded to `width`, one space, then
      `right` starting at column `width + 1`. */
  predicate Columns(line: string, width: nat, left: string, right: string) {
    && |left| <= width
    && |line| == width + 1 + |right|
    && line[..|left|] == left
    && (forall k :: |left| <= k <= width ==> line[k] == ' ')
    && line[width + 1..] == right
  }

  function ColumnLine(left: string, width: nat, right: string): (line: string)
    requires |left| <= width
    ensures Columns(line, width, left, right)
  {
    var padded := PadRight(left, width);
    var line := padded + " " + right;
    assert line[..|left|] == padded[..|left|];
    line
  }

  function Rule(n: nat): (r: string)
    ensures |r| == n && forall k :: 0 <= k < n ==> r[k] == '-'
  {
    seq(n, _ => '-')
  }

  /** One line per task, every next run time starting at column
      `width + 1`. */
  function TableBody(rows: seq<TaskRow>, width: nat): (body: seq<string>)
    requires forall i :: 0 <= i < |rows| ==> |rows[i].name| <= width
    ensures |body| == |rows|
    ensures forall i :: 0 <= i < |rows| ==> Columns(body[i], width, rows[i].name, rows[i].nextRun)
  {
    seq(|rows|, i requires 0 <= i < |rows| => ColumnLine(rows[i].name, width, rows[i].nextRun))
  }

  /** The header's name column: the name column, unless the header's own
      first cell is longer than every task name. */
  function HeaderWidth(header: string, width: nat): nat {
    if |header| <= width then width else |header|
  }

  /** A header line, a rule of dashes and one line per task, the name
      column as wide as the longest task name. */
  function Table(nameHeader: string, nextHeader: string, rows: seq<TaskRow>): (lines: seq<string>)
    requires rows != []
    ensures |lines| == |rows| + 2
  {
    TableAt(nameHeader, nextHeader, rows, NameWidth(rows))
  }

  /** The table with a name column `width` characters wide. */
  function TableAt(nameHeader: string, nextHeader: string, rows: seq<TaskRow>, width: nat): (lines: seq<string>)
    requires forall i :: 0 <= i < |rows| ==> |rows[i].name| <= width
    ensures |lines| == |rows| + 2
  {
    [ColumnLine(nameHeader, HeaderWidth(nameHeader, width), nextHeader), Rule(width + RuleExtra)] + TableBody(rows, width)
  }

  lemma TableLayout(nameHeader: string, nextHeader: string, rows: seq<TaskRow>)
    requires rows != []
    ensures var w := NameWidth(rows);
            var lines := Table(nameHeader, nextHeader, rows);
            && Columns(lines[0], HeaderWidth(nameHeader, w), nameHeader, nextHeader)
            && |lines[1]| == w + RuleExtra
            && (forall k :: 0 <= k < |lines[1]| ==> lines[1][k] == '-')
            && (forall i :: 0 <= i < |rows| ==> Columns(lines[i + 2], w, rows[i].name, rows[i].nextRun))
  {
    var w := NameWidth(rows);
    TableHead(nameHeader, nextHeader, rows, w);
    TableRows(nameHeader, nextHeader, rows, w);
  }

  lemma TableHead(nameHeader: string, nextHeader: string, rows: seq<TaskRow>, width: nat)
    requires forall i :: 0 <= i < |rows| ==> |rows[i].name| <= width
    ensures var lines := TableAt(nameHeader, nextHeader, rows, width);
            && lines[0] == ColumnLine(nameHeader, HeaderWidth(nameHeader, width), nextHeader)
            && lines[1] == Rule(width + RuleExtra)
  {
  }

  lemma TableRows(nameHeader: string, nextHeader: string, rows: seq<TaskRow>, width: nat)
    requires forall i :: 0 <= i < |rows| ==> |rows[i].name| <= width
    ensures var lines := TableAt(nameHeader, nextHeader, rows, width);
            forall i :: 0 <= i < |rows| ==> lines[i + 2] == TableBody(rows, width)[i]
  {
  }

  /** The table `win_tasks` prints: the "none found" line when there is no
      task, otherwise a header, a rule and one line per task. */
  function TaskTable(rows: seq<TaskRow>): (lines: seq<string>)
    ensures rows == [] ==> lines == [NoTasks]
    ensures rows != [] ==> |lines| == |rows| + 2
  {
    if rows == [] then [NoTasks] else Table(NameHeader, NextRunHeader, rows)
  }

  /** The table's layout: the rule is 20 dashes longer than the name column
      and every next run time starts in the same column, just after the
      longest name. A header longer than the name column pushes only its
      own second column to the right. */
  lemma TaskTableLayout(rows: seq<TaskRow>)
    requires rows != []
    ensures var w := NameWidth(rows);
            var lines := TaskTable(rows);
            && Columns(lines[0], HeaderWidth(NameHeader, w), NameHeader, NextRunHeader)
            && |lines[1]| == w + RuleExtra
            && (forall k :: 0 <= k < |lines[1]| ==> lines[1][k] == '-')
            && (forall i :: 0 <= i < |rows| ==> Columns(lines[i + 2], w, rows[i].name, rows[i].nextRun))
  {
    TableLayout(NameHeader, NextRunHeader, rows);
  }

  /** Everything `win_tasks` prints after its banner, given the listing, or
      `None` when `schtasks` failed. */
  function Audit(output: Option<seq<string>>): (report: seq<string>)
    ensures output.None? ==> report == [QueryFailed]
  {
    match output
    case None => [QueryFailed]
    case Some(lines) => TaskTable(TaskRows(lines))
  }

  /** The report is the "none found" line exactly when no emitted task
      escapes the Microsoft filter; otherwise it has one line per such task
      after the header and the rule. */
  lemma AuditOutcome(lines: seq<string>)
    ensures var records := ParseBlocks(lines);
            var report := Audit(Some(lines));
            && (report == [NoTasks] <==> forall k :: 0 <= k < |records| ==> !IsThirdParty(records[k]))
            && (report != [NoTasks] ==> |report| == |TaskRows(lines)| + 2)
  {
    var records := ParseBlocks(lines);
    var idx := TaskRowsSelect(lines);
    var rows := TaskRows(lines);
    if rows != [] {
      assert IsThirdParty(records[idx[0]]);
      assert |TaskTable(rows)| >= 2;
    } else {
      assert idx == [];
    }
  }

  function TaskBlock(name: string, next: string): seq<string> {
    [TaskNameField + ": " + name, NextRunField + ": " + next, ""]
  }

  lemma TwoTasksParsed(name1: string, next1: string, name2: string, next2: string)
    requires IsStripped(name1) && IsStripped(next1) && IsStripped(name2) && IsStripped(next2)
    ensures ParseBlocks(TaskBlock(name1, next1) + TaskBlock(name2, next2)) ==
              [map[TaskNameField := name1, NextRunField := next1], map[TaskNameField := name2, NextRunField := next2]]
  {
    FieldNamesStripped();
    var first := TaskBlock(name1, next1);
    var second := TaskBlock(name2, next2);
    assert IsBlank(first[2]);
    ParseSplitsAtBlank(first, second);
    assert first == first + [] && second == second + [];
    ParseTwoFieldBlock(TaskNameField, name1, NextRunField, next1, []);
    ParseTwoFieldBlock(TaskNameField, name2, NextRunField, next2, []);
  }

  /** Two tasks, each closed by an empty line: a task whose name mentions
      Microsoft is dropped and the other one is the table's only row. */
  lemma MicrosoftTaskSkipped(name1: string, next1: string, name2: string, next2: string)
    requires IsStripped(name1) && IsStripped(next1) && IsStripped(name2) && IsStripped(next2)
    requires Contains(name1, Vendor) && !Contains(name2, Vendor)
    ensures TaskRows(TaskBlock(name1, next1) + TaskBlock(name2, next2)) == [TaskRow(name2, next2)]
  {
    TwoTasksParsed(name1, next1, name2, next2);
    var r1 := map[TaskNameField := name1, NextRunField := next1];
    var r2 := map[TaskNameField := name2, NextRunField := next2];
    assert Lookup(r1, TaskNameField, "") == name1;
    assert Lookup(r2, TaskNameField, "") == name2;
    FilterSecondOfTwo(r1, r2, IsThirdParty);
    assert Map([r2], Row) == [Row(r2)];
  }

  lemma FieldNamesStripped()
    ensures ':' !in TaskNameField && IsStripped(TaskNameField)
    ensures ':' !in NextRunField && IsStripped(NextRunField)
  {
  }
}
