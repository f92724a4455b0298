/** The block parser shared by the service and scheduled-task audits: the
    command output, already split into lines, is read one line at a time into
    an accumulator record; a whitespace-only line emits the accumulator (when
    it holds any field) and starts a new one, and a line with a colon sets one
    field. There is no flush after the last line, so a final block that no
    whitespace-only line follows is never emitted. */
module BlockParser {
  import opened Wrappers
  import opened Text
  import opened Seqs

  /** One parsed block: field name to field value. */
  type Record = map<string, string>

  /** The line is empty or whitespace only, which is what `not line.strip()`
      tests (see `Text.Trim`). */
  predicate IsBlank(line: string) {
    AllSpace(line)
  }

  predicate IsNonEmpty(rec: Record) {
    rec != map[]
  }

  /** `rec.get(key, default)` */
  function Lookup(rec: Record, key: string, default: string): (value: string)
    ensures key in rec ==> value == rec[key]
    ensures key !in rec ==> value == default
  {
    if key in rec then rec[key] else default
  }

  /** The field a line sets: the line is split at its first colon, and the
      stripped text before it is the name, the stripped rest (which may hold
      more colons) the value. A line without a colon sets nothing. */
  function Field(line: string): (r: Option<(string, string)>)
    ensures r.None? <==> ':' !in line
  {
    if ':' in line then
      var parts := SplitOnce(line, ':');
      Some((Trim(parts.0), Trim(parts.1)))
    else
      None
  }

  /** Splitting undoes joining: a name without a colon, a colon and any
      value (colons included) read back as that name and that value,
      stripped. Every line with a colon has this form, its name being the
      text before the first colon. */
  lemma FieldOfJoin(name: string, value: string)
    requires ':' !in name
    ensures Field(name + ":" + value) == Some((Trim(name), Trim(value)))
  {
    SplitOnceOfJoin(name, ':', value);
    assert name + ":" + value == name + [':'] + value;
  }

  lemma TrimOfTrimmed(s: string)
    requires s != [] && !IsSpace(s[0]) && !IsSpace(s[|s| - 1])
    ensures Trim(s) == s && Trim(" " + s) == s
  {
    TrimSurrounded([], s, []);
    assert [] + s + [] == s;
    TrimSurrounded(" ", s, []);
    assert " " + s + [] == " " + s;
  }

  /** The usual `Name: value` line sets `Name` to `value`. */
  lemma FieldOfLine(name: string, value: string)
    requires ':' !in name && name != [] && value != []
    requires !IsSpace(name[0]) && !IsSpace(name[|name| - 1])
    requires !IsSpace(value[0]) && !IsSpace(value[|value| - 1])
    ensures Field(name + ": " + value) == Some((name, value))
  {
    assert name + ": " + value == name + ":" + (" " + value);
    FieldOfJoin(name, " " + value);
    TrimOfTrimmed(name);
    TrimOfTrimmed(value);
  }

  /** The accumulator after setting `field`, if there is one: a name set
      again loses its earlier value. */
  function Put(rec: Record, field: Option<(string, string)>): Record {
    match field
    case Some((name, value)) => rec[name := value]
    case None => rec
  }

  /** The accumulator after one non-blank line: `rec[key] = val` when the
      line has a colon, unchanged otherwise. */
  function Assign(rec: Record, line: string): Record {
    Put(rec, Field(line))
  }

  /** A line `name:value` whose name holds no colon sets the stripped name
      to the stripped value, colons in the value included; a line without
      a colon leaves the accumulator as it is. */
  lemma AssignField(rec: Record, name: string, value: string, plain: string)
    requires ':' !in name && ':' !in plain
    ensures Assign(rec, name + ":" + value) == rec[Trim(name) := Trim(value)]
    ensures Assign(rec, plain) == rec
  {
    AssignJoined(rec, name, value);
    AssignAt(rec, plain);
  }

  lemma AssignJoined(rec: Record, name: string, value: string)
    requires ':' !in name
    ensures Assign(rec, name + ":" + value) == rec[Trim(name) := Trim(value)]
  {
    FieldOfJoin(name, value);
  }

  /** A line with a colon sets the stripped text before its first colon to
      the stripped text after it; a line without one changes nothing. */
  lemma AssignAt(rec: Record, line: string)
    ensures ':' in line ==>
              Assign(rec, line) == rec[Trim(SplitOnce(line, ':').0) := Trim(SplitOnce(line, ':').1)]
    ensures ':' !in line ==> Assign(rec, line) == rec
  {
    if ':' in line {
      var parts := SplitOnce(line, ':');
      assert Field(line) == Some((Trim(parts.0), Trim(parts.1)));
    }
  }

  /** The record the lines of a block build, first to last, when `split`
      tells which field each line sets. The parser splits with `Field`; the
      lemmas about accumulation hold whatever the splitter. */
  function BuildWith(block: seq<string>, split: string -> Option<(string, string)>): Record {
    if block == [] then map[]
    else Put(BuildWith(block[..|block| - 1], split), split(block[|block| - 1]))
  }

  /** The record the non-blank lines of one block build. */
  function Build(block: seq<string>): Record {
    BuildWith(block, Field)
  }

  predicate Sets(field: Option<(string, string)>, name: string) {
    field.Some? && field.value.0 == name
  }

  predicate SetsField(line: string, name: string) {
    Sets(Field(line), name)
  }

  lemma {:induction false} BuildWithHas(block: seq<string>, name: string, split: string -> Option<(string, string)>)
    ensures name in BuildWith(block, split) <==> exists i :: 0 <= i < |block| && Sets(split(block[i]), name)
  {
    if block != [] {
      var n := |block| - 1;
      var front := block[..n];
      BuildWithHas(front, name, split);
      if exists i :: 0 <= i < |block| && Sets(split(block[i]), name) {
        var i :| 0 <= i < |block| && Sets(split(block[i]), name);
        if i < n {
          assert front[i] == block[i];
        }
      }
      if exists i :: 0 <= i < |front| && Sets(split(front[i]), name) {
        var i :| 0 <= i < |front| && Sets(split(front[i]), name);
        assert block[i] == front[i];
      }
    }
  }

  lemma {:induction false} BuildWithLastWins(block: seq<string>, name: string, split: string -> Option<(string, string)>)
    returns (i: nat)
    requires name in BuildWith(block, split)
    ensures i < |block| && split(block[i]) == Some((name, BuildWith(block, split)[name]))
    ensures forall j :: i < j < |block| ==> !Sets(split(block[j]), name)
  {
    var n := |block| - 1;
    var front := block[..n];
    if Sets(split(block[n]), name) {
      i := n;
    } else {
      i := BuildWithLastWins(front, name, split);
      assert block[i] == front[i];
      forall j | i < j < |block| ensures !Sets(split(block[j]), name) {
        if j < n {
          assert block[j] == front[j];
        }
      }
    }
  }

  /** A two-line block sets the first line's field, then the second's. */
  lemma BuildPair(first: string, second: string)
    ensures Build([first, second]) == Put(Put(map[], Field(first)), Field(second))
  {
    var block := [first, second];
    assert block[..1] == [first] && [first][..0] == [];
    assert BuildWith([first], Field) == Put(map[], Field(first));
    assert BuildWith(block, Field) == Put(BuildWith([first], Field), Field(second));
  }

  /** Text without surrounding whitespace, as `strip` leaves it. */
  predicate IsStripped(s: string) {
    s != [] && !IsSpace(s[0]) && !IsSpace(s[|s| - 1])
  }

  /** A block of two `name: value` lines builds the record holding both
      fields, the second winning if the names coincide. */
  lemma BuildTwoFields(name1: string, value1: string, name2: string, value2: string)
    requires ':' !in name1 && IsStripped(name1) && IsStripped(value1)
    requires ':' !in name2 && IsStripped(name2) && IsStripped(value2)
    ensures Build([name1 + ": " + value1, name2 + ": " + value2]) == map[name1 := value1, name2 := value2]
  {
    BuildPair(name1 + ": " + value1, name2 + ": " + value2);
    FieldOfLine(name1, value1);
    FieldOfLine(name2, value2);
  }

  /** A record holds a name exactly when some line of its block sets it. */
  lemma BuildHas(block: seq<string>, name: string)
    ensures name in Build(block) <==> exists i :: 0 <= i < |block| && SetsField(block[i], name)
  {
    BuildWithHas(block, name, Field);
  }

  /** A name a record holds has the value of the LAST line of its block that
      sets it: a repeated name keeps its last value. */
  lemma BuildLastWins(block: seq<string>, name: string) returns (i: nat)
    requires name in Build(block)
    ensures i < |block| && Field(block[i]) == Some((name, Build(block)[name]))
    ensures forall j :: i < j < |block| ==> !SetsField(block[j], name)
  {
    i := BuildWithLastWins(block, name, Field);
  }

  function BlankCount(lines: seq<string>): nat {
    if lines == [] then 0
    else BlankCount(lines[..|lines| - 1]) + (if IsBlank(lines[|lines| - 1]) then 1 else 0)
  }

  /** The input cut at its whitespace-only lines: the line groups between
      them (possibly empty), in order; the last group is the one no
      whitespace-only line follows. */
  function Segments(lines: seq<string>): (segs: seq<seq<string>>)
    ensures |segs| == BlankCount(lines) + 1
  {
    if lines == [] then [[]]
    else
      var segs := Segments(lines[..|lines| - 1]);
      var line := lines[|lines| - 1];
      if IsBlank(line) then segs + [[]]
      else segs[..|segs| - 1] + [segs[|segs| - 1] + [line]]
  }

  function Flatten(groups: seq<seq<string>>): seq<string> {
    if groups == [] then []
    else Flatten(groups[..|groups| - 1]) + groups[|groups| - 1]
  }

  predicate IsTextLine(line: string) {
    !IsBlank(line)
  }

  /** Cutting loses nothing but the whitespace-only lines: the groups, put
      back together, are the input's other lines in order. */
  lemma {:induction false} SegmentsCover(lines: seq<string>)
    ensures Flatten(Segments(lines)) == Filter(lines, IsTextLine)
  {
    if lines != [] {
      var n := |lines| - 1;
      var segs := Segments(lines[..n]);
      SegmentsCover(lines[..n]);
      if !IsBlank(lines[n]) {
        var m := |segs| - 1;
        var segs' := segs[..m] + [segs[m] + [lines[n]]];
        assert segs'[..m] == segs[..m];
        assert segs[..m] == segs[..|segs| - 1];
        assert Flatten(segs') == Flatten(segs[..m]) + segs[m] + [lines[n]];
      } else {
        assert (segs + [[]])[..|segs|] == segs;
      }
    }
  }

  /** The blocks a whitespace-only line closes. */
  function TerminatedBlocks(lines: seq<string>): (blocks: seq<seq<string>>)
    ensures |blocks| == BlankCount(lines)
  {
    var segs := Segments(lines);
    segs[..|segs| - 1]
  }

  /** The lines read since the last whitespace-only line. */
  function PendingBlock(lines: seq<string>): seq<string> {
    var segs := Segments(lines);
    segs[|segs| - 1]
  }

  /** The accumulator once every line has been read. */
  function Pending(lines: seq<string>): Record {
    Build(PendingBlock(lines))
  }

  /** The records the parser emits: one per block closed by a whitespace-only
      line whose record is not empty, in input order. */
  function ParseBlocks(lines: seq<string>): (records: seq<Record>)
    ensures forall i :: 0 <= i < |records| ==> IsNonEmpty(records[i])
    ensures |records| <= BlankCount(lines)
  {
    Filter(Map(TerminatedBlocks(lines), Build), IsNonEmpty)
  }

  /** The records are the closed blocks' records at increasing positions,
      and no closed block with a field is skipped. */
  lemma RecordsAreClosedBlocks(lines: seq<string>) returns (idx: seq<nat>)
    ensures |idx| == |ParseBlocks(lines)|
    ensures forall i :: 0 <= i < |idx| ==>
              idx[i] < BlankCount(lines) && ParseBlocks(lines)[i] == Build(TerminatedBlocks(lines)[idx[i]])
    ensures forall i, j :: 0 <= i < j < |idx| ==> idx[i] < idx[j]
    ensures forall k :: 0 <= k < BlankCount(lines) && IsNonEmpty(Build(TerminatedBlocks(lines)[k])) ==> k in idx
  {
    var blocks := TerminatedBlocks(lines);
    var recs := Map(blocks, Build);
    idx := FilterSelects(recs, IsNonEmpty);
  }

  /** A whitespace-only line emits the accumulator when it holds a field, and
      empties it. */
  lemma ParseBlankLine(lines: seq<string>, line: string)
    requires IsBlank(line)
    ensures ParseBlocks(lines + [line]) ==
              ParseBlocks(lines) + (if IsNonEmpty(Pending(lines)) then [Pending(lines)] else [])
    ensures Pending(lines + [line]) == map[]
  {
    var all := lines + [line];
    assert all[..|all| - 1] == lines;
    var segs := Segments(lines);
    assert Segments(all) == segs + [[]];
    assert TerminatedBlocks(all) == segs;
    assert segs == segs[..|segs| - 1] + [PendingBlock(lines)];
    MapAppend(segs[..|segs| - 1], [PendingBlock(lines)], Build);
    FilterAppend(Map(segs[..|segs| - 1], Build), [Pending(lines)], IsNonEmpty);
    assert Filter([Pending(lines)], IsNonEmpty) ==
             Filter([], IsNonEmpty) + (if IsNonEmpty(Pending(lines)) then [Pending(lines)] else []);
  }

  /** Any other line emits nothing and sets its field, if it has one, in the
      accumulator. */
  lemma ParseTextLine(lines: seq<string>, line: string)
    requires !IsBlank(line)
    ensures ParseBlocks(lines + [line]) == ParseBlocks(lines)
    ensures Pending(lines + [line]) == Assign(Pending(lines), line)
  {
    var all := lines + [line];
    assert all[..|all| - 1] == lines;
    var segs := Segments(lines);
    var m := |segs| - 1;
    var segs' := segs[..m] + [segs[m] + [line]];
    assert Segments(all) == segs';
    assert segs'[..|segs'| - 1] == segs[..m];
    var block := segs[m] + [line];
    assert block[..|block| - 1] == segs[m];
    assert Build(block) == Put(Build(segs[m]), Field(line));
  }

  /** Lines that are not whitespace-only, added at the end, emit nothing: the
      final block is dropped unless a whitespace-only line closes it. */
  lemma {:induction false} FinalBlockDropped(lines: seq<string>, tail: seq<string>)
    requires forall i :: 0 <= i < |tail| ==> !IsBlank(tail[i])
    ensures ParseBlocks(lines + tail) == ParseBlocks(lines)
  {
    if tail == [] {
      assert lines + tail == lines;
    } else {
      var n := |tail| - 1;
      var front := tail[..n];
      var last := tail[n];
      assert forall i :: 0 <= i < |front| ==> front[i] == tail[i];
      FinalBlockDropped(lines, front);
      var mid := lines + front;
      assert lines + tail == mid + [last];
      ParseTextLine(mid, last);
    }
  }

  lemma SegmentsStep(lines: seq<string>, line: string)
    ensures var segs := Segments(lines);
            Segments(lines + [line]) ==
              if IsBlank(line) then segs + [[]]
              else segs[..|segs| - 1] + [segs[|segs| - 1] + [line]]
  {
    assert (lines + [line])[..|lines|] == lines;
  }

  lemma AppendEmptyGroup(pre: seq<seq<string>>, segs: seq<seq<string>>)
    ensures (pre + segs) + [[]] == pre + (segs + [[]])
  {
  }

  lemma ExtendLastGroup(pre: seq<seq<string>>, segs: seq<seq<string>>, line: string)
    requires segs != []
    ensures var all := pre + segs;
            all[..|all| - 1] + [all[|all| - 1] + [line]] ==
              pre + (segs[..|segs| - 1] + [segs[|segs| - 1] + [line]])
  {
    var all := pre + segs;
    var m := |segs| - 1;
    assert all[..|all| - 1] == pre + segs[..m];
    assert all[|all| - 1] == segs[m];
  }

  lemma SegmentsAfterBlankStep(prefix: seq<string>, lines: seq<string>)
    requires lines != []
    requires Segments(prefix + lines[..|lines| - 1]) == TerminatedBlocks(prefix) + Segments(lines[..|lines| - 1])
    ensures Segments(prefix + lines) == TerminatedBlocks(prefix) + Segments(lines)
  {
    var pre := TerminatedBlocks(prefix);
    var front := lines[..|lines| - 1];
    var line := lines[|lines| - 1];
    assert lines == front + [line];
    assert prefix + lines == (prefix + front) + [line];
    var segs := Segments(front);
    SegmentsStep(prefix + front, line);
    SegmentsStep(front, line);
    if IsBlank(line) {
      AppendEmptyGroup(pre, segs);
    } else {
      ExtendLastGroup(pre, segs, line);
    }
  }

  /** After a whitespace-only line every group is closed and the open group
      is empty. */
  lemma SegmentsOfClosed(prefix: seq<string>)
    requires prefix != [] && IsBlank(prefix[|prefix| - 1])
    ensures Segments(prefix) == TerminatedBlocks(prefix) + [[]]
  {
    SegmentsStep(prefix[..|prefix| - 1], prefix[|prefix| - 1]);
    assert prefix[..|prefix| - 1] + [prefix[|prefix| - 1]] == prefix;
  }

  lemma {:induction false} SegmentsAfterBlank(prefix: seq<string>, lines: seq<string>)
    requires prefix != [] && IsBlank(prefix[|prefix| - 1])
    ensures Segments(prefix + lines) == TerminatedBlocks(prefix) + Segments(lines)
  {
    if lines == [] {
      SegmentsOfClosed(prefix);
      assert prefix + lines == prefix;
    } else {
      SegmentsAfterBlank(prefix, lines[..|lines| - 1]);
      SegmentsAfterBlankStep(prefix, lines);
    }
  }

  /** Input cut after a whitespace-only line parses as its two halves
      parsed apart, one after the other. */
  lemma ParseSplitsAtBlank(prefix: seq<string>, lines: seq<string>)
    requires prefix != [] && IsBlank(prefix[|prefix| - 1])
    ensures ParseBlocks(prefix + lines) == ParseBlocks(prefix) + ParseBlocks(lines)
  {
    SegmentsAfterBlank(prefix, lines);
    var pre := TerminatedBlocks(prefix);
    var segs := Segments(lines);
    assert TerminatedBlocks(prefix + lines) == pre + TerminatedBlocks(lines);
    MapAppend(pre, TerminatedBlocks(lines), Build);
    FilterAppend(Map(pre, Build), Map(TerminatedBlocks(lines), Build), IsNonEmpty);
  }

  /** Whitespace-only lines at the start, or right after another
      whitespace-only line, never produce a record. */
  lemma BlankLinesAddNoRecord(lines: seq<string>, blank: string)
    requires IsBlank(blank)
    ensures ParseBlocks([blank] + lines) == ParseBlocks(lines)
    ensures lines != [] && IsBlank(lines[|lines| - 1]) ==> ParseBlocks(lines + [blank]) == ParseBlocks(lines)
  {
    ParseBlankLine([], blank);
    assert [] + [blank] == [blank];
    ParseSplitsAtBlank([blank], lines);
    if lines != [] && IsBlank(lines[|lines| - 1]) {
      ParseSplitsAtBlank(lines, [blank]);
    }
  }

  lemma {:induction false} SegmentsOfText(lines: seq<string>)
    requires forall i :: 0 <= i < |lines| ==> !IsBlank(lines[i])
    ensures Segments(lines) == [lines]
  {
    if lines != [] {
      var n := |lines| - 1;
      var front := lines[..n];
      assert forall i :: 0 <= i < |front| ==> front[i] == lines[i];
      SegmentsOfText(front);
      SegmentsStep(front, lines[n]);
      assert front + [lines[n]] == lines;
    }
  }

  /** A block closed by a whitespace-only line and followed only by an
      unclosed block parses as the first block's record alone (or nothing
      when that block set no field). */
  lemma ParseOneClosedBlock(block: seq<string>, blank: string, tail: seq<string>)
    requires forall i :: 0 <= i < |block| ==> !IsBlank(block[i])
    requires IsBlank(blank)
    requires forall i :: 0 <= i < |tail| ==> !IsBlank(tail[i])
    ensures ParseBlocks(block + [blank] + tail) ==
              if IsNonEmpty(Build(block)) then [Build(block)] else []
  {
    FinalBlockDropped([], block);
    assert [] + block == block;
    SegmentsOfText(block);
    assert ParseBlocks([]) == [];
    ParseBlankLine(block, blank);
    FinalBlockDropped(block + [blank], tail);
  }

  /** A `name: value` line whose name starts with a non-space is never
      taken for a separator. */
  lemma FieldLineNotBlank(name: string, value: string)
    requires IsStripped(name)
    ensures !IsBlank(name + ": " + value)
  {
    assert (name + ": " + value)[0] == name[0];
  }

  /** A listing whose first block is two `name: value` lines closed by an
      empty line, followed by an unclosed block, parses as that one record. */
  lemma ParseTwoFieldBlock(name1: string, value1: string, name2: string, value2: string, tail: seq<string>)
    requires ':' !in name1 && IsStripped(name1) && IsStripped(value1)
    requires ':' !in name2 && IsStripped(name2) && IsStripped(value2)
    requires forall i :: 0 <= i < |tail| ==> !IsBlank(tail[i])
    ensures ParseBlocks([name1 + ": " + value1, name2 + ": " + value2, ""] + tail) ==
              [map[name1 := value1, name2 := value2]]
  {
    var block := [name1 + ": " + value1, name2 + ": " + value2];
    assert [name1 + ": " + value1, name2 + ": " + value2, ""] + tail == block + [""] + tail;
    FieldLineNotBlank(name1, value1);
    FieldLineNotBlank(name2, value2);
    assert forall i :: 0 <= i < |block| ==> !IsBlank(block[i]);
    assert IsBlank("");
    ParseOneClosedBlock(block, "", tail);
    BuildTwoFields(name1, value1, name2, value2);
    assert name1 in Build(block);
  }

  /** Line `i` of the input, as the parse loop reads it. */
  lemma ParseStep(lines: seq<string>, i: nat)
    requires i < |lines|
    ensures IsBlank(lines[i]) ==>
              && ParseBlocks(lines[..i + 1]) ==
                   ParseBlocks(lines[..i]) + (if IsNonEmpty(Pending(lines[..i])) then [Pending(lines[..i])] else [])
              && Pending(lines[..i + 1]) == map[]
    ensures !IsBlank(lines[i]) ==>
              && ParseBlocks(lines[..i + 1]) == ParseBlocks(lines[..i])
              && Pending(lines[..i + 1]) == Assign(Pending(lines[..i]), lines[i])
  {
    assert lines[..i + 1] == lines[..i] + [lines[i]];
    if IsBlank(lines[i]) {
      ParseBlankLine(lines[..i], lines[i]);
    } else {
      ParseTextLine(lines[..i], lines[i]);
    }
  }

  /** The parse loop of `win_services`: it walks the lines with one
      accumulator and emits it at each whitespace-only line. */
  method CollectServices(lines: seq<string>) returns (services: seq<Record>)
    ensures services == ParseBlocks(lines)
  {
    services := [];
    var service: Record := map[];
    var i := 0;
    while i < |lines|
      invariant 0 <= i <= |lines|
      invariant services == ParseBlocks(lines[..i])
      invariant service == Pending(lines[..i])
    {
      var line := lines[i];
      ParseStep(lines, i);
      if Trim(line) == "" {
        if service != map[] {
          services := services + [service];
        }
        service := map[];
      } else {
        AssignAt(service, line);
        if ':' in line {
          var parts := SplitOnce(line, ':');
          service := service[Trim(parts.0) := Trim(parts.1)];
        }
      }
      i := i + 1;
    }
    assert lines[..i] == lines;
  }
}
