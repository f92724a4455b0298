/** The service audit (`win_services`): parse the service listing into
    records, keep the watched services, pick the stopped ones and report
    them. */
module ServiceAudit {
  import opened Wrappers
  import opened Text
  import opened Seqs
  import opened BlockParser

  const NameField := "SERVICE_NAME"
  const StateField := "STATE"
  const StoppedPrefix := "STOPPED"

  const QueryFailed := "Failed to query services – try running as Administrator."
  const StoppedHeader := "Stopped services:"
  const AllRunning := "All watched services are running."

  /** `[w.lower() for w in watch_list]` */
  function LowerAll(watch: seq<string>): seq<string> {
    Map(watch, Lower)
  }

  /** The service's name (`""` when it has none), lower-cased, is one of the
      lower-cased watch-list entries. */
  predicate IsWatched(svc: Record, watch: seq<string>) {
    Lower(Lookup(svc, NameField, "")) in LowerAll(watch)
  }

  /** Some watch-list entry names the service, case ignored. */
  predicate NamedIn(svc: Record, watch: seq<string>) {
    exists w :: w in watch && Lower(w) == Lower(Lookup(svc, NameField, ""))
  }

  lemma WatchedIffNamed(svc: Record, watch: seq<string>)
    ensures IsWatched(svc, watch) <==> NamedIn(svc, watch)
  {
    var name := Lower(Lookup(svc, NameField, ""));
    var lowered := LowerAll(watch);
    if IsWatched(svc, watch) {
      var k :| 0 <= k < |lowered| && lowered[k] == name;
      assert watch[k] in watch;
    }
    if NamedIn(svc, watch) {
      var w :| w in watch && Lower(w) == name;
      var k :| 0 <= k < |watch| && watch[k] == w;
      assert lowered[k] == name;
    }
  }

  /** The test of the watch-list comprehension, as a function of one
      service. */
  function WatchedBy(watch: seq<string>): Record -> bool {
    svc => IsWatched(svc, watch)
  }

  /** The watch-list filter: with no watch list every service is kept;
      otherwise exactly the services some entry names, case ignored. */
  function FilterWatched(services: seq<Record>, watch: seq<string>): (filtered: seq<Record>)
    ensures watch == [] ==> filtered == services
    ensures |filtered| <= |services|
    ensures watch != [] ==> forall svc :: svc in filtered <==> svc in services && NamedIn(svc, watch)
  {
    if watch == [] then services
    else
      var r := Filter(services, WatchedBy(watch));
      assert forall svc :: svc in r <==> svc in services && NamedIn(svc, watch) by {
        forall svc ensures svc in r <==> svc in services && NamedIn(svc, watch) {
          WatchedIffNamed(svc, watch);
          if svc in r {
            var i :| 0 <= i < |r| && r[i] == svc;
          }
          if svc in services && IsWatched(svc, watch) {
            var i :| 0 <= i < |services| && services[i] == svc;
          }
        }
      }
      r
  }

  /** `svc.get("STATE", "").startswith("STOPPED")`, case-sensitive. */
  predicate IsStopped(svc: Record) {
    StartsWith(Lookup(svc, StateField, ""), StoppedPrefix)
  }

  /** The stopped services: exactly those that have a state and whose state
      begins with `STOPPED`; a service without a state is never listed. */
  function Stopped(filtered: seq<Record>): (stopped: seq<Record>)
    ensures |stopped| <= |filtered|
    ensures forall svc :: svc in stopped <==>
              svc in filtered && StateField in svc && StartsWith(svc[StateField], StoppedPrefix)
  {
    var r := Filter(filtered, IsStopped);
    assert forall svc :: svc in r <==> svc in filtered && IsStopped(svc) by {
      forall svc ensures svc in r <==> svc in filtered && IsStopped(svc) {
        if svc in r {
          var i :| 0 <= i < |r| && r[i] == svc;
        }
        if svc in filtered && IsStopped(svc) {
          var i :| 0 <= i < |filtered| && filtered[i] == svc;
        }
      }
    }
    r
  }

  /** The line printed for one stopped service. */
  function StoppedLine(svc: Record): string {
    "  " + Lookup(svc, NameField, "?")
  }

  /** What the audit prints after parsing: the stopped services under a
      header, or the single all-running line. */
  function ServiceReport(stopped: seq<Record>): (lines: seq<string>)
    ensures stopped == [] ==> lines == [AllRunning]
    ensures stopped != [] ==> |lines| == |stopped| + 1 && lines[0] == StoppedHeader
    ensures forall i :: 0 <= i < |stopped| ==>
              |lines| == |stopped| + 1 && StartsWith(lines[i + 1], "  ") &&
              lines[i + 1][2..] == Lookup(stopped[i], NameField, "?")
  {
    if stopped == [] then [AllRunning]
    else
      var rows := Map(stopped, StoppedLine);
      forall i | 0 <= i < |stopped|
        ensures StartsWith(rows[i], "  ") && rows[i][2..] == Lookup(stopped[i], NameField, "?")
      {
        IndentedLine(Lookup(stopped[i], NameField, "?"));
      }
      [StoppedHeader] + rows
  }

  lemma IndentedLine(name: string)
    ensures StartsWith("  " + name, "  ") && ("  " + name)[2..] == name
  {
  }

  /** The whole audit over the command's output; `None` stands for the
      command failing. The corrective start of stopped services is not
      modelled. */
  function Audit(output: Option<seq<string>>, watch: seq<string>): (report: seq<string>)
    ensures output.None? ==> report == [QueryFailed]
    ensures output.Some? ==> report == [AllRunning] || (|report| >= 2 && report[0] == StoppedHeader)
  {
    match output
    case None => [QueryFailed]
    case Some(lines) => ServiceReport(Stopped(FilterWatched(ParseBlocks(lines), watch)))
  }

  /** A failed query prints its one message; otherwise the audit reports
      "all running" exactly when none of the watched services it parsed is
      stopped, and else lists one line per stopped service. */
  lemma AuditOutcome(output: Option<seq<string>>, watch: seq<string>)
    ensures output.None? ==> Audit(output, watch) == [QueryFailed]
    ensures output.Some? ==>
              var watched := FilterWatched(ParseBlocks(output.value), watch);
              (Audit(output, watch) == [AllRunning] <==> forall svc :: svc in watched ==> !IsStopped(svc))
    ensures output.Some? && Audit(output, watch) != [AllRunning] ==>
              Audit(output, watch)[0] == StoppedHeader &&
              |Audit(output, watch)| == |Stopped(FilterWatched(ParseBlocks(output.value), watch))| + 1
  {
    if output.Some? {
      var watched := FilterWatched(ParseBlocks(output.value), watch);
      var stopped := Stopped(watched);
      if stopped != [] {
        assert stopped[0] in stopped;
        assert ServiceReport(stopped)[0] == StoppedHeader;
        assert StoppedHeader != AllRunning by {
          assert StoppedHeader[0] == 'S' && AllRunning[0] == 'A';
        }
      } else {
        forall svc | svc in watched ensures !IsStopped(svc) {
          assert svc !in stopped;
        }
      }
    }
  }

  /** The watched services are the parsed ones in listing order, repeats
      included: each is the parsed service at a strictly later position
      than the one before, and every service some entry names (every
      service, with no watch list) is among them. */
  lemma WatchedInOrder(services: seq<Record>, watch: seq<string>) returns (idx: seq<nat>)
    ensures |idx| == |FilterWatched(services, watch)|
    ensures forall i :: 0 <= i < |idx| ==>
              idx[i] < |services| && FilterWatched(services, watch)[i] == services[idx[i]]
    ensures forall i, j :: 0 <= i < j < |idx| ==> idx[i] < idx[j]
    ensures forall k :: 0 <= k < |services| && (watch == [] || NamedIn(services[k], watch)) ==> k in idx
  {
    if watch == [] {
      idx := seq(|services|, i requires 0 <= i < |services| => i);
      forall k | 0 <= k < |services| ensures k in idx {
        assert idx[k] == k;
      }
    } else {
      idx := FilterSelects(services, WatchedBy(watch));
      forall k | 0 <= k < |services| && NamedIn(services[k], watch) ensures k in idx {
        WatchedIffNamed(services[k], watch);
        assert WatchedBy(watch)(services[k]);
      }
    }
  }

  /** The stopped services keep the order of the watched ones: each is the
      watched service at a strictly later position than the one before, and
      every stopped watched service is among them. */
  lemma StoppedInOrder(services: seq<Record>) returns (idx: seq<nat>)
    ensures |idx| == |Stopped(services)|
    ensures forall i :: 0 <= i < |idx| ==> idx[i] < |services| && Stopped(services)[i] == services[idx[i]]
    ensures forall i, j :: 0 <= i < j < |idx| ==> idx[i] < idx[j]
    ensures forall k :: 0 <= k < |services| && IsStopped(services[k]) ==> k in idx
  {
    idx := FilterSelects(services, IsStopped);
  }

  /** A service whose name differs only in case from a watch-list entry is
      kept, wherever it stands in the listing. */
  lemma WatchIgnoresCase(services: seq<Record>, svc: Record, watch: seq<string>, entry: string)
    requires svc in services && entry in watch
    requires NameField in svc && Lower(svc[NameField]) == Lower(entry)
    ensures svc in FilterWatched(services, watch)
  {
    assert NamedIn(svc, watch);
  }
}

module ServiceExample {
  import opened Wrappers
  import opened Text
  import opened BlockParser
  import opened ServiceAudit

  function Listing(name: string, state: string, other: string, otherState: string): seq<string> {
    [NameField + ": " + name, StateField + ": " + state, "", NameField + ": " + other, StateField + ": " + otherState]
  }

  lemma FieldNamesStripped()
    ensures ':' !in NameField && IsStripped(NameField)
    ensures ':' !in StateField && IsStripped(StateField)
  {
  }

  lemma ListingParsed(name: string, state: string, other: string, otherState: string)
    requires IsStripped(name) && IsStripped(state) && IsStripped(other) && IsStripped(otherState)
    ensures ParseBlocks(Listing(name, state, other, otherState)) == [map[NameField := name, StateField := state]]
  {
    FieldNamesStripped();
    var tail := [NameField + ": " + other, StateField + ": " + otherState];
    FieldLineNotBlank(NameField, other);
    FieldLineNotBlank(StateField, otherState);
    assert Listing(name, state, other, otherState) == [NameField + ": " + name, StateField + ": " + state, ""] + tail;
    ParseTwoFieldBlock(NameField, name, StateField, state, tail);
  }

  /** Two services, the second not followed by a blank line: only the first
      is parsed, so with no watch list a stopped first service is the only
      one reported, whatever the second one's state. */
  lemma FirstServiceReported(name: string, state: string, other: string, otherState: string)
    requires IsStripped(name) && IsStripped(state) && IsStripped(other) && IsStripped(otherState)
    requires StartsWith(state, StoppedPrefix)
    ensures Audit(Some(Listing(name, state, other, otherState)), []) == [StoppedHeader, "  " + name]
  {
    ListingParsed(name, state, other, otherState);
    var rec := map[NameField := name, StateField := state];
    assert IsStopped(rec);
    assert Stopped([rec]) == [rec] by {
      assert [rec][..0] == [];
    }
  }
}
