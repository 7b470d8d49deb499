/** One directory watcher (wirebot/watcher.c): its baseline listing, the listing being received,
    and the difference between the two. */
module Watchers {
  import opened Text

  const PARTIAL_SUFFIX := "WiredTransfer"

  /** The text after the last dot, empty without one. */
  function PathExtension(path: string): (extension: string)
    ensures |extension| <= |path| && ('.' in path ==> |extension| < |path|)
  {
    var dot := LastIndexOf(path, '.');
    if dot.None? then "" else path[dot.value + 1..]
  }

  lemma {:induction false} ExtensionAppended(stem: string, extension: string)
    requires '.' !in extension
    ensures PathExtension(stem + "." + extension) == extension
  {
    var path := stem + "." + extension;
    assert path[|stem|] == '.' && path[|stem| + 1..] == extension;
  }

  /** `wi_string_by_deleting_path_extension`. */
  function WithoutExtension(path: string): string {
    if '.' in path then path[..|path| - |PathExtension(path)| - 1] else path
  }

  predicate IsPartial(path: string) {
    PathExtension(path) == PARTIAL_SUFFIX
  }

  datatype Event =
    | RemovalLogged(path: string)
    | AdditionLogged(path: string)
    | OutputRan(output: nat, path: string)

  function AddUnique(paths: seq<string>, path: string): seq<string> {
    if path in paths then paths else paths + [path]
  }

  predicate Distinct<T(==)>(s: seq<T>) {
    forall j, k :: 0 <= j < k < |s| ==> s[j] != s[k]
  }

  /** A listing as collected entry by entry. */
  function Collected(listing: seq<string>): (paths: seq<string>)
    ensures Distinct(paths)
    ensures forall p :: p in paths <==> p in listing
  {
    if listing == [] then []
    else
      var n := |listing| - 1;
      assert listing == listing[..n] + [listing[n]];
      AddUnique(Collected(listing[..n]), listing[n])
  }

  lemma {:induction false} CollectedStep(listing: seq<string>, path: string)
    ensures Collected(listing + [path]) == AddUnique(Collected(listing), path)
  {
    assert (listing + [path])[..|listing|] == listing;
  }

  lemma {:induction false} CollectedDistinct(files: seq<string>)
    requires Distinct(files)
    ensures Collected(files) == files
  {
    if files != [] {
      var n := |files| - 1;
      CollectedDistinct(files[..n]);
      assert files == files[..n] + [files[n]];
    }
  }

  // ----- The difference, as event sequences

  /** Every output once, in order. */
  function OutputRuns(path: string, outputs: nat): (r: seq<Event>)
    ensures |r| == outputs && forall k :: 0 <= k < outputs ==> r[k] == OutputRan(k, path)
  {
    if outputs == 0 then [] else OutputRuns(path, outputs - 1) + [OutputRan(outputs - 1, path)]
  }

  function RemovalsOf(path: string, newFiles: seq<string>): seq<Event> {
    if path !in newFiles && !IsPartial(path) then [RemovalLogged(path)] else []
  }

  function AdditionsOf(path: string, files: seq<string>, outputs: nat): seq<Event> {
    if path !in files && !IsPartial(path) && outputs > 0 then [AdditionLogged(path)] + OutputRuns(path, outputs) else []
  }

  function Removals(files: seq<string>, newFiles: seq<string>): seq<Event> {
    if files == [] then []
    else Removals(files[..|files| - 1], newFiles) + RemovalsOf(files[|files| - 1], newFiles)
  }

  function Additions(files: seq<string>, newFiles: seq<string>, outputs: nat): seq<Event> {
    if newFiles == [] then []
    else Additions(files, newFiles[..|newFiles| - 1], outputs) + AdditionsOf(newFiles[|newFiles| - 1], files, outputs)
  }

  function Difference(files: seq<string>, newFiles: seq<string>, outputs: nat): seq<Event> {
    Removals(files, newFiles) + Additions(files, newFiles, outputs)
  }

  // ----- How often one path appears in a difference

  function Times(trace: seq<Event>, event: Event): nat {
    multiset(trace)[event]
  }

  function Indicator(b: bool): nat {
    if b then 1 else 0
  }

  lemma {:induction false} TimesConcat(a: seq<Event>, b: seq<Event>, event: Event)
    ensures Times(a + b, event) == Times(a, event) + Times(b, event)
  {
    assert multiset(a + b) == multiset(a) + multiset(b);
  }

  lemma {:induction false} TimesOutputRuns(path: string, outputs: nat, event: Event)
    ensures Times(OutputRuns(path, outputs), event) ==
            Indicator(event.OutputRan? && event.path == path && event.output < outputs)
  {
    if outputs > 0 {
      TimesOutputRuns(path, outputs - 1, event);
      TimesConcat(OutputRuns(path, outputs - 1), [OutputRan(outputs - 1, path)], event);
    }
  }

  /** Logged by an addition of `path`: the log line itself or the run of one of the outputs. */
  predicate AnnouncesWith(event: Event, outputs: nat) {
    event.AdditionLogged? || (event.OutputRan? && event.output < outputs)
  }

  lemma {:induction false} TimesAdditionsOf(path: string, files: seq<string>, outputs: nat, event: Event)
    requires AnnouncesWith(event, outputs)
    ensures Times(AdditionsOf(path, files, outputs), event) ==
            Indicator(path == event.path && path !in files && !IsPartial(path) && outputs > 0)
  {
    if path !in files && !IsPartial(path) && outputs > 0 {
      TimesConcat([AdditionLogged(path)], OutputRuns(path, outputs), event);
      TimesOutputRuns(path, outputs, event);
    }
  }

  lemma {:induction false} TimesAdditions(files: seq<string>, newFiles: seq<string>, outputs: nat, event: Event)
    requires Distinct(newFiles) && AnnouncesWith(event, outputs)
    ensures Times(Additions(files, newFiles, outputs), event) ==
            Indicator(event.path in newFiles && event.path !in files && !IsPartial(event.path) && outputs > 0)
  {
    if newFiles != [] {
      var n := |newFiles| - 1;
      assert newFiles == newFiles[..n] + [newFiles[n]];
      TimesAdditions(files, newFiles[..n], outputs, event);
      TimesAdditionsOf(newFiles[n], files, outputs, event);
      TimesConcat(Additions(files, newFiles[..n], outputs), AdditionsOf(newFiles[n], files, outputs), event);
    }
  }

  lemma {:induction false} NoRemovalInAdditions(files: seq<string>, newFiles: seq<string>, outputs: nat, event: Event)
    requires event.RemovalLogged?
    ensures Times(Additions(files, newFiles, outputs), event) == 0
  {
    if newFiles != [] {
      var n := |newFiles| - 1;
      NoRemovalInAdditions(files, newFiles[..n], outputs, event);
      assert event !in OutputRuns(newFiles[n], outputs);
      TimesConcat(Additions(files, newFiles[..n], outputs), AdditionsOf(newFiles[n], files, outputs), event);
    }
  }

  lemma {:induction false} TimesRemovals(files: seq<string>, newFiles: seq<string>, event: Event)
    requires Distinct(files)
    ensures Times(Removals(files, newFiles), event) ==
            Indicator(event.RemovalLogged? && event.path in files && event.path !in newFiles && !IsPartial(event.path))
  {
    if files != [] {
      var n := |files| - 1;
      assert files == files[..n] + [files[n]];
      TimesRemovals(files[..n], newFiles, event);
      TimesConcat(Removals(files[..n], newFiles), RemovalsOf(files[n], newFiles), event);
    }
  }

  /** One comparison of two listings, for every path: announced once if it appeared, its removal
      logged once if it went, and neither otherwise. */
  lemma {:induction false} TimesDifference(files: seq<string>, newFiles: seq<string>, outputs: nat, event: Event)
    requires Distinct(files) && Distinct(newFiles)
    ensures AnnouncesWith(event, outputs) ==>
              Times(Difference(files, newFiles, outputs), event) ==
              Indicator(event.path in newFiles && event.path !in files && !IsPartial(event.path) && outputs > 0)
    ensures event.RemovalLogged? ==>
              Times(Difference(files, newFiles, outputs), event) ==
              Indicator(event.path in files && event.path !in newFiles && !IsPartial(event.path))
  {
    TimesConcat(Removals(files, newFiles), Additions(files, newFiles, outputs), event);
    TimesRemovals(files, newFiles, event);
    if AnnouncesWith(event, outputs) {
      TimesAdditions(files, newFiles, outputs, event);
    } else if event.RemovalLogged? {
      NoRemovalInAdditions(files, newFiles, outputs, event);
    }
  }

  /** Each addition is directly followed by the run of every output, once and in order. */
  predicate OutputsFollowAdditions(trace: seq<Event>, outputs: nat) {
    forall j :: 0 <= j < |trace| && trace[j].AdditionLogged? ==>
      j + 1 + outputs <= |trace| && trace[j + 1..j + 1 + outputs] == OutputRuns(trace[j].path, outputs)
  }

  lemma {:induction false} FollowConcat(a: seq<Event>, b: seq<Event>, outputs: nat)
    requires OutputsFollowAdditions(a, outputs) && OutputsFollowAdditions(b, outputs)
    ensures OutputsFollowAdditions(a + b, outputs)
  {
    forall j | 0 <= j < |a + b| && (a + b)[j].AdditionLogged?
      ensures j + 1 + outputs <= |a + b|
              && (a + b)[j + 1..j + 1 + outputs] == OutputRuns((a + b)[j].path, outputs)
    {
      if j < |a| {
        assert (a + b)[j + 1..j + 1 + outputs] == a[j + 1..j + 1 + outputs];
      } else {
        assert (a + b)[j] == b[j - |a|];
        assert (a + b)[j + 1..j + 1 + outputs] == b[j - |a| + 1..j - |a| + 1 + outputs];
      }
    }
  }

  lemma {:induction false} AdditionIsFollowed(path: string, files: seq<string>, outputs: nat)
    ensures OutputsFollowAdditions(AdditionsOf(path, files, outputs), outputs)
  {
    var last := AdditionsOf(path, files, outputs);
    assert last != [] ==> last[1..] == OutputRuns(path, outputs);
  }

  lemma {:induction false} AdditionsAreFollowed(files: seq<string>, newFiles: seq<string>, outputs: nat)
    ensures OutputsFollowAdditions(Additions(files, newFiles, outputs), outputs)
  {
    if newFiles != [] {
      var n := |newFiles| - 1;
      AdditionsAreFollowed(files, newFiles[..n], outputs);
      var last := AdditionsOf(newFiles[n], files, outputs);
      AdditionIsFollowed(newFiles[n], files, outputs);
      FollowConcat(Additions(files, newFiles[..n], outputs), last, outputs);
    }
  }

  lemma {:induction false} OnlyRemovals(files: seq<string>, newFiles: seq<string>)
    ensures forall e :: e in Removals(files, newFiles) ==> e.RemovalLogged?
  {
    if files != [] { OnlyRemovals(files[..|files| - 1], newFiles); }
  }

  lemma {:induction false} DifferenceIsFollowed(files: seq<string>, newFiles: seq<string>, outputs: nat)
    ensures OutputsFollowAdditions(Difference(files, newFiles, outputs), outputs)
  {
    var removals := Removals(files, newFiles);
    OnlyRemovals(files, newFiles);
    assert forall j :: 0 <= j < |removals| ==> removals[j] in removals;
    AdditionsAreFollowed(files, newFiles, outputs);
    FollowConcat(removals, Additions(files, newFiles, outputs), outputs);
  }

  /** The paths whose removal a trace logs, and those it logs as added. */
  function RemovedPaths(trace: seq<Event>): seq<string> {
    if trace == [] then []
    else
      var n := |trace| - 1;
      RemovedPaths(trace[..n]) + if trace[n].RemovalLogged? then [trace[n].path] else []
  }

  function AddedPaths(trace: seq<Event>): seq<string> {
    if trace == [] then []
    else
      var n := |trace| - 1;
      AddedPaths(trace[..n]) + if trace[n].AdditionLogged? then [trace[n].path] else []
  }

  lemma {:induction false} PathsOfConcat(a: seq<Event>, b: seq<Event>)
    ensures RemovedPaths(a + b) == RemovedPaths(a) + RemovedPaths(b)
    ensures AddedPaths(a + b) == AddedPaths(a) + AddedPaths(b)
  {
    if b == [] {
      assert a + b == a;
    } else {
      var n := |b| - 1;
      assert (a + b)[..|a + b| - 1] == a + b[..n];
      PathsOfConcat(a, b[..n]);
    }
  }

  lemma {:induction false} OutputRunsLogNothing(path: string, outputs: nat)
    ensures RemovedPaths(OutputRuns(path, outputs)) == [] && AddedPaths(OutputRuns(path, outputs)) == []
  {
    if outputs > 0 {
      OutputRunsLogNothing(path, outputs - 1);
      assert OutputRuns(path, outputs)[..outputs - 1] == OutputRuns(path, outputs - 1);
    }
  }

  /** The paths of one listing that the other lacks, in order, partial ones left out. */
  function Missing(listing: seq<string>, other: seq<string>): seq<string> {
    if listing == [] then []
    else
      var n := |listing| - 1;
      Missing(listing[..n], other) + if listing[n] !in other && !IsPartial(listing[n]) then [listing[n]] else []
  }

  lemma {:induction false} PathsOfRemovals(files: seq<string>, newFiles: seq<string>)
    ensures RemovedPaths(Removals(files, newFiles)) == Missing(files, newFiles)
    ensures AddedPaths(Removals(files, newFiles)) == []
  {
    if files != [] {
      var n := |files| - 1;
      var last := RemovalsOf(files[n], newFiles);
      PathsOfRemovals(files[..n], newFiles);
      PathsOfConcat(Removals(files[..n], newFiles), last);
      assert last != [] ==> last[..0] == [];
      assert RemovedPaths(last) == (if last == [] then [] else [files[n]]) && AddedPaths(last) == [];
    }
  }

  lemma {:induction false} PathsOfAddition(path: string, files: seq<string>, outputs: nat)
    ensures var trace := AdditionsOf(path, files, outputs);
            AddedPaths(trace) == (if trace == [] then [] else [path]) && RemovedPaths(trace) == []
  {
    if AdditionsOf(path, files, outputs) != [] {
      var first := [AdditionLogged(path)];
      assert first[..0] == [] && AddedPaths(first) == [path] && RemovedPaths(first) == [];
      PathsOfConcat(first, OutputRuns(path, outputs));
      OutputRunsLogNothing(path, outputs);
    }
  }

  lemma {:induction false} PathsOfAdditions(files: seq<string>, newFiles: seq<string>, outputs: nat)
    ensures AddedPaths(Additions(files, newFiles, outputs)) == if outputs > 0 then Missing(newFiles, files) else []
    ensures RemovedPaths(Additions(files, newFiles, outputs)) == []
  {
    if newFiles != [] {
      var n := |newFiles| - 1;
      PathsOfAdditions(files, newFiles[..n], outputs);
      PathsOfConcat(Additions(files, newFiles[..n], outputs), AdditionsOf(newFiles[n], files, outputs));
      PathsOfAddition(newFiles[n], files, outputs);
    }
  }

  lemma {:induction false} NoPathNoRemoval(trace: seq<Event>)
    requires RemovedPaths(trace) == []
    ensures forall k :: 0 <= k < |trace| ==> !trace[k].RemovalLogged?
  {
    if trace != [] {
      var n := |trace| - 1;
      NoPathNoRemoval(trace[..n]);
      assert forall k :: 0 <= k < n ==> trace[k] == trace[..n][k];
    }
  }

  lemma {:induction false} RemovalsComeFirst(files: seq<string>, newFiles: seq<string>, outputs: nat)
    ensures var trace := Difference(files, newFiles, outputs);
            forall j, k :: 0 <= j < k < |trace| && trace[k].RemovalLogged? ==> trace[j].RemovalLogged?
  {
    var removals, additions := Removals(files, newFiles), Additions(files, newFiles, outputs);
    PathsOfAdditions(files, newFiles, outputs);
    OnlyRemovals(files, newFiles);
    NoPathNoRemoval(additions);
    assert forall j :: 0 <= j < |removals| ==> removals[j] in removals;
  }

  /** What one comparison logs, in order: first the removal of every path the new listing lacks, as
      the old listing has them, then the addition of every path the old one lacks, as the new one has
      them, if there are outputs. */
  lemma {:induction false} DifferenceIsInOrder(files: seq<string>, newFiles: seq<string>, outputs: nat)
    ensures var trace := Difference(files, newFiles, outputs);
            && RemovedPaths(trace) == Missing(files, newFiles)
            && AddedPaths(trace) == (if outputs > 0 then Missing(newFiles, files) else [])
            && (forall j, k :: 0 <= j < k < |trace| && trace[k].RemovalLogged? ==> trace[j].RemovalLogged?)
  {
    var removals, additions := Removals(files, newFiles), Additions(files, newFiles, outputs);
    PathsOfRemovals(files, newFiles);
    PathsOfAdditions(files, newFiles, outputs);
    PathsOfConcat(removals, additions);
    RemovalsComeFirst(files, newFiles, outputs);
  }

  // ----- Any number of complete listings

  /** The baseline and the whole log after complete listings, each compared with its predecessor. */
  function Compared(files: seq<string>, listings: seq<seq<string>>, outputs: nat): (seq<string>, seq<Event>)
    decreases |listings|
  {
    if listings == [] then (files, [])
    else
      var next := Collected(listings[0]);
      var (last, trace) := Compared(next, listings[1..], outputs);
      (last, Difference(files, next, outputs) + trace)
  }

  /** How many of the listings contain the path while their predecessor does not. */
  function Arrivals(present: bool, listings: seq<seq<string>>, path: string): nat
    decreases |listings|
  {
    if listings == [] then 0
    else Indicator(path in listings[0] && !present) + Arrivals(path in listings[0], listings[1..], path)
  }

  function Departures(present: bool, listings: seq<seq<string>>, path: string): nat
    decreases |listings|
  {
    if listings == [] then 0
    else Indicator(path !in listings[0] && present) + Departures(path in listings[0], listings[1..], path)
  }

  function PresentAfter(present: bool, listings: seq<seq<string>>, path: string): bool {
    if listings == [] then present else path in listings[|listings| - 1]
  }

  /** Over any complete listings a path is announced, and each output run for it, exactly once per
      arrival, and its removal is logged exactly once per departure. */
  lemma {:induction false} AnnouncedOncePerArrival(
      files: seq<string>, listings: seq<seq<string>>, outputs: nat, event: Event)
    requires Distinct(files) && !IsPartial(event.path)
    ensures var trace := Compared(files, listings, outputs).1;
            && (AnnouncesWith(event, outputs) && outputs > 0 ==>
                Times(trace, event) == Arrivals(event.path in files, listings, event.path))
            && (event.RemovalLogged? ==>
                Times(trace, event) == Departures(event.path in files, listings, event.path))
            && (event.AdditionLogged? && outputs == 0 ==> Times(trace, event) == 0)
    decreases |listings|
  {
    if listings != [] {
      var next := Collected(listings[0]);
      AnnouncedOncePerArrival(next, listings[1..], outputs, event);
      TimesDifference(files, next, outputs, event);
      TimesConcat(Difference(files, next, outputs), Compared(next, listings[1..], outputs).1, event);
    }
  }

  /** Files still being uploaded are never announced and their removal is never logged. */
  lemma {:induction false} PartialFilesAreSilent(
      files: seq<string>, listings: seq<seq<string>>, outputs: nat, event: Event)
    requires Distinct(files) && IsPartial(event.path) && (event.OutputRan? ==> event.output < outputs)
    ensures Times(Compared(files, listings, outputs).1, event) == 0
    decreases |listings|
  {
    if listings != [] {
      var next := Collected(listings[0]);
      PartialFilesAreSilent(next, listings[1..], outputs, event);
      TimesDifference(files, next, outputs, event);
      TimesConcat(Difference(files, next, outputs), Compared(next, listings[1..], outputs).1, event);
    }
  }

  lemma {:induction false} EveryAdditionRunsItsOutputs(files: seq<string>, listings: seq<seq<string>>, outputs: nat)
    ensures OutputsFollowAdditions(Compared(files, listings, outputs).1, outputs)
    decreases |listings|
  {
    if listings != [] {
      var next := Collected(listings[0]);
      EveryAdditionRunsItsOutputs(next, listings[1..], outputs);
      DifferenceIsFollowed(files, next, outputs);
      FollowConcat(Difference(files, next, outputs), Compared(next, listings[1..], outputs).1, outputs);
    }
  }

  lemma {:induction false} ArrivalsMinusDepartures(present: bool, listings: seq<seq<string>>, path: string)
    ensures Arrivals(present, listings, path) + Indicator(present) ==
            Departures(present, listings, path) + Indicator(PresentAfter(present, listings, path))
    decreases |listings|
  {
    if listings != [] {
      ArrivalsMinusDepartures(path in listings[0], listings[1..], path);
    }
  }

  /** The log balances: additions minus removals of a path is its presence in the last listing
      minus its presence in the baseline. A watcher without outputs logs removals but no additions,
      so for it the log balances exactly when the path never arrives. */
  lemma {:induction false} LogBalances(files: seq<string>, listings: seq<seq<string>>, outputs: nat, path: string)
    requires Distinct(files) && !IsPartial(path)
    ensures var trace := Compared(files, listings, outputs).1;
            Times(trace, AdditionLogged(path)) - Times(trace, RemovalLogged(path)) ==
            Indicator(PresentAfter(path in files, listings, path)) - Indicator(path in files)
            <==> outputs > 0 || Arrivals(path in files, listings, path) == 0
  {
    AnnouncedOncePerArrival(files, listings, outputs, AdditionLogged(path));
    AnnouncedOncePerArrival(files, listings, outputs, RemovalLogged(path));
    ArrivalsMinusDepartures(path in files, listings, path);
  }

  /** A path of the baseline that stays in every listing is never announced. */
  lemma {:induction false} StayingIsNotAnArrival(listings: seq<seq<string>>, path: string)
    requires forall l :: l in listings ==> path in l
    ensures Arrivals(true, listings, path) == 0
    decreases |listings|
  {
    if listings != [] {
      StayingIsNotAnArrival(listings[1..], path);
    }
  }

  // ----- The watcher object

  class Watcher {
    const activated: bool
    const path: string
    const outputs: nat
    var files: seq<string>
    var newFiles: seq<string>

    constructor (activated: bool, path: string, outputs: nat)
      ensures this.activated == activated && this.path == path && this.outputs == outputs
      ensures files == [] && newFiles == []
    {
      this.activated, this.path, this.outputs := activated, path, outputs;
      files, newFiles := [], [];
    }

    method AddFile(path: string) returns (added: bool)
      modifies this`files
      ensures files == AddUnique(old(files), path) && added == (path !in old(files))
    {
      if path !in files {
        files := files + [path];
        return true;
      }
      return false;
    }

    method AddNewFile(path: string) returns (added: bool)
      modifies this`newFiles
      ensures newFiles == AddUnique(old(newFiles), path) && added == (path !in old(newFiles))
    {
      if path !in newFiles {
        newFiles := newFiles + [path];
        return true;
      }
      return false;
    }

    method LogRemovals() returns (trace: seq<Event>)
      ensures trace == Removals(files, newFiles)
    {
      trace := [];
      for k := 0 to |files|
        invariant trace == Removals(files[..k], newFiles)
      {
        assert files[..k + 1][..k] == files[..k];
        var path := files[k];
        if path !in newFiles {
          if PathExtension(path) != PARTIAL_SUFFIX {
            trace := trace + [RemovalLogged(path)];
          }
        }
      }
      assert files[..|files|] == files;
    }

    method Announce(path: string) returns (trace: seq<Event>)
      ensures trace == if outputs > 0 then [AdditionLogged(path)] + OutputRuns(path, outputs) else []
    {
      trace := [];
      if outputs > 0 {
        trace := [AdditionLogged(path)];
        for i := 0 to outputs
          invariant trace == [AdditionLogged(path)] + OutputRuns(path, i)
        {
          trace := trace + [OutputRan(i, path)];
        }
      }
    }

    method LogAdditions() returns (trace: seq<Event>)
      ensures trace == Additions(files, newFiles, outputs)
    {
      trace := [];
      for k := 0 to |newFiles|
        invariant trace == Additions(files, newFiles[..k], outputs)
      {
        assert newFiles[..k + 1][..k] == newFiles[..k];
        var path := newFiles[k];
        if path !in files {
          if PathExtension(path) != PARTIAL_SUFFIX {
            var announced := Announce(path);
            trace := trace + announced;
          }
        }
      }
      assert newFiles[..|newFiles|] == newFiles;
    }

    /** Logs what went, announces what came, and makes the new listing the baseline. */
    method FilesDiff() returns (trace: seq<Event>)
      modifies this`files, this`newFiles
      ensures trace == Difference(old(files), old(newFiles), outputs)
      ensures files == old(newFiles) && newFiles == []
    {
      var removals := LogRemovals();
      var additions := LogAdditions();
      trace := removals + additions;
      files := newFiles;
      newFiles := [];
    }
  }
}
