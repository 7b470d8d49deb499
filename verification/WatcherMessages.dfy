/** The directory handlers of wirebot/messages.c: all watchers share one "subscribing" flag. */
module WatcherMessages {
  import opened Sequences
  import opened Text
  import opened Watchers

  datatype FileMessage =
    | FileListed(path: string)
    | ListDone(path: string)
    | DirectoryChanged(path: string)

  /** The directory part of a path. */
  function Dirname(path: string): string {
    match LastIndexOf(path, '/')
    case None => ""
    case Some(0) => "/"
    case Some(k) => path[..k]
  }

  /** A file belongs to the directory it is listed in. */
  lemma {:induction false} DirnameOfChild(directory: string, name: string)
    requires directory != "" && '/' !in name
    ensures Dirname((if directory == "/" then "" else directory) + "/" + name) == directory
  {
    var base := if directory == "/" then "" else directory;
    var path, k := base + "/" + name, |base|;
    assert path[k] == '/' && path[k + 1..] == name && path[..k] == base;
  }

  // ----- The handlers on values

  datatype Watch = Watch(activated: bool, path: string, outputs: nat, files: seq<string>, newFiles: seq<string>)

  /** An event and the path of the watcher it belongs to; a listing request is sent for a watcher
      whose directory changed. */
  datatype Tagged = Logged(watcher: string, event: Event) | ListRequested(watcher: string)

  /** What subscribing sends for a directory. */
  datatype Request = ListDirectory(path: string) | SubscribeDirectory(path: string)

  datatype Net = Net(subscribing: bool, watches: seq<Watch>)

  /** The directory a message is about. */
  function Directory(message: FileMessage): string {
    match message
    case FileListed(path) => Dirname(path)
    case ListDone(path) => path
    case DirectoryChanged(path) => path
  }

  /** The first watcher on a directory. */
  function Find(watches: seq<Watch>, path: string): (r: Option<nat>)
    ensures r.None? ==> forall k :: 0 <= k < |watches| ==> watches[k].path != path
    ensures r.Some? ==> r.value < |watches| && watches[r.value].path == path
    ensures r.Some? ==> forall k :: 0 <= k < r.value ==> watches[k].path != path
  {
    if watches == [] then None
    else if watches[0].path == path then Some(0)
    else
      var r := Find(watches[1..], path);
      if r.None? then None else Some(r.value + 1)
  }

  lemma {:induction false} FindIsFirst(watches: seq<Watch>, path: string, r: Option<nat>)
    requires r.None? ==> forall k :: 0 <= k < |watches| ==> watches[k].path != path
    requires r.Some? ==> r.value < |watches| && watches[r.value].path == path
    requires r.Some? ==> forall k :: 0 <= k < r.value ==> watches[k].path != path
    ensures Find(watches, path) == r
  {
    var found := Find(watches, path);
    if found.Some? && r.Some? {
      assert found.value >= r.value && r.value >= found.value;
    }
  }

  function Tag(watcher: string, trace: seq<Event>): (r: seq<Tagged>)
    ensures |r| == |trace| && forall k :: 0 <= k < |r| ==> r[k] == Logged(watcher, trace[k])
  {
    seq(|trace|, k requires 0 <= k < |trace| => Logged(watcher, trace[k]))
  }

  /** What one message does to the watcher on its directory. */
  function WatchStep(subscribing: bool, watch: Watch, message: FileMessage): (r: (Watch, seq<Tagged>))
    ensures r.0.path == watch.path
  {
    if !watch.activated then (watch, [])
    else match message
      case FileListed(path) =>
        (if subscribing then watch.(files := AddUnique(watch.files, path))
         else watch.(newFiles := AddUnique(watch.newFiles, path)), [])
      case ListDone(_) =>
        if subscribing then (watch, [])
        else (watch.(files := watch.newFiles, newFiles := []),
              Tag(watch.path, Difference(watch.files, watch.newFiles, watch.outputs)))
      case DirectoryChanged(path) => (watch, [ListRequested(path)])
  }

  function Step(net: Net, message: FileMessage): (Net, seq<Tagged>) {
    var subscribing := if message.DirectoryChanged? then false else net.subscribing;
    var k := Find(net.watches, Directory(message));
    if k.None? then (Net(subscribing, net.watches), [])
    else
      var (watch, trace) := WatchStep(subscribing, net.watches[k.value], message);
      (Net(subscribing, net.watches[k.value := watch]), trace)
  }

  lemma {:induction false} ChangeStep(net: Net, path: string)
    ensures var k := Find(net.watches, path);
            Step(net, DirectoryChanged(path)) ==
            (Net(false, net.watches), if k.Some? && net.watches[k.value].activated then [ListRequested(path)] else [])
  {
    var k := Find(net.watches, path);
    if k.Some? {
      assert net.watches[k.value := net.watches[k.value]] == net.watches;
    }
  }

  function Run(net: Net, messages: seq<FileMessage>): (Net, seq<Tagged>)
    decreases |messages|
  {
    if messages == [] then (net, [])
    else
      var (next, trace) := Step(net, messages[0]);
      var (last, rest) := Run(next, messages[1..]);
      (last, trace + rest)
  }

  // ----- One watcher's share of an interleaving

  predicate DistinctPaths(watches: seq<Watch>) {
    forall j, k :: 0 <= j < k < |watches| ==> watches[j].path != watches[k].path
  }

  /** The messages about one directory, in order. */
  function Stream(messages: seq<FileMessage>, path: string): seq<FileMessage> {
    if messages == [] then []
    else (if Directory(messages[0]) == path then [messages[0]] else []) + Stream(messages[1..], path)
  }

  /** The log events of one watcher, in order. */
  function LogOf(trace: seq<Tagged>, path: string): seq<Event> {
    if trace == [] then []
    else (if trace[0].Logged? && trace[0].watcher == path then [trace[0].event] else []) + LogOf(trace[1..], path)
  }

  function WatchRun(subscribing: bool, watch: Watch, stream: seq<FileMessage>): (r: (Watch, seq<Event>))
    ensures r.0.path == watch.path
    decreases |stream|
  {
    if stream == [] then (watch, [])
    else
      var (next, trace) := WatchStep(subscribing, watch, stream[0]);
      var (last, rest) := WatchRun(subscribing, next, stream[1..]);
      (last, LogOf(trace, watch.path) + rest)
  }

  lemma {:induction false} LogOfConcat(a: seq<Tagged>, b: seq<Tagged>, path: string)
    ensures LogOf(a + b, path) == LogOf(a, path) + LogOf(b, path)
  {
    if a == [] {
      assert a + b == b;
    } else {
      assert (a + b)[1..] == a[1..] + b;
      LogOfConcat(a[1..], b, path);
    }
  }

  lemma {:induction false} LogOfTag(watcher: string, trace: seq<Event>, path: string)
    ensures LogOf(Tag(watcher, trace), path) == if watcher == path then trace else []
  {
    if trace != [] {
      assert Tag(watcher, trace)[1..] == Tag(watcher, trace[1..]);
      LogOfTag(watcher, trace[1..], path);
    }
  }

  /** A watcher's step on a message about its directory, with its own log events. */
  function SeenOn(subscribing: bool, watch: Watch, message: FileMessage): (Watch, seq<Event>) {
    var (next, trace) := WatchStep(subscribing, watch, message);
    (next, LogOf(trace, watch.path))
  }

  /** One message of the interleaving as one watcher sees it. */
  function SeenBy(subscribing: bool, watch: Watch, message: FileMessage): (Watch, seq<Event>) {
    if Directory(message) == watch.path then SeenOn(subscribing, watch, message) else (watch, [])
  }

  lemma {:induction false} StepIsLocal(net: Net, message: FileMessage, i: nat)
    requires DistinctPaths(net.watches) && i < |net.watches|
    requires net.subscribing ==> !message.DirectoryChanged?
    ensures var (next, trace) := Step(net, message);
            && next.subscribing == net.subscribing && DistinctPaths(next.watches)
            && |next.watches| == |net.watches| && next.watches[i].path == net.watches[i].path
            && (next.watches[i], LogOf(trace, net.watches[i].path)) == SeenBy(net.subscribing, net.watches[i], message)
  {
    var k := Find(net.watches, Directory(message));
    if k.Some? {
      var other := net.watches[k.value];
      LogOfTag(other.path, Difference(other.files, other.newFiles, other.outputs), net.watches[i].path);
    }
  }

  lemma {:induction false} WatchRunUnfolds(subscribing: bool, watch: Watch, messages: seq<FileMessage>)
    requires messages != []
    ensures var (next, log) := SeenBy(subscribing, watch, messages[0]);
            var (last, rest) := WatchRun(subscribing, next, Stream(messages[1..], watch.path));
            WatchRun(subscribing, watch, Stream(messages, watch.path)) == (last, log + rest)
  {
    var stream := Stream(messages, watch.path);
    if Directory(messages[0]) == watch.path {
      assert stream == [messages[0]] + Stream(messages[1..], watch.path);
      assert stream[1..] == Stream(messages[1..], watch.path);
    } else {
      assert stream == Stream(messages[1..], watch.path);
      assert [] + WatchRun(subscribing, watch, stream).1 == WatchRun(subscribing, watch, stream).1;
    }
  }

  /** While the flag keeps its value, what happens to a watcher is decided by its own stream. */
  lemma {:induction false} OwnStreamDecides(net: Net, messages: seq<FileMessage>, i: nat)
    requires DistinctPaths(net.watches) && i < |net.watches|
    requires net.subscribing ==> forall m :: m in messages ==> !m.DirectoryChanged?
    ensures var (last, trace) := Run(net, messages);
            var path := net.watches[i].path;
            && last.subscribing == net.subscribing
            && |last.watches| == |net.watches| && DistinctPaths(last.watches)
            && last.watches[i].path == path
            && (last.watches[i], LogOf(trace, path)) ==
               WatchRun(net.subscribing, net.watches[i], Stream(messages, path))
    decreases |messages|
  {
    if messages != [] {
      var path := net.watches[i].path;
      assert messages[0] in messages;
      StepIsLocal(net, messages[0], i);
      var (next, trace) := Step(net, messages[0]);
      OwnStreamDecides(next, messages[1..], i);
      LogOfConcat(trace, Run(next, messages[1..]).1, path);
      WatchRunUnfolds(net.subscribing, net.watches[i], messages);
    }
  }

  // ----- Every watcher, whatever the flag

  lemma {:induction false} StepLeavesDeactivated(net: Net, message: FileMessage, i: nat)
    requires DistinctPaths(net.watches) && i < |net.watches| && !net.watches[i].activated
    ensures var (next, trace) := Step(net, message);
            && |next.watches| == |net.watches| && DistinctPaths(next.watches)
            && next.watches[i] == net.watches[i]
            && (forall t :: t in trace ==> t.watcher != net.watches[i].path)
  {
    var k := Find(net.watches, Directory(message));
    if k.Some? {
      var trace := WatchStep(if message.DirectoryChanged? then false else net.subscribing,
                             net.watches[k.value], message).1;
      assert k.value == i ==> trace == [];
    }
  }

  /** A watcher that is not activated collects nothing, logs nothing and asks for nothing, over every
      run and whatever the flag is. */
  lemma {:induction false} DeactivatedIsUntouched(net: Net, messages: seq<FileMessage>, i: nat)
    requires DistinctPaths(net.watches) && i < |net.watches| && !net.watches[i].activated
    ensures var (last, trace) := Run(net, messages);
            && |last.watches| == |net.watches| && last.watches[i] == net.watches[i]
            && LogOf(trace, net.watches[i].path) == [] && ListRequested(net.watches[i].path) !in trace
    decreases |messages|
  {
    if messages != [] {
      var path := net.watches[i].path;
      var (next, trace) := Step(net, messages[0]);
      StepLeavesDeactivated(net, messages[0], i);
      DeactivatedIsUntouched(next, messages[1..], i);
      NotOfWatcher(trace, path);
      LogOfConcat(trace, Run(next, messages[1..]).1, path);
    }
  }

  lemma {:induction false} NotOfWatcher(trace: seq<Tagged>, path: string)
    requires forall t :: t in trace ==> t.watcher != path
    ensures LogOf(trace, path) == []
  {
    if trace != [] {
      assert trace[0] in trace;
      NotOfWatcher(trace[1..], path);
    }
  }

  lemma {:induction false} StepRequests(net: Net, message: FileMessage, i: nat)
    requires DistinctPaths(net.watches) && i < |net.watches|
    ensures var (next, trace) := Step(net, message);
            && |next.watches| == |net.watches| && DistinctPaths(next.watches)
            && next.watches[i].path == net.watches[i].path && next.watches[i].activated == net.watches[i].activated
            && multiset(trace)[ListRequested(net.watches[i].path)] ==
               if net.watches[i].activated && message == DirectoryChanged(net.watches[i].path) then 1 else 0
  {
    var request := ListRequested(net.watches[i].path);
    if message.DirectoryChanged? {
      ChangeStep(net, message.path);
    } else {
      assert request !in Step(net, message).1;
    }
  }

  /** An activated watcher's directory is asked for exactly as often as it is reported changed; one
      that is not activated, never. */
  lemma {:induction false} AskedOncePerChange(net: Net, messages: seq<FileMessage>, i: nat)
    requires DistinctPaths(net.watches) && i < |net.watches|
    ensures var watch := net.watches[i];
            multiset(Run(net, messages).1)[ListRequested(watch.path)] ==
            if watch.activated then multiset(messages)[DirectoryChanged(watch.path)] else 0
    decreases |messages|
  {
    if messages != [] {
      var (next, trace) := Step(net, messages[0]);
      var rest := Run(next, messages[1..]).1;
      StepRequests(net, messages[0], i);
      AskedOncePerChange(next, messages[1..], i);
      assert multiset(trace + rest) == multiset(trace) + multiset(rest);
      assert messages == [messages[0]] + messages[1..];
    }
  }

  // ----- Streams as listings

  /** The entries listed since the last completed listing of a stream. */
  function Pending(stream: seq<FileMessage>): seq<string> {
    if stream == [] then []
    else
      var n := |stream| - 1;
      match stream[n]
      case FileListed(path) => Pending(stream[..n]) + [path]
      case ListDone(_) => []
      case DirectoryChanged(_) => Pending(stream[..n])
  }

  /** The complete listings of a stream, in order. */
  function Completed(stream: seq<FileMessage>): seq<seq<string>> {
    if stream == [] then []
    else
      var n := |stream| - 1;
      if stream[n].ListDone? then Completed(stream[..n]) + [Pending(stream[..n])] else Completed(stream[..n])
  }

  lemma {:induction false} WatchRunOne(subscribing: bool, watch: Watch, message: FileMessage)
    ensures WatchRun(subscribing, watch, [message]) == SeenOn(subscribing, watch, message)
  {
    assert [message][1..] == [];
    var log := SeenOn(subscribing, watch, message).1;
    assert log + [] == log;
  }

  lemma {:induction false} WatchRunStep(subscribing: bool, watch: Watch, stream: seq<FileMessage>)
    requires stream != []
    ensures var (next, log) := SeenOn(subscribing, watch, stream[0]);
            var (last, rest) := WatchRun(subscribing, next, stream[1..]);
            WatchRun(subscribing, watch, stream) == (last, log + rest)
  {
  }

  lemma {:induction false} WatchRunAppend(
      subscribing: bool, watch: Watch, stream: seq<FileMessage>, message: FileMessage)
    ensures var (last, log) := WatchRun(subscribing, watch, stream);
            var (next, more) := SeenOn(subscribing, last, message);
            WatchRun(subscribing, watch, stream + [message]) == (next, log + more)
    decreases |stream|
  {
    if stream == [] {
      WatchRunOne(subscribing, watch, message);
      assert stream + [message] == [message];
      var more := SeenOn(subscribing, watch, message).1;
      assert [] + more == more;
    } else {
      var all := stream + [message];
      assert all[0] == stream[0] && all[1..] == stream[1..] + [message];
      var (second, first) := SeenOn(subscribing, watch, stream[0]);
      WatchRunAppend(subscribing, second, stream[1..], message);
      WatchRunStep(subscribing, watch, stream);
      WatchRunStep(subscribing, watch, all);
      var (last, log) := WatchRun(subscribing, second, stream[1..]);
      Associate(first, log, SeenOn(subscribing, last, message).1);
    }
  }

  lemma {:induction false} ComparedStep(files: seq<string>, listings: seq<seq<string>>, outputs: nat)
    requires listings != []
    ensures var (last, trace) := Compared(Collected(listings[0]), listings[1..], outputs);
            Compared(files, listings, outputs) ==
            (last, Difference(files, Collected(listings[0]), outputs) + trace)
  {
  }

  lemma {:induction false} ComparedAppend(
      files: seq<string>, listings: seq<seq<string>>, listing: seq<string>, outputs: nat)
    ensures var (last, trace) := Compared(files, listings, outputs);
            Compared(files, listings + [listing], outputs) ==
            (Collected(listing), trace + Difference(last, Collected(listing), outputs))
    decreases |listings|
  {
    var all := listings + [listing];
    ComparedStep(files, all, outputs);
    if listings == [] {
      assert all == [listing] && all[1..] == [];
      var log := Difference(files, Collected(listing), outputs);
      assert log + [] == log == [] + log;
    } else {
      assert all[0] == listings[0] && all[1..] == listings[1..] + [listing];
      var first := Collected(listings[0]);
      ComparedAppend(first, listings[1..], listing, outputs);
      ComparedStep(files, listings, outputs);
      var (last, trace) := Compared(first, listings[1..], outputs);
      Associate(Difference(files, first, outputs), trace, Difference(last, Collected(listing), outputs));
    }
  }

  lemma {:induction false} SeenWithFlagDown(watch: Watch, message: FileMessage)
    requires watch.activated
    ensures SeenOn(false, watch, message) ==
            match message
            case FileListed(path) => (watch.(newFiles := AddUnique(watch.newFiles, path)), [])
            case ListDone(_) => (watch.(files := watch.newFiles, newFiles := []),
                                 Difference(watch.files, watch.newFiles, watch.outputs))
            case DirectoryChanged(_) => (watch, [])
  {
    LogOfTag(watch.path, Difference(watch.files, watch.newFiles, watch.outputs), watch.path);
    if message.DirectoryChanged? {
      var request := [ListRequested(message.path)];
      assert request[1..] == [] && LogOf(request, watch.path) == [] + LogOf([], watch.path) == [];
    }
  }

  /** A watcher's state and log as the comparison of the complete listings of a stream, with the
      new-file list holding exactly what has arrived since. */
  function AsListed(watch: Watch, stream: seq<FileMessage>): (Watch, seq<Event>) {
    var (files, trace) := Compared(watch.files, Completed(stream), watch.outputs);
    (watch.(files := files, newFiles := Collected(Pending(stream))), trace)
  }

  lemma {:induction false} AsListedAppend(watch: Watch, front: seq<FileMessage>, message: FileMessage)
    requires watch.activated
    ensures var (last, log) := AsListed(watch, front);
            var (next, more) := SeenOn(false, last, message);
            AsListed(watch, front + [message]) == (next, log + more)
  {
    var stream := front + [message];
    assert stream[..|stream| - 1] == front;
    var (last, log) := AsListed(watch, front);
    SeenWithFlagDown(last, message);
    match message {
      case FileListed(path) =>
        CollectedStep(Pending(front), path);
        assert log + [] == log;
      case ListDone(_) =>
        ComparedAppend(watch.files, Completed(front), Pending(front), watch.outputs);
        assert Collected([]) == [];
      case DirectoryChanged(_) =>
        assert log + [] == log;
    }
  }

  function Listed(paths: seq<string>): (r: seq<FileMessage>)
    ensures |r| == |paths| && forall k :: 0 <= k < |r| ==> r[k] == FileListed(paths[k])
  {
    seq(|paths|, k requires 0 <= k < |paths| => FileListed(paths[k]))
  }

  lemma {:induction false} ListedIsPending(paths: seq<string>)
    ensures Completed(Listed(paths)) == [] && Pending(Listed(paths)) == paths
  {
    if paths != [] {
      var n := |paths| - 1;
      ListedIsPending(paths[..n]);
      assert Listed(paths)[..n] == Listed(paths[..n]);
      assert paths == paths[..n] + [paths[n]];
    }
  }

  /** What a watcher has collected of a listing not completed yet counts as the beginning of what it
      receives next. */
  function Received(watch: Watch, stream: seq<FileMessage>): seq<FileMessage> {
    Listed(watch.newFiles) + stream
  }

  /** No path twice in the baseline or in the listing being received. */
  predicate WithoutDuplicates(watch: Watch) {
    Distinct(watch.files) && Distinct(watch.newFiles)
  }

  /** With the flag down a watcher does nothing but compare complete listings. */
  lemma {:induction false} StreamIsCompared(watch: Watch, stream: seq<FileMessage>)
    requires watch.activated && Distinct(watch.newFiles)
    ensures WatchRun(false, watch, stream) == AsListed(watch, Received(watch, stream))
    decreases |stream|
  {
    if stream == [] {
      ListedIsPending(watch.newFiles);
      CollectedDistinct(watch.newFiles);
      assert Received(watch, stream) == Listed(watch.newFiles);
    } else {
      var n := |stream| - 1;
      assert stream == stream[..n] + [stream[n]];
      StreamIsCompared(watch, stream[..n]);
      WatchRunAppend(false, watch, stream[..n], stream[n]);
      AsListedAppend(watch, Received(watch, stream[..n]), stream[n]);
      assert Received(watch, stream) == Received(watch, stream[..n]) + [stream[n]];
    }
  }

  /** Every entry of a stream. */
  function Entries(stream: seq<FileMessage>): seq<string> {
    if stream == [] then []
    else
      var n := |stream| - 1;
      if stream[n].FileListed? then Entries(stream[..n]) + [stream[n].path] else Entries(stream[..n])
  }

  /** With the flag up a stream only adds its entries to the baseline and logs nothing. */
  lemma {:induction false} StreamIsCollected(watch: Watch, stream: seq<FileMessage>)
    requires watch.activated && Distinct(watch.files)
    requires forall m :: m in stream ==> !m.DirectoryChanged?
    ensures WatchRun(true, watch, stream) == (watch.(files := Collected(watch.files + Entries(stream))), [])
    decreases |stream|
  {
    if stream == [] {
      CollectedDistinct(watch.files);
      assert watch.files + Entries(stream) == watch.files;
    } else {
      var n := |stream| - 1;
      assert stream == stream[..n] + [stream[n]];
      assert stream[n] in stream;
      StreamIsCollected(watch, stream[..n]);
      WatchRunAppend(true, watch, stream[..n], stream[n]);
      var (last, log) := WatchRun(true, watch, stream[..n]);
      var (next, more) := SeenOn(true, last, stream[n]);
      assert more == [] && log + more == [];
      if stream[n].FileListed? {
        CollectedStep(watch.files + Entries(stream[..n]), stream[n].path);
        Associate(watch.files, Entries(stream[..n]), [stream[n].path]);
      } else {
        assert stream[n].ListDone? && next == last;
        assert Entries(stream) == Entries(stream[..n]);
      }
    }
  }

  lemma {:induction false} StreamKeepsMessages(messages: seq<FileMessage>, path: string)
    ensures forall m :: m in Stream(messages, path) ==> m in messages
  {
    if messages != [] { StreamKeepsMessages(messages[1..], path); }
  }

  /** A run in two parts: the messages before the first directory change, and that change with
      everything after it. */
  function RunInTwo(net: Net, before: seq<FileMessage>, after: seq<FileMessage>): (Net, seq<Tagged>) {
    var (middle, first) := Run(net, before);
    var (last, second) := Run(middle, after);
    (last, first + second)
  }

  /** A directory change lowers the flag before anything else, so raising it just before makes no
      difference. */
  lemma {:induction false} ChangeLowersFlag(net: Net, messages: seq<FileMessage>)
    requires messages != [] && messages[0].DirectoryChanged?
    ensures Run(net, messages) == Run(Net(false, net.watches), messages)
  {
  }

  /** The messages after a subscription, a first or a later one: `before` up to the first directory
      change, `after` from there on. */
  predicate Subscribed(watches: seq<Watch>, before: seq<FileMessage>, after: seq<FileMessage>, i: nat) {
    && DistinctPaths(watches) && i < |watches|
    && watches[i].activated && WithoutDuplicates(watches[i])
    && (forall m :: m in before ==> !m.DirectoryChanged?)
    && (after != [] ==> after[0].DirectoryChanged?)
  }

  /** Everything in a watcher's baseline when the first directory change comes: what it held when
      the flag was raised, and every entry listed since. */
  function Early(watch: Watch, before: seq<FileMessage>): seq<string> {
    watch.files + Entries(Stream(before, watch.path))
  }

  /** Until the first directory change a watcher's listings are added to its baseline and nothing is
      logged. */
  lemma {:induction false} FlagUpOnlyCollects(watches: seq<Watch>, before: seq<FileMessage>, i: nat)
    requires Subscribed(watches, before, [], i)
    ensures var (middle, first) := Run(Net(true, watches), before);
            && |middle.watches| == |watches| && DistinctPaths(middle.watches)
            && middle.watches[i] == watches[i].(files := Collected(Early(watches[i], before)))
            && LogOf(first, watches[i].path) == []
  {
    OwnStreamDecides(Net(true, watches), before, i);
    StreamKeepsMessages(before, watches[i].path);
    StreamIsCollected(watches[i], Stream(before, watches[i].path));
  }

  /** Any interleaving from the moment of subscription. Whatever the other watchers receive, a
      watcher's baseline and log are the comparison of its own complete listings after the first
      directory change with what its baseline held before it. */
  lemma {:induction false} InterleavingIsOwnComparison(
      watches: seq<Watch>, before: seq<FileMessage>, after: seq<FileMessage>, i: nat)
    requires Subscribed(watches, before, after, i)
    ensures var (last, trace) := RunInTwo(Net(true, watches), before, after);
            var path, own := watches[i].path, Received(watches[i], Stream(after, watches[i].path));
            var (files, log) := Compared(Collected(Early(watches[i], before)), Completed(own), watches[i].outputs);
            && |last.watches| == |watches|
            && last.watches[i] == watches[i].(files := files, newFiles := Collected(Pending(own)))
            && LogOf(trace, path) == log
  {
    var net, path := Net(true, watches), watches[i].path;
    var (middle, first) := Run(net, before);
    FlagUpOnlyCollects(watches, before, i);
    OwnStreamDecides(net, before, i);
    if after != [] { ChangeLowersFlag(middle, after); }
    OwnStreamDecides(Net(false, middle.watches), after, i);
    StreamIsCompared(middle.watches[i], Stream(after, path));
    var second := Run(middle, after).1;
    LogOfConcat(first, second, path);
    assert [] + LogOf(second, path) == LogOf(second, path);
  }

  /** The baseline is the last complete listing. */
  lemma {:induction false} BaselineIsLastListing(files: seq<string>, listings: seq<seq<string>>, outputs: nat)
    ensures Compared(files, listings, outputs).0 ==
            if listings == [] then files else Collected(listings[|listings| - 1])
    decreases |listings|
  {
    if listings != [] {
      assert |listings| > 1 ==> listings[1..][|listings| - 2] == listings[|listings| - 1];
      BaselineIsLastListing(Collected(listings[0]), listings[1..], outputs);
    }
  }

  /** The stream holds one complete listing and nothing after it. */
  predicate FirstListingComplete(stream: seq<FileMessage>) {
    |Completed(stream)| == 1 && Pending(stream) == []
  }

  function Flattened(listings: seq<seq<string>>): seq<string> {
    if listings == [] then [] else Flattened(listings[..|listings| - 1]) + listings[|listings| - 1]
  }

  lemma {:induction false} EntriesAreListings(stream: seq<FileMessage>)
    ensures Entries(stream) == Flattened(Completed(stream)) + Pending(stream)
  {
    if stream != [] {
      var n := |stream| - 1;
      EntriesAreListings(stream[..n]);
      if stream[n].ListDone? {
        var front := Completed(stream[..n]);
        assert (front + [Pending(stream[..n])])[..|front|] == front;
      }
    }
  }

  /** The baseline is the last of the listings without duplicates, and a file that is in all of them
      was never announced, nor were outputs run for it. */
  predicate LikeOwnListings(files: seq<string>, log: seq<Event>, listings: seq<seq<string>>, outputs: nat, event: Event)
    requires listings != []
  {
    && files == Collected(listings[|listings| - 1]) && Distinct(files)
    && ((forall l :: l in listings ==> event.path in l) && AnnouncesWith(event, outputs) ==> Times(log, event) == 0)
  }

  /** The shared flag is harmless when a watcher's first listing is complete before the first
      directory change: its baseline is its own last complete listing without duplicates, and no
      file of the first listing is announced, nor its outputs run, while it stays present. */
  lemma {:induction false} SharedFlagIsHarmless(
      watches: seq<Watch>, before: seq<FileMessage>, after: seq<FileMessage>, i: nat, event: Event)
    requires Subscribed(watches, before, after, i) && watches[i].files == [] && watches[i].newFiles == []
    requires FirstListingComplete(Stream(before, watches[i].path))
    ensures var (last, trace) := RunInTwo(Net(true, watches), before, after);
            var path := watches[i].path;
            var listings := Completed(Stream(before, path)) + Completed(Stream(after, path));
            && |last.watches| == |watches|
            && LikeOwnListings(last.watches[i].files, LogOf(trace, path), listings, watches[i].outputs, event)
  {
    var path := watches[i].path;
    var first, later := Completed(Stream(before, path)), Completed(Stream(after, path));
    InterleavingIsOwnComparison(watches, before, after, i);
    NothingHeld(watches[i], before, Stream(after, path));
    FirstListingEntries(Stream(before, path));
    FirstListingKept(first, later, watches[i].outputs, event);
  }

  lemma {:induction false} NothingHeld(watch: Watch, before: seq<FileMessage>, stream: seq<FileMessage>)
    requires watch.files == [] && watch.newFiles == []
    ensures Early(watch, before) == Entries(Stream(before, watch.path)) && Received(watch, stream) == stream
  {
  }

  lemma {:induction false} FirstListingEntries(stream: seq<FileMessage>)
    requires FirstListingComplete(stream)
    ensures Entries(stream) == Completed(stream)[0]
  {
    var first := Completed(stream);
    EntriesAreListings(stream);
    assert first[..0] == [] && Flattened(first) == [] + first[0] == first[0];
  }

  /** Comparing later listings with a complete first one. */
  lemma {:induction false} FirstListingKept(
      first: seq<seq<string>>, later: seq<seq<string>>, outputs: nat, event: Event)
    requires |first| == 1
    ensures var (files, log) := Compared(Collected(first[0]), later, outputs);
            LikeOwnListings(files, log, first + later, outputs, event)
  {
    var listings := first + later;
    BaselineIsLastListing(Collected(first[0]), later, outputs);
    LastOfBoth(first, later);
    if (forall l :: l in listings ==> event.path in l) && AnnouncesWith(event, outputs) {
      InBoth(first, later, event.path);
      StayingIsSilent(first[0], later, outputs, event);
    }
  }

  lemma {:induction false} LastOfBoth(first: seq<seq<string>>, later: seq<seq<string>>)
    requires |first| == 1
    ensures (first + later)[|first + later| - 1] == if later == [] then first[0] else later[|later| - 1]
  {
  }

  lemma {:induction false} InBoth(first: seq<seq<string>>, later: seq<seq<string>>, path: string)
    requires |first| == 1 && forall l :: l in first + later ==> path in l
    ensures path in first[0] && forall l :: l in later ==> path in l
  {
    assert first[0] in first + later;
  }

  lemma {:induction false} StayingIsSilent(first: seq<string>, later: seq<seq<string>>, outputs: nat, event: Event)
    requires event.path in first && (forall l :: l in later ==> event.path in l) && AnnouncesWith(event, outputs)
    ensures Times(Compared(Collected(first), later, outputs).1, event) == 0
  {
    StayingIsNotAnArrival(later, event.path);
    if IsPartial(event.path) {
      PartialFilesAreSilent(Collected(first), later, outputs, event);
    } else {
      AnnouncedOncePerArrival(Collected(first), later, outputs, event);
    }
  }

  /** What a log says about one path: announced once per arrival among the later listings, if there
      are outputs, and its removal logged once per departure; nothing about a partial file. */
  predicate SaidOf(p: string, log: seq<Event>, early: seq<string>, later: seq<seq<string>>, outputs: nat) {
    && Times(log, AdditionLogged(p)) ==
       (if IsPartial(p) || outputs == 0 then 0 else Arrivals(p in early, later, p))
    && Times(log, RemovalLogged(p)) == (if IsPartial(p) then 0 else Departures(p in early, later, p))
  }

  lemma {:induction false} ComparisonSays(early: seq<string>, later: seq<seq<string>>, outputs: nat, p: string)
    ensures SaidOf(p, Compared(Collected(early), later, outputs).1, early, later, outputs)
  {
    if IsPartial(p) {
      PartialFilesAreSilent(Collected(early), later, outputs, AdditionLogged(p));
      PartialFilesAreSilent(Collected(early), later, outputs, RemovalLogged(p));
    } else {
      AnnouncedOncePerArrival(Collected(early), later, outputs, AdditionLogged(p));
      AnnouncedOncePerArrival(Collected(early), later, outputs, RemovalLogged(p));
    }
  }

  /** A file that was listed early or late and is in every listing after that. */
  predicate Stays(p: string, early: seq<string>, late: seq<string>, more: seq<seq<string>>) {
    (p in early || p in late) && forall l :: l in more ==> p in l
  }

  lemma {:induction false} StayingArrivals(early: seq<string>, late: seq<string>, more: seq<seq<string>>, p: string)
    requires Stays(p, early, late, more)
    ensures Arrivals(p in early, [late] + more, p) == 0 <==> p in early && (p in late || more == [])
  {
    var later := [late] + more;
    assert later[0] == late && later[1..] == more;
    if p in late {
      StayingIsNotAnArrival(more, p);
    } else if more != [] {
      assert more[0] in more;
      assert Arrivals(false, more, p) == 1 + Arrivals(true, more[1..], p);
    }
  }

  /** One listing compared with what was collected early: nothing is announced exactly when every
      late file was listed early (or is partial, or there are no outputs); no removal is logged
      exactly when every early file is late too (or partial); and the late entries alone are left. */
  ghost predicate SplitOnce(files: seq<string>, log: seq<Event>, early: seq<string>, late: seq<string>, outputs: nat) {
    && ((forall p :: Times(log, AdditionLogged(p)) == 0) <==>
        (outputs == 0 || forall p :: p in late ==> p in early || IsPartial(p)))
    && ((forall p :: Times(log, RemovalLogged(p)) == 0) <==>
        (forall p :: p in early ==> p in late || IsPartial(p)))
    && files == Collected(late)
    && ((forall p :: p in files <==> p in early + late) <==> (forall p :: p in early ==> p in late))
  }

  lemma {:induction false} SplitListing(early: seq<string>, late: seq<string>, outputs: nat)
    ensures var (files, log) := Compared(Collected(early), [late], outputs);
            SplitOnce(files, log, early, late, outputs)
  {
    var next := Collected(late);
    var log := Difference(Collected(early), next, outputs);
    assert [late][1..] == [] && log + [] == log;
    forall p
      ensures Times(log, AdditionLogged(p)) == Indicator(p in late && p !in early && !IsPartial(p) && outputs > 0)
      ensures Times(log, RemovalLogged(p)) == Indicator(p in early && p !in late && !IsPartial(p))
    {
      TimesDifference(Collected(early), next, outputs, AdditionLogged(p));
      TimesDifference(Collected(early), next, outputs, RemovalLogged(p));
    }
    assert forall p :: p in early + late <==> p in early || p in late;
  }

  /** What the flag's fall does to the listings that complete after it: `early` is what the baseline
      held, `late` the first listing completed afterwards, `more` the ones after that. A staying file
      that is not partial is left unannounced exactly when it was early, and late too if another
      listing follows. */
  ghost predicate Split(log: seq<Event>, files: seq<string>, early: seq<string>, late: seq<string>,
                  more: seq<seq<string>>, outputs: nat) {
    && (forall p :: SaidOf(p, log, early, [late] + more, outputs))
    && (forall p :: !IsPartial(p) && outputs > 0 && Stays(p, early, late, more) ==>
          (Times(log, AdditionLogged(p)) == 0 <==> p in early && (p in late || more == [])))
    && files == Collected(([late] + more)[|more|])
    && (more == [] ==> SplitOnce(files, log, early, late, outputs))
  }

  lemma {:induction false} ComparisonSplits(
      early: seq<string>, late: seq<string>, more: seq<seq<string>>, outputs: nat)
    ensures var (files, log) := Compared(Collected(early), [late] + more, outputs);
            Split(log, files, early, late, more, outputs)
  {
    var (files, log) := Compared(Collected(early), [late] + more, outputs);
    forall p
      ensures SaidOf(p, log, early, [late] + more, outputs)
      ensures !IsPartial(p) && outputs > 0 && Stays(p, early, late, more) ==>
                (Times(log, AdditionLogged(p)) == 0 <==> p in early && (p in late || more == []))
    {
      ComparisonSays(early, [late] + more, outputs, p);
      if Stays(p, early, late, more) { StayingArrivals(early, late, more, p); }
    }
    BaselineIsLastListing(Collected(early), [late] + more, outputs);
    if more == [] {
      assert [late] + more == [late];
      SplitListing(early, late, outputs);
    }
  }

  /** The flag is lowered by the first message of `after`, in the middle of a watcher's listing. The
      rest of that listing, completed as `late`, is then compared with what came before, and the
      listing the handler asks for, and any later one, with its predecessor. Over every interleaved
      run in which a listing completes after the change, this is exactly when a file is announced,
      its removal logged, and what baseline is left. */
  lemma {:induction false} LoweredFlagSplitsListing(
      watches: seq<Watch>, before: seq<FileMessage>, after: seq<FileMessage>,
      late: seq<string>, more: seq<seq<string>>, i: nat)
    requires Subscribed(watches, before, after, i)
    requires Completed(Received(watches[i], Stream(after, watches[i].path))) == [late] + more
    ensures var (last, trace) := RunInTwo(Net(true, watches), before, after);
            var path, early := watches[i].path, Early(watches[i], before);
            && |last.watches| == |watches|
            && Split(LogOf(trace, path), last.watches[i].files, early, late, more, watches[i].outputs)
            && (watches[i].files == [] && Completed(Stream(before, path)) == [] ==>
                early == Pending(Stream(before, path)))
  {
    var first := Stream(before, watches[i].path);
    InterleavingIsOwnComparison(watches, before, after, i);
    ComparisonSplits(Early(watches[i], before), late, more, watches[i].outputs);
    EntriesAreListings(first);
    assert Completed(first) == [] ==> [] + Pending(first) == Pending(first);
  }

  lemma {:induction false} OwnStream(messages: seq<FileMessage>, path: string)
    requires forall m :: m in messages ==> Directory(m) == path
    ensures Stream(messages, path) == messages
  {
    if messages != [] {
      OwnStream(messages[1..], path);
      assert messages == [messages[0]] + messages[1..];
    }
  }

  lemma {:induction false} OneMoreMessage(front: seq<FileMessage>, message: FileMessage)
    ensures Completed(front + [message]) ==
            if message.ListDone? then Completed(front) + [Pending(front)] else Completed(front)
    ensures Pending(front + [message]) ==
            match message
            case FileListed(path) => Pending(front) + [path]
            case ListDone(_) => []
            case DirectoryChanged(_) => Pending(front)
  {
    assert (front + [message])[..|front|] == front;
  }

  lemma {:induction false} RelistedAfterChange(path: string, file: string)
    ensures Completed([DirectoryChanged(path), ListDone(path), FileListed(file), ListDone(path)]) == [[], [file]]
  {
    var s0, s1 := [DirectoryChanged(path)], [DirectoryChanged(path), ListDone(path)];
    var s2 := [DirectoryChanged(path), ListDone(path), FileListed(file)];
    assert Completed([]) == [] && Pending([]) == [];
    OneMoreMessage([], DirectoryChanged(path));
    assert [] + [DirectoryChanged(path)] == s0;
    OneMoreMessage(s0, ListDone(path));
    assert s0 + [ListDone(path)] == s1 && Completed(s1) == [[]];
    OneMoreMessage(s1, FileListed(file));
    assert s1 + [FileListed(file)] == s2 && Pending(s2) == [file];
    OneMoreMessage(s2, ListDone(path));
    assert s2 + [ListDone(path)] == [DirectoryChanged(path), ListDone(path), FileListed(file), ListDone(path)];
    assert [[]] + [[file]] == [[], [file]];
  }

  lemma {:induction false} LeftAndBack(file: string)
    ensures Arrivals(true, [[], [file]], file) == 1
  {
    var later: seq<seq<string>> := [[], [file]];
    assert later[1..] == [[file]] && [[file]][1..] == [];
    assert Arrivals(false, [[file]], file) == 1 + Arrivals(true, [], file);
  }

  lemma {:induction false} RelistedIsAnnounced(
      watches: seq<Watch>, before: seq<FileMessage>, after: seq<FileMessage>, file: string)
    requires Subscribed(watches, before, after, 0) && watches[0].outputs > 0 && !IsPartial(file)
    requires Early(watches[0], before) == [file]
    requires Completed(Received(watches[0], Stream(after, watches[0].path))) == [[], [file]]
    ensures Times(LogOf(RunInTwo(Net(true, watches), before, after).1, watches[0].path), AdditionLogged(file)) == 1
  {
    InterleavingIsOwnComparison(watches, before, after, 0);
    ComparisonSays([file], [[], [file]], watches[0].outputs, file);
    LeftAndBack(file);
  }

  /** An instance: a file that is listed first and never leaves is announced as new. The change comes
      after its entry, the rest of the first listing is empty, and the listing that the handler asks
      for names the file again. */
  lemma {:induction false} ListedFileIsAnnounced(path: string, file: string)
    requires Dirname(file) == path && !IsPartial(file)
    ensures var watches := [Watch(true, path, 1, [], [])];
            var before := [FileListed(file)];
            var after := [DirectoryChanged(path), ListDone(path), FileListed(file), ListDone(path)];
            Times(LogOf(RunInTwo(Net(true, watches), before, after).1, path), AdditionLogged(file)) == 1
  {
    var watch := Watch(true, path, 1, [], []);
    var before := [FileListed(file)];
    var after := [DirectoryChanged(path), ListDone(path), FileListed(file), ListDone(path)];
    OwnStream(before, path);
    OwnStream(after, path);
    NothingHeld(watch, before, after);
    RelistedAfterChange(path, file);
    assert before[..0] == [] && Entries(before) == [] + [file];
    RelistedIsAnnounced([watch], before, after, file);
  }

  /** There are such files: "/d/a" in "/d". */
  lemma {:induction false} ListedFileExample()
    ensures Dirname("/d/a") == "/d" && !IsPartial("/d/a")
  {
    var k := LastIndexOf("/d/a", '/').value;
    assert k == 2 by { assert "/d/a"[2] == '/' && "/d/a"[3] != '/'; }
    assert "/d/a"[..2] == "/d";
    assert '.' !in "/d/a";
  }

  /** A second subscription, after a reconnect, raises the flag over the old baseline: that becomes
      the old one and the new listing together, in silence. Whatever arrived while the bot was away
      is never announced while it stays; whatever left is in the baseline still, and its removal is
      logged by the first later listing without it. */
  lemma {:induction false} ResubscriptionJoinsBaselines(
      watches: seq<Watch>, before: seq<FileMessage>, after: seq<FileMessage>, i: nat, p: string)
    requires Subscribed(watches, before, after, i)
    ensures var (middle, first) := Run(Net(true, watches), before);
            |middle.watches| == |watches| && LogOf(first, watches[i].path) == []
            && middle.watches[i].files == Collected(watches[i].files + Entries(Stream(before, watches[i].path)))
    ensures var path, outputs := watches[i].path, watches[i].outputs;
            var log := LogOf(RunInTwo(Net(true, watches), before, after).1, path);
            var listed, later := Entries(Stream(before, path)), Completed(Received(watches[i], Stream(after, path)));
            && SaidOf(p, log, watches[i].files + listed, later, outputs)
            && (p in listed && (forall l :: l in later ==> p in l) ==> Times(log, AdditionLogged(p)) == 0)
            && (p in watches[i].files && later != [] && p !in later[0] && !IsPartial(p) ==>
                Times(log, RemovalLogged(p)) > 0)
  {
    var later := Completed(Received(watches[i], Stream(after, watches[i].path)));
    FlagUpOnlyCollects(watches, before, i);
    InterleavingIsOwnComparison(watches, before, after, i);
    ComparisonSays(Early(watches[i], before), later, watches[i].outputs, p);
    if forall l :: l in later ==> p in l { StayingIsNotAnArrival(later, p); }
  }

  // ----- The handlers on the bot's watcher objects

  function ViewOf(watcher: Watcher): Watch
    reads watcher
  {
    Watch(watcher.activated, watcher.path, watcher.outputs, watcher.files, watcher.newFiles)
  }

  function ViewsOf(watchers: seq<Watcher>): (views: seq<Watch>)
    reads watchers
    ensures |views| == |watchers| && forall k :: 0 <= k < |watchers| ==> views[k] == ViewOf(watchers[k])
  {
    seq(|watchers|, k requires 0 <= k < |watchers| reads watchers => ViewOf(watchers[k]))
  }

  class WatcherBot {
    var subscribing: bool
    const watchers: seq<Watcher>

    constructor (watchers: seq<Watcher>)
      ensures this.watchers == watchers && !subscribing
    {
      this.watchers, subscribing := watchers, false;
    }

    ghost predicate Valid()
      reads this
    {
      forall j, k :: 0 <= j < k < |watchers| ==> watchers[j] != watchers[k]
    }

    ghost function View(): Net
      reads this, watchers
    {
      Net(subscribing, ViewsOf(watchers))
    }

    /** Raises the flag and, while connected, sends the two requests for one watcher's directory. */
    method SubscribeWatcher(watcher: Watcher, connected: bool) returns (requests: seq<Request>)
      modifies this`subscribing
      ensures subscribing
      ensures requests == if connected then [ListDirectory(watcher.path), SubscribeDirectory(watcher.path)] else []
    {
      subscribing := true;
      requests := [];
      if connected { requests := [ListDirectory(watcher.path)]; }
      if connected { requests := requests + [SubscribeDirectory(watcher.path)]; }
    }

    /** `wb_bot_subscribe_watchers`: raises the flag once for every watcher. */
    method SubscribeWatchers(connected: bool) returns (requests: seq<Request>)
      modifies this`subscribing
      ensures subscribing == (old(subscribing) || watchers != [])
      ensures |requests| == if connected then 2 * |watchers| else 0
      ensures connected ==> forall k :: 0 <= k < |watchers| ==>
                requests[2 * k] == ListDirectory(watchers[k].path) &&
                requests[2 * k + 1] == SubscribeDirectory(watchers[k].path)
    {
      requests := [];
      for k := 0 to |watchers|
        invariant subscribing == (old(subscribing) || k > 0)
        invariant |requests| == if connected then 2 * k else 0
        invariant connected ==> forall j :: 0 <= j < k ==>
                    requests[2 * j] == ListDirectory(watchers[j].path) &&
                    requests[2 * j + 1] == SubscribeDirectory(watchers[j].path)
      {
        var more := SubscribeWatcher(watchers[k], connected);
        requests := requests + more;
      }
    }

    method WatcherForPath(path: string) returns (found: Option<nat>)
      ensures found == Find(ViewsOf(watchers), path)
    {
      ghost var views := ViewsOf(watchers);
      found := None;
      for k := 0 to |watchers|
        invariant forall j :: 0 <= j < k ==> views[j].path != path
      {
        if watchers[k].path == path {
          FindIsFirst(views, path, Some(k));
          return Some(k);
        }
      }
      FindIsFirst(views, path, None);
    }

    /** Adds a listed path to the watcher's baseline or to its listing being received. */
    method Collect(watcher: Watcher, path: string)
      requires watcher.activated
      modifies watcher
      ensures ViewOf(watcher) == WatchStep(subscribing, old(ViewOf(watcher)), FileListed(path)).0
    {
      if subscribing {
        var _ := watcher.AddFile(path);
      } else {
        var _ := watcher.AddNewFile(path);
      }
    }

    method OnFileListed(path: string) returns (trace: seq<Tagged>)
      requires Valid()
      modifies watchers
      ensures (View(), trace) == Step(old(View()), FileListed(path))
    {
      ghost var before := View();
      trace := [];
      var found := WatcherForPath(Dirname(path));
      if found.Some? && watchers[found.value].activated {
        Collect(watchers[found.value], path);
      }
      OneWatcherChanged(FileListed(path), before, found, trace);
    }

    method OnListDone(path: string) returns (trace: seq<Tagged>)
      requires Valid()
      modifies watchers
      ensures (View(), trace) == Step(old(View()), ListDone(path))
    {
      ghost var before := View();
      trace := [];
      var found := WatcherForPath(path);
      if found.Some? && watchers[found.value].activated {
        if !subscribing {
          var log := watchers[found.value].FilesDiff();
          trace := Tag(watchers[found.value].path, log);
        }
      }
      OneWatcherChanged(ListDone(path), before, found, trace);
    }

    method SetSubscribing(value: bool)
      modifies this`subscribing
      ensures View() == old(View()).(subscribing := value)
    {
      subscribing := value;
    }

    method OnDirectoryChanged(path: string) returns (trace: seq<Tagged>)
      requires Valid()
      modifies this`subscribing
      ensures (View(), trace) == Step(old(View()), DirectoryChanged(path))
    {
      ghost var before := View();
      SetSubscribing(false);
      trace := [];
      var found := WatcherForPath(path);
      if found.Some? && watchers[found.value].activated {
        trace := [ListRequested(path)];
      }
      ChangeStep(before, path);
    }

    /** If only the found watcher changed, and as its own step says, the whole view did. */
    lemma {:induction false} OneWatcherChanged(
        message: FileMessage, before: Net, found: Option<nat>, trace: seq<Tagged>)
      requires found == Find(before.watches, Directory(message))
      requires |before.watches| == |watchers|
      requires subscribing == if message.DirectoryChanged? then false else before.subscribing
      requires forall k :: 0 <= k < |watchers| ==>
                 ViewOf(watchers[k]) == if found == Some(k) then WatchStep(subscribing, before.watches[k], message).0
                                        else before.watches[k]
      requires trace == if found.Some? then WatchStep(subscribing, before.watches[found.value], message).1 else []
      ensures (View(), trace) == Step(before, message)
    {
      assert View().watches == Step(before, message).0.watches;
    }

    method Handle(message: FileMessage) returns (trace: seq<Tagged>)
      requires Valid()
      modifies this`subscribing, watchers
      ensures (View(), trace) == Step(old(View()), message)
    {
      match message
      case FileListed(path) => trace := OnFileListed(path);
      case ListDone(path) => trace := OnListDone(path);
      case DirectoryChanged(path) => trace := OnDirectoryChanged(path);
    }

    method HandleAll(messages: seq<FileMessage>) returns (trace: seq<Tagged>)
      requires Valid()
      modifies this`subscribing, watchers
      ensures (View(), trace) == Run(old(View()), messages)
    {
      trace := [];
      ghost var goal := Run(View(), messages);
      ghost var rest := goal.1;
      assert messages[0..] == messages && [] + rest == rest;
      for k := 0 to |messages|
        invariant Run(View(), messages[k..]) == (goal.0, rest) && trace + rest == goal.1
      {
        assert messages[k..][0] == messages[k] && messages[k..][1..] == messages[k + 1..];
        ghost var before := View();
        var more := Handle(messages[k]);
        RunPeels(before, messages[k..], View(), more);
        ghost var later := Run(View(), messages[k + 1..]).1;
        Associate(trace, more, later);
        trace, rest := trace + more, later;
      }
      assert trace + [] == trace;
    }
  }

  lemma {:induction false} RunPeels(net: Net, messages: seq<FileMessage>, next: Net, more: seq<Tagged>)
    requires messages != [] && Step(net, messages[0]) == (next, more)
    ensures Run(net, messages) == (Run(next, messages[1..]).0, more + Run(next, messages[1..]).1)
  {
  }
}
