/** The transfer queue as wirebot/transfers.c runs it: transfers with three parallel arrays, and
    five functions that call each other in a cycle. */
module TransferQueue {
  import opened Sequences
  import opened Transfers
  import opened Text
  import Walk = DirectoryWalk

  function Zipped(remote: seq<string>, local: seq<string>, files: seq<File>): (r: seq<Entry>)
    requires |remote| == |local| == |files|
    ensures |r| == |remote| && forall k :: 0 <= k < |r| ==> r[k] == Entry(remote[k], local[k], files[k])
  {
    seq(|remote|, k requires 0 <= k < |remote| => Entry(remote[k], local[k], files[k]))
  }

  lemma {:induction false} ZippedWithout(remote: seq<string>, local: seq<string>, files: seq<File>, i: nat)
    requires |remote| == |local| == |files| && i < |remote|
    ensures Zipped(remote[..i] + remote[i + 1..], local[..i] + local[i + 1..], files[..i] + files[i + 1..]) ==
            Zipped(remote, local, files)[..i] + Zipped(remote, local, files)[i + 1..]
  {
  }

  /** The part of a path after as many characters as `base` has. */
  function Below(path: string, base: string): string {
    if |base| <= |path| then path[|base|..] else ""
  }

  /** Where a remote file is downloaded to; `whole` for the files of a directory download. */
  function LocalPath(name: string, masterPath: string, downloadPath: string, remote: string, whole: bool): string {
    Walk.Appended(Walk.Normalized(downloadPath),
                  if whole then Walk.Appended(name, Below(remote, masterPath)) else LastComponent(remote))
  }

  function DownloadEntry(name: string, masterPath: string, downloadPath: string, added: File, whole: bool): Entry {
    Entry(added.path, LocalPath(name, masterPath, downloadPath, added.path, whole), added)
  }

  /** The folder of a directory download: what goes before the slash of a path in it. */
  function DownloadFolder(name: string, directory: string): string {
    if name != "" then Walk.Appended(directory, name) else if directory == "/" then "" else directory
  }

  lemma {:induction false} AppendedBelow(name: string, directory: string, rest: string)
    requires '/' !in name && "/" <= rest
    requires directory != "" && directory != "/" ==> directory[|directory| - 1] != '/'
    ensures Walk.Appended(directory, name + rest) == DownloadFolder(name, directory) + rest
  {
    var inner := name + rest;
    if name == "" {
      assert inner == rest && rest == "/" + rest[1..];
    } else {
      assert inner[0] == name[0] && name[0] in name;
      assert directory + inner == directory + name + rest;
      assert directory + ("/" + inner) == directory + ("/" + name) + rest;
    }
  }

  lemma {:induction false} DownloadPlace(name: string, master: string, downloadPath: string, rest: string)
    requires '/' !in name && "/" <= rest
    ensures LocalPath(name, master, downloadPath, master + rest, true) ==
            DownloadFolder(name, Walk.Normalized(downloadPath)) + rest
  {
    Walk.NormalizedEnd(downloadPath);
    assert Below(master + rest, master) == rest;
    assert name != "" ==> name[|name| - 1] in name;
    assert Walk.Appended(name, rest) == name + rest;
    AppendedBelow(name, Walk.Normalized(downloadPath), rest);
  }

  /** The files of a directory download keep their place: the local path is the folder of the
      download followed by the part of the remote path below the master path. Different remote files
      get different local paths. */
  lemma {:induction false} DownloadKeepsPlace(
      name: string, master: string, downloadPath: string, rest: string, other: string)
    requires '/' !in name && "/" <= rest && "/" <= other
    ensures LocalPath(name, master, downloadPath, master + rest, true) ==
            DownloadFolder(name, Walk.Normalized(downloadPath)) + rest
    ensures forall size: nat ::
              var added := File(master + rest, size);
              DownloadEntry(name, master, downloadPath, added, true) ==
              Entry(master + rest, DownloadFolder(name, Walk.Normalized(downloadPath)) + rest, added)
    ensures rest != other ==> LocalPath(name, master, downloadPath, master + rest, true) !=
                              LocalPath(name, master, downloadPath, master + other, true)
  {
    DownloadPlace(name, master, downloadPath, rest);
    DownloadPlace(name, master, downloadPath, other);
    var folder := DownloadFolder(name, Walk.Normalized(downloadPath));
    assert (folder + rest)[|folder|..] == rest && (folder + other)[|folder|..] == other;
  }

  /** A single download is put into the download directory under the last component of its remote
      path. */
  lemma {:induction false} SingleDownloadPlace(
      name: string, master: string, downloadPath: string, parent: string, last: string, size: nat)
    requires '/' !in last && last != ""
    ensures var added, directory := File(parent + "/" + last, size), Walk.Normalized(downloadPath);
            DownloadEntry(name, master, downloadPath, added, false) ==
            Entry(added.path, if directory == "" then last
                              else if directory == "/" then "/" + last else directory + "/" + last, added)
  {
    Walk.NormalizedEnd(downloadPath);
    LastComponentAfterSlash(parent, last);
    assert last[0] in last;
  }

  lemma {:induction false} LastComponentAfterSlash(parent: string, last: string)
    requires '/' !in last
    ensures LastComponent(parent + "/" + last) == last
  {
    var parts := Split(parent, '/');
    JoinSplit(parent, '/');
    JoinConcat(parts, [last], '/');
    assert Join([last], '/') == last;
    SplitJoin(parts + [last], '/');
  }

  /** A download is opened under its partial name. */
  function Attempted(kind: Kind, entry: Entry): Entry {
    if kind.Download? then entry.(local := PartialPath(entry.local)) else entry
  }

  class Transfer {
    ghost const arrival: nat
    const tid: nat
    const kind: Kind
    const name: string
    const masterPath: string
    var state: State
    var recursive: bool
    var listed: bool
    var file: bool
    var remotePaths: seq<string>
    var localPaths: seq<string>
    var files: seq<File>
    var totalSize: nat

    /** The three arrays have one length, and the total covers the files in them. */
    ghost predicate Valid()
      reads this
    {
      |remotePaths| == |localPaths| == |files| && SumSizes(Zipped(remotePaths, localPaths, files)) <= totalSize
    }

    ghost function View(): Job
      requires Valid()
      reads this
    {
      Job(arrival, tid, kind, state, recursive, listed, file, Zipped(remotePaths, localPaths, files), totalSize)
    }

    constructor (ghost arrival: nat, tid: nat, kind: Kind, name: string, masterPath: string)
      ensures Valid() && View() == Job(arrival, tid, kind, Waiting, false, false, false, [], 0)
      ensures this.name == name && this.masterPath == masterPath
    {
      this.arrival, this.tid, this.kind := arrival, tid, kind;
      this.name, this.masterPath := name, masterPath;
      state, recursive, listed, file := Waiting, false, false, false;
      remotePaths, localPaths, files, totalSize := [], [], [], 0;
    }

    method AddFile(remote: string, local: string, added: File)
      requires Valid()
      modifies this`remotePaths, this`localPaths, this`files, this`totalSize
      ensures Valid() && View() == Added(old(View()), Entry(remote, local, added))
    {
      OperationsConserveSizes(View(), Entry(remote, local, added), [], 0);
      remotePaths := remotePaths + [remote];
      localPaths := localPaths + [local];
      files := files + [added];
      totalSize := totalSize + added.size;
      assert Zipped(remotePaths, localPaths, files) == Added(old(View()), Entry(remote, local, added)).entries;
    }

    /** `wr_transfer_download_add_file`: a file is queued under its local path; a directory is only
        created on disk. */
    method DownloadAddFile(added: File, isFile: bool, whole: bool, downloadPath: string)
      requires Valid()
      modifies this`remotePaths, this`localPaths, this`files, this`totalSize
      ensures Valid()
      ensures View() == if isFile then
                          Added(old(View()), DownloadEntry(name, masterPath, downloadPath, added, whole))
                        else old(View())
    {
      var local := if whole then Walk.Appended(name, Below(added.path, masterPath)) else LastComponent(added.path);
      local := Walk.Appended(Walk.Normalized(downloadPath), local);
      if isFile {
        AddFile(added.path, local, added);
      }
    }

    /** `wr_transfer_close`; the local file, if open, is closed. */
    method Close()
      requires Valid() && remotePaths != []
      modifies this`remotePaths, this`localPaths, this`files, this`file
      ensures Valid() && View() == Dropped(old(View()), 1)
    {
      CoveredAfterDrop(View(), 1);
      remotePaths := remotePaths[1..];
      localPaths := localPaths[1..];
      files := files[1..];
      file := false;
      assert Zipped(remotePaths, localPaths, files) == old(View()).entries[1..];
    }

    /** Opens the first local file; a download is written under its partial name. */
    method OpenLocalFile(disk: Disk) returns (ok: bool)
      requires Valid() && localPaths != []
      modifies this`localPaths, this`file
      ensures Valid()
      ensures var was := old(View());
              && View().entries[1..] == was.entries[1..] && View() == was.(entries := View().entries, open := file)
              && View().entries[0] == Attempted(kind, was.entries[0])
      ensures ok == if kind.Download? then View().entries[0].local in disk.updatable
                    else Readable(disk, View().entries[0].local)
      ensures ok ==> file
    {
      var local := localPaths[0];
      if kind.Download? {
        if !HasSuffix(local, SUFFIX) {
          local := local + SUFFIX;
          localPaths := localPaths[0 := local];
        }
        file := local in disk.updatable;
        ok := file;
      } else {
        file := local in disk.readable;
        ok := file && local in disk.sizes;
      }
      SameFilesSameSizes(Zipped(remotePaths, localPaths, files), old(View()).entries);
    }

    /** The end of a file's transfer: `whole` says that all of it has arrived. */
    method FinishFile(whole: bool)
      requires Valid() && remotePaths != []
      modifies this`state, this`remotePaths, this`localPaths, this`files, this`file
      ensures Valid()
      ensures View() == Dropped(old(View()).(state := if whole && kind.Download? then Finished else old(state)), 1)
    {
      if whole && kind.Download? {
        state := Finished;
      }
      Close();
    }

    /** Removes the entry at index `i` from the three arrays and its size from the total. */
    method RemoveAt(i: nat)
      requires Valid() && i < |remotePaths|
      modifies this`remotePaths, this`localPaths, this`files, this`totalSize
      ensures Valid() && |remotePaths| == |old(remotePaths)| - 1
      ensures View() == old(View()).(entries := old(View()).entries[..i] + old(View()).entries[i + 1..],
                                     totalSize := totalSize)
      ensures Settled(View()) == old(Settled(View()))
    {
      SizesWithout(View().entries, i);
      ZippedWithout(remotePaths, localPaths, files, i);
      totalSize := totalSize - files[i].size;
      remotePaths := remotePaths[..i] + remotePaths[i + 1..];
      localPaths := localPaths[..i] + localPaths[i + 1..];
      files := files[..i] + files[i + 1..];
    }

    /** The first of the first `count` remote paths that is `path`, or `count`. */
    method FirstIndex(path: string, count: nat) returns (i: nat)
      requires count <= |remotePaths|
      ensures i <= count && forall j :: 0 <= j < i ==> remotePaths[j] != path
      ensures i < count ==> remotePaths[i] == path
    {
      i := 0;
      while i < count && path != remotePaths[i]
        invariant i <= count
        invariant forall j :: 0 <= j < i ==> remotePaths[j] != path
      {
        i := i + 1;
      }
    }

    /** Removes the first file with the given remote path, if there is one. */
    method RemovePath(path: string, count: nat) returns (left: nat)
      requires Valid() && count == |remotePaths|
      modifies this`remotePaths, this`localPaths, this`files, this`totalSize
      ensures Valid() && left == |remotePaths|
      ensures View() == old(View()).(entries := WithoutPath(old(View()).entries, path), totalSize := totalSize)
      ensures Settled(View()) == old(Settled(View()))
    {
      ghost var entries := View().entries;
      left := count;
      var i := FirstIndex(path, count);
      if i < count {
        FirstMatchGoes(entries, path, i);
        RemoveAt(i);
        left := count - 1;
      } else {
        NoMatchStays(entries, path);
      }
    }

    /** `wr_transfer_upload_remove_files`; `count` follows the shrinking arrays. */
    method RemoveFiles(removed: seq<File>)
      requires Valid()
      modifies this`remotePaths, this`localPaths, this`files, this`totalSize
      ensures Valid() && View() == Pruned(old(View()), removed)
    {
      RemovalShrinks(View().entries, removed);
      ghost var before := View();
      var count := |remotePaths|;
      for k := 0 to |removed|
        invariant Valid() && count == |remotePaths|
        invariant Settled(View()) == Settled(before)
        invariant View() == before.(entries := View().entries, totalSize := totalSize)
        invariant WithoutFiles(View().entries, removed[k..]) == WithoutFiles(before.entries, removed)
      {
        assert removed[k..][0] == removed[k] && removed[k..][1..] == removed[k + 1..];
        count := RemovePath(removed[k].path, count);
      }
    }
  }

  lemma {:induction false} SizesWithout(entries: seq<Entry>, i: nat)
    requires i < |entries|
    ensures SumSizes(entries[..i] + entries[i + 1..]) + entries[i].file.size == SumSizes(entries)
  {
    SumSizesSplit(entries, i);
    assert entries[i..][1..] == entries[i + 1..];
    var left := entries[..i] + entries[i + 1..];
    SumSizesSplit(left, i);
    assert left[..i] == entries[..i] && left[i..] == entries[i + 1..];
  }

  lemma {:induction false} NoMatchStays(entries: seq<Entry>, path: string)
    requires forall j :: 0 <= j < |entries| ==> entries[j].remote != path
    ensures WithoutPath(entries, path) == entries
  {
    if entries != [] { NoMatchStays(entries[1..], path); }
  }

  lemma {:induction false} SumSizesAppend(entries: seq<Entry>, entry: Entry)
    ensures SumSizes(entries + [entry]) == SumSizes(entries) + entry.file.size
  {
    var all := entries + [entry];
    SumSizesSplit(all, |entries|);
    assert all[..|entries|] == entries && all[|entries|..] == [entry] && [entry][1..] == [];
    assert SumSizes([entry]) == entry.file.size + SumSizes([entry][1..]);
  }

  /** The entries that queue files found by the walk. */
  function EntriesFor(name: string, source: string, found: seq<Walk.Found>): seq<Entry> {
    seq(|found|, k requires 0 <= k < |found| =>
          Entry(Walk.RemotePath(Walk.FullPath(name), source, found[k].path), found[k].path,
                File(found[k].path, found[k].size)))
  }

  /** Everything queued for the upload of `source` under `name`. */
  function UploadEntries(name: string, source: string, node: Walk.Node): seq<Entry> {
    if node.File? then [Entry(Walk.FullPath(name), source, File(source, node.size))]
    else EntriesFor(name, source, Walk.Walk(node, [], Walk.StreamBase(source)))
  }

  /** What the upload of a directory queues: every file the walk finds, in that order; to be read
      under its own local path, to be written below the master path at the place it has below the
      source; and no two at one remote path. */
  lemma {:induction false} UploadEntriesArePlaced(name: string, source: string, node: Walk.Node)
    requires node.Dir? && Walk.WellNamed(node) && '/' !in name
    ensures var entries, base := UploadEntries(name, source, node), Walk.StreamBase(source);
            var found, master := Walk.Walk(node, [], base), Walk.FullPath(name);
            && |entries| == |found|
            && (forall k :: 0 <= k < |entries| ==>
                  && entries[k].local == found[k].path && base <= entries[k].local
                  && entries[k].remote == (if master == "/" then "" else master) + entries[k].local[|base|..]
                  && entries[k].file == File(found[k].path, found[k].size))
            && (forall j, k :: 0 <= j < k < |entries| ==> entries[j].remote != entries[k].remote)
  {
    var entries, base := UploadEntries(name, source, node), Walk.StreamBase(source);
    var found, master := Walk.Walk(node, [], base), Walk.FullPath(name);
    forall k | 0 <= k < |entries|
      ensures base <= found[k].path
      ensures entries[k].remote == (if master == "/" then "" else master) + found[k].path[|base|..]
    {
      assert found[k] in found;
      Walk.QueuedBelowMaster(node, source, name, found[k]);
    }
    forall j, k | 0 <= j < k < |entries|
      ensures entries[j].remote != entries[k].remote
    {
      Walk.QueuedPathsDiffer(node, source, name, j, k);
    }
  }

  /** The upload of a file queues that file alone, to be read where it is and to be written under its
      name below the root. */
  lemma {:induction false} UploadedFileIsPlaced(name: string, source: string, node: Walk.Node)
    requires node.File? && Walk.PlainName(name)
    ensures UploadEntries(name, source, node) == [Entry("/" + name, source, File(source, node.size))]
  {
    Walk.FullPathOfName(name);
    assert Join([name], '/') == name;
  }

  method AddEntries(t: Transfer, entries: seq<Entry>)
    requires t.Valid() && t.View().entries == [] && t.totalSize == 0
    modifies t`remotePaths, t`localPaths, t`files, t`totalSize
    ensures t.Valid() && t.View() == old(t.View()).(entries := entries, totalSize := SumSizes(entries))
  {
    assert entries[..0] == [];
    for k := 0 to |entries|
      invariant t.Valid()
      invariant t.View() == old(t.View()).(entries := entries[..k], totalSize := SumSizes(entries[..k]))
    {
      SumSizesAppend(entries[..k], entries[k]);
      TakeOneMore(entries, k);
      t.AddFile(entries[k].remote, entries[k].local, entries[k].file);
    }
    assert entries[..|entries|] == entries;
  }

  /** `wr_transfer_upload_add_file`; `opens` says whether libwired can open the file tree stream. */
  method UploadAddFile(t: Transfer, name: string, source: string, node: Walk.Node, opens: bool) returns (added: bool)
    requires t.Valid() && t.View().entries == [] && t.totalSize == 0
    modifies t`recursive, t`remotePaths, t`localPaths, t`files, t`totalSize
    ensures t.Valid() && added == (node.File? || opens)
    ensures added ==> var entries := UploadEntries(name, source, node);
            t.View() == old(t.View()).(recursive := old(t.recursive) || !node.File?, entries := entries,
                                       totalSize := SumSizes(entries))
  {
    if node.File? {
      ghost var entry := Entry(Walk.FullPath(name), source, File(source, node.size));
      t.AddFile(Walk.FullPath(name), source, File(source, node.size));
      SumSizesAppend([], entry);
      assert [] + [entry] == [entry];
      return true;
    }
    t.recursive := true;
    if !opens {
      return false;
    }
    var found := Walk.CollectFiles(node, Walk.StreamBase(source));
    AddEntries(t, EntriesFor(name, source, found));
    return true;
  }

  /** What is left to do: one for every transfer and one for every file in it. */
  function Work(jobs: seq<Job>): nat {
    if jobs == [] then 0 else 1 + |jobs[0].entries| + Work(jobs[1..])
  }

  /** Giving up the first file forgets everything about it. */
  lemma {:induction false} GiveUpIgnoresFirst(q: Queue, head: Job, disk: Disk)
    requires q.jobs != [] && q.jobs[0].entries != [] && head.entries != []
    requires Dropped(head, 1) == Dropped(q.jobs[0], 1)
    ensures GivenUp(WithHead(q, head), disk) == GivenUp(q, disk)
  {
    assert WithHead(WithHead(q, head), Dropped(head, 1)) == WithHead(q, Dropped(head, 1));
  }

  /** After the attempt to open the first file of the head: the request is done, or it comes to
      giving that file up. */
  lemma {:induction false} OpenedOrGivenUp(q: Queue, head: Job, ok: bool, disk: Disk)
    requires q.jobs != [] && q.jobs[0].entries != [] && head.entries != []
    requires q.jobs[0].kind.Download? ==> q.jobs[0].entries[0].local !in disk.sizes
    requires head == q.jobs[0].(entries := head.entries, open := head.open)
    requires head.entries[1..] == q.jobs[0].entries[1..]
    requires var was := q.jobs[0].entries[0];
             && head.entries[0] == Attempted(head.kind, was)
             && ok == (if head.kind.Download? then head.entries[0].local in disk.updatable
                       else Readable(disk, was.local))
             && (ok ==> head.open)
    ensures ok ==> WithHead(q, head) == Requested(q, disk)
    ensures !ok ==> GivenUp(WithHead(q, head), disk) == Requested(q, disk)
  {
    var was, now := q.jobs[0].entries, head.entries;
    assert was == [was[0]] + was[1..] && now == [now[0]] + now[1..];
    assert now == was[0 := now[0]];
    GiveUpIgnoresFirst(q, head, disk);
  }

  /** What the rest of the program and the server do to the queue. */
  datatype Event =
    | DownloadQueued(path: string)
    | UploadQueued(path: string, node: Option<Walk.Node>, opens: bool)
    | DownloadListed(added: File, isFile: bool, whole: bool, downloadPath: string)
    | TargetListed(files: seq<File>)
    | Replied
    | FileOpened
    | FileCompleted(whole: bool)
    | FileFailed

  /** An upload can be queued when its path is readable and, for a directory, its tree opens. */
  predicate CanUpload(node: Option<Walk.Node>, opens: bool) {
    node.Some? && (node.value.File? || opens)
  }

  /** The step of an event about the head itself. */
  function ServedStep(event: Event): Step
    requires !event.DownloadQueued? && !event.UploadQueued? && !event.DownloadListed?
  {
    match event
    case TargetListed(files) => Listed(files)
    case Replied => Begin
    case FileOpened => Opened
    case FileCompleted(whole) => Completed(whole)
    case FileFailed => Failed
  }

  /** The event is a step of the queue. Everything but queueing is about the head; where there is no
      such head, nobody is called. */
  predicate IsStep(q: Queue, event: Event) {
    match event
    case DownloadQueued(_) => true
    case UploadQueued(_, node, opens) => CanUpload(node, opens)
    case DownloadListed(_, isFile, _, _) => isFile && q.jobs != [] && q.jobs[0].kind.Download?
    case _ => Enabled(q, ServedStep(event))
  }

  /** Nobody is passed over: queueing is always a step unless an upload cannot be read, and the head
      is served when it is in the state the event is about. */
  lemma {:induction false} EventsAreHeard(q: Queue, path: string, node: Option<Walk.Node>, opens: bool,
                                          added: File, downloadPath: string, files: seq<File>, whole: bool)
    requires Inv(q)
    ensures IsStep(q, DownloadQueued(path))
    ensures IsStep(q, UploadQueued(path, node, opens)) <==> node.Some? && (node.value.File? || opens)
    ensures q.jobs != [] ==>
              && (IsStep(q, DownloadListed(added, true, whole, downloadPath)) <==> q.jobs[0].kind.Download?)
              && (IsStep(q, TargetListed(files)) <==> q.jobs[0].kind.Upload? && q.jobs[0].recursive)
              && (IsStep(q, Replied) <==> q.jobs[0].state == Waiting)
              && (IsStep(q, FileOpened) <==> q.jobs[0].open)
              && (IsStep(q, FileCompleted(whole)) <==> q.jobs[0].state == Running && q.jobs[0].entries != [])
              && (IsStep(q, FileFailed) <==> q.jobs[0].state == Running)
  {
  }

  /** The step an event is; the local path of a download depends on the head's names. */
  predicate Means(event: Event, step: Step) {
    match event
    case DownloadQueued(_) => step == Step.QueueDownload
    case UploadQueued(path, node, opens) =>
      CanUpload(node, opens) &&
      step == Step.QueueUpload(!node.value.File?,
                               UploadEntries(LastComponent(path), Walk.Normalized(path), node.value))
    case DownloadListed(added, _, whole, downloadPath) =>
      step.AddDownload? && step.entry.remote == added.path && step.entry.file == added
    case _ => step == ServedStep(event)
  }

  /** The steps are what the events come to, one after the other. */
  predicate Follows(q: Queue, events: seq<(Event, Disk)>, steps: seq<(Step, Disk)>)
    decreases |events|
  {
    if events == [] then steps == []
    else if !IsStep(q, events[0].0) then Follows(q, events[1..], steps)
    else
      && steps != [] && Means(events[0].0, steps[0].0) && steps[0].1 == events[0].1
      && Enabled(q, steps[0].0) && Follows(Apply(q, steps[0].0, steps[0].1), events[1..], steps[1..])
  }

  /** One event took the queue from `q` to `next`, by the given step or, if it is none, by nothing. */
  predicate IsStepOf(q: Queue, event: Event, disk: Disk, steps: seq<(Step, Disk)>, next: Queue) {
    if IsStep(q, event) then
      && |steps| == 1 && Means(event, steps[0].0) && steps[0].1 == disk
      && Enabled(q, steps[0].0) && next == Apply(q, steps[0].0, disk)
    else steps == [] && next == q
  }

  /** The steps are what the events come to, and they lead from `q` to `now`. */
  predicate ComesTo(q: Queue, events: seq<(Event, Disk)>, steps: seq<(Step, Disk)>, now: Queue) {
    Follows(q, events, steps) && EnabledRun(q, steps) && now == Run(q, steps)
  }

  lemma {:induction false} NoEvents(q: Queue)
    ensures ComesTo(q, [], [], q)
  {
  }

  lemma {:induction false} EventFirst(q: Queue, event: (Event, Disk), more: seq<(Step, Disk)>, next: Queue,
                                      events: seq<(Event, Disk)>, steps: seq<(Step, Disk)>, last: Queue)
    requires IsStepOf(q, event.0, event.1, more, next) && ComesTo(next, events, steps, last)
    ensures ComesTo(q, [event] + events, more + steps, last)
  {
    var all, done := [event] + events, more + steps;
    assert all[0] == event && all[1..] == events;
    if more == [] {
      assert done == steps;
    } else {
      assert done[0] == more[0] && done[1..] == steps;
    }
  }

  lemma {:induction false} FollowsAppend(q: Queue, events: seq<(Event, Disk)>, steps: seq<(Step, Disk)>,
                                         event: (Event, Disk), more: seq<(Step, Disk)>, now: Queue, next: Queue)
    requires ComesTo(q, events, steps, now) && IsStepOf(now, event.0, event.1, more, next)
    ensures ComesTo(q, events + [event], steps + more, next)
    decreases |events|
  {
    if events == [] {
      NoEvents(next);
      EventFirst(q, event, more, next, [], [], next);
      assert events + [event] == [event] + [] && steps + more == more + [];
    } else {
      var first, tail := events[0], events[1..];
      var taken := if IsStep(q, first.0) then [steps[0]] else [];
      var second := if taken != [] then Apply(q, steps[0].0, first.1) else q;
      var rest := steps[|taken|..];
      assert steps == taken + rest && events == [first] + tail;
      FollowsAppend(second, tail, rest, event, more, now, next);
      EventFirst(q, first, taken, second, tail + [event], rest + more, next);
      Associate([first], tail, [event]);
      Associate(taken, rest, more);
    }
  }

  class TransferQueue {
    var transfers: seq<Transfer>
    ghost var starts: seq<nat>
    ghost var next: nat

    ghost predicate Valid()
      reads this, transfers
    {
      && (forall t :: t in transfers ==> t.Valid())
      && forall j, k :: 0 <= j < k < |transfers| ==> transfers[j] != transfers[k]
    }

    static ghost function Views(ts: seq<Transfer>): (jobs: seq<Job>)
      requires forall t :: t in ts ==> t.Valid()
      reads ts
      ensures |jobs| == |ts| && forall k :: 0 <= k < |ts| ==> jobs[k] == ts[k].View()
    {
      seq(|ts|, k requires 0 <= k < |ts| && ts[k].Valid() reads ts => ts[k].View())
    }

    static lemma {:induction false} ViewsAppend(ts: seq<Transfer>, t: Transfer)
      requires t.Valid() && forall u :: u in ts ==> u.Valid()
      ensures Views(ts + [t]) == Views(ts) + [t.View()]
    {
    }

    ghost function View(): Queue
      requires Valid()
      reads this, transfers
    {
      Queue(Views(transfers), starts, next)
    }

    ghost function All(): set<Transfer>
      reads this
    {
      set t | t in transfers
    }

    /** When only the head has changed, the view has a new head. */
    lemma {:induction false} HeadChanged(before: Queue)
      requires Valid() && transfers != [] && |before.jobs| == |transfers|
      requires forall k :: 0 < k < |transfers| ==> transfers[k].View() == before.jobs[k]
      requires before.starts == starts && before.next == next
      ensures View() == WithHead(before, transfers[0].View())
    {
      assert Views(transfers) == [transfers[0].View()] + before.jobs[1..];
    }

    /** New objects do not show in the view. */
    twostate lemma {:induction false} NothingChanged()
      requires old(Valid()) && unchanged(this) && forall t :: t in transfers ==> unchanged(t)
      ensures Valid() && View() == old(View())
    {
      assert forall t :: t in transfers ==> t.Valid() && t.View() == old(t.View());
      assert Views(transfers) == old(Views(transfers));
    }

    constructor ()
      ensures Valid() && View() == EMPTY
    {
      transfers, starts, next := [], [], 0;
    }

    /** Starts a transfer. That every caller can show `t` to be the head is the claim that only the
        head is ever started. */
    method Start(t: Transfer, disk: Disk)
      requires Valid() && transfers != [] && t == transfers[0]
      modifies this, transfers
      ensures Valid() && View() == Started(old(View()), disk) && All() <= old(All())
      decreases Work(View().jobs), 3
    {
      starts := starts + [t.arrival];
      if t.state == Waiting {
        if t.kind.Download? {
          // only asks the server about the file
        } else {
          if t.recursive && !t.listed {
            // only asks the server for a listing
          } else {
            StartedIsRequested(old(View()), disk);
            Request(t, disk);
          }
        }
      }
    }

    method StartNextOrStop(t: Transfer, disk: Disk)
      requires Valid() && transfers != [] && t == transfers[0]
      modifies this, transfers
      ensures Valid() && View() == NextOrStopped(old(View()), disk) && All() <= old(All())
      decreases Work(View().jobs), if t.remotePaths == [] then 1 else 4
    {
      assert t in transfers && View().jobs[0] == t.View();
      if |t.remotePaths| > 0 {
        t.state := Waiting;
        HeadChanged(old(View()));
        Start(t, disk);
      } else {
        Stop(t, disk);
      }
    }

    method Request(t: Transfer, disk: Disk)
      requires Valid() && transfers != [] && t == transfers[0]
      modifies this, transfers
      ensures Valid() && View() == Requested(old(View()), disk) && All() <= old(All())
      decreases Work(View().jobs), 2
    {
      assert t in transfers && View().jobs[0] == t.View();
      if |t.localPaths| == 0 {
        StartNextOrStop(t, disk);
        return;
      }
      if t.kind.Download? && t.localPaths[0] in disk.sizes {
        GiveUp(t, disk);
        return;
      }
      ghost var before := View();
      var ok := t.OpenLocalFile(disk);
      HeadChanged(before);
      OpenedOrGivenUp(before, t.View(), ok, disk);
      if !ok {
        GiveUp(t, disk);
      }
    }

    /** The failure exits of a request: close the first file and, for a directory, go on. */
    method GiveUp(t: Transfer, disk: Disk)
      requires Valid() && transfers != [] && t == transfers[0] && t.remotePaths != []
      modifies this, transfers
      ensures Valid() && View() == GivenUp(old(View()), disk) && All() <= old(All())
      decreases Work(View().jobs), 1
    {
      assert t in transfers && View().jobs[0] == t.View();
      t.Close();
      HeadChanged(old(View()));
      if t.recursive {
        StartNextOrStop(t, disk);
      }
    }

    /** Takes the head out of the queue and starts the next transfer. */
    method Stop(t: Transfer, disk: Disk)
      requires Valid() && transfers != [] && t == transfers[0]
      modifies this, transfers
      ensures Valid() && View() == Stopped(old(View()), disk) && All() <= old(All())
      decreases Work(View().jobs), 0
    {
      assert Views(transfers)[1..] == Views(transfers[1..]);
      transfers := transfers[1..];
      if transfers != [] {
        Start(transfers[0], disk);
      }
    }

    // ----- What the rest of the program calls

    /** `wr_transfer_init` with `wr_transfer_tid`. */
    method NewTransfer(kind: Kind, name: string, masterPath: string) returns (t: Transfer)
      requires Valid()
      ensures t.name == name && t.masterPath == masterPath
      ensures fresh(t) && t.Valid() && t.View() == NewJob(View(), kind, false, [])
    {
      var tid := 1;
      if |transfers| > 0 {
        tid := transfers[|transfers| - 1].tid + 1;
        assert transfers[|transfers| - 1].View() == View().jobs[|transfers| - 1];
      }
      t := new Transfer(next, tid, kind, name, masterPath);
    }

    /** The common end of both queueing functions. */
    method Enqueue(t: Transfer, disk: Disk)
      requires Valid() && t !in transfers && t.Valid()
      requires t.tid == 1 <==> transfers == []
      modifies this, transfers, t
      ensures Valid() && View() == Enqueued(old(View()), old(t.View()), disk) && All() <= old(All()) + {t}
    {
      ViewsAppend(transfers, t);
      transfers := transfers + [t];
      next := next + 1;
      if t.tid == 1 {
        Start(t, disk);
      }
    }

    method QueueDownload(path: string, disk: Disk) returns (ghost t: Transfer)
      requires Valid() && Inv(View())
      modifies this, transfers
      ensures Valid() && View() == Enqueued(old(View()), NewJob(old(View()), Kind.Download, false, []), disk)
      ensures t.name == LastComponent(path) && t.masterPath == path
      ensures fresh(t) && All() <= old(All()) + {t}
    {
      var added := NewTransfer(Kind.Download, LastComponent(path), path);
      FirstTid(View());
      Enqueue(added, disk);
      t := added;
    }

    /** The transfer an upload queues. */
    static ghost function UploadJob(q: Queue, name: string, source: string, node: Walk.Node): Job {
      NewJob(q, Kind.Upload, !node.File?, UploadEntries(name, source, node))
    }

    method NewUpload(name: string, source: string, node: Option<Walk.Node>, opens: bool)
      returns (t: Transfer, added: bool)
      requires Valid()
      ensures fresh(t) && t.Valid() && t.tid == NextTid(View().jobs)
      ensures t.name == name && t.masterPath == Walk.FullPath(name)
      ensures added == CanUpload(node, opens)
      ensures added ==> t.View() == UploadJob(View(), name, source, node.value)
    {
      ghost var q := View();
      t := NewTransfer(Kind.Upload, name, Walk.FullPath(name));
      added := false;
      if node.Some? {
        added := UploadAddFile(t, name, source, node.value, opens);
        NothingChanged();
        assert View() == q;
      }
    }

    /** Nothing is queued when the local path cannot be read or its file tree cannot be opened. */
    method QueueUpload(path: string, node: Option<Walk.Node>, opens: bool, disk: Disk)
      returns (queued: bool, ghost t: Transfer)
      requires Valid() && Inv(View())
      modifies this, transfers
      ensures Valid()
      ensures queued == (node.Some? && (node.value.File? || opens))
      ensures !queued ==> View() == old(View())
      ensures queued ==>
                var job := UploadJob(old(View()), LastComponent(path), Walk.Normalized(path), node.value);
                View() == Enqueued(old(View()), job, disk)
      ensures t.name == LastComponent(path) && t.masterPath == Walk.FullPath(t.name)
      ensures fresh(t) && All() <= old(All()) + {t}
    {
      ghost var q := View();
      var name, source := LastComponent(path), Walk.Normalized(path);
      var added;
      added, queued := NewUpload(name, source, node, opens);
      t := added;
      NothingChanged();
      if queued {
        FirstTid(q);
        Enqueue(added, disk);
      }
    }

    /** One file of the server's answer about the download being served. */
    method OnDownloadListed(added: File, isFile: bool, whole: bool, downloadPath: string, disk: Disk)
      requires Valid() && transfers != [] && transfers[0].kind.Download?
      modifies transfers
      ensures Valid()
      ensures var head := transfers[0];
              var step := Step.AddDownload(DownloadEntry(head.name, head.masterPath, downloadPath, added, whole));
              transfers == old(transfers) && Enabled(old(View()), step)
              && View() == if isFile then Apply(old(View()), step, disk) else old(View())
    {
      assert transfers[0] in transfers && View().jobs[0] == transfers[0].View();
      transfers[0].DownloadAddFile(added, isFile, whole, downloadPath);
      HeadChanged(old(View()));
    }

    /** The server's listing of an upload's target has arrived: what is there already is not sent. */
    method OnListed(removed: seq<File>, disk: Disk)
      requires Valid() && Enabled(View(), Listed(removed))
      modifies transfers
      ensures Valid() && View() == Apply(old(View()), Listed(removed), disk) && All() <= old(All())
    {
      var t := transfers[0];
      t.RemoveFiles(removed);
      t.listed := true;
      HeadChanged(old(View()));
    }

    method OnReply(disk: Disk)
      requires Valid() && Enabled(View(), Begin)
      modifies this, transfers
      ensures Valid() && View() == Apply(old(View()), Begin, disk) && All() <= old(All())
    {
      Request(transfers[0], disk);
    }

    method OnOpened(disk: Disk)
      requires Valid() && Enabled(View(), Opened)
      modifies transfers
      ensures Valid() && View() == Apply(old(View()), Opened, disk) && All() <= old(All())
    {
      transfers[0].state := Running;
      HeadChanged(old(View()));
    }

    /** The end of both runloop callbacks: the running file is closed and the transfer goes on. */
    method OnCompleted(whole: bool, disk: Disk)
      requires Valid() && Enabled(View(), Completed(whole))
      modifies this, transfers
      ensures Valid() && View() == Apply(old(View()), Completed(whole), disk) && All() <= old(All())
    {
      var t := transfers[0];
      assert t in transfers;
      t.FinishFile(whole);
      HeadChanged(old(View()));
      StartNextOrStop(t, disk);
    }

    method OnFailed(disk: Disk)
      requires Valid() && Enabled(View(), Failed)
      modifies this, transfers
      ensures Valid() && View() == Apply(old(View()), Failed, disk) && All() <= old(All())
    {
      Stop(transfers[0], disk);
    }

    // ----- A run of the queue

    method HandleDownload(path: string, disk: Disk) returns (ghost steps: seq<(Step, Disk)>)
      requires Valid() && Inv(View())
      modifies this, transfers
      ensures Valid() && Inv(View()) && IsStepOf(old(View()), DownloadQueued(path), disk, steps, View())
      ensures fresh(All() - old(All()))
    {
      StepKeepsInv(View(), Step.QueueDownload, disk);
      ghost var t := QueueDownload(path, disk);
      steps := [(Step.QueueDownload, disk)];
    }

    static ghost function UploadStep(path: string, node: Walk.Node): Step {
      Step.QueueUpload(!node.File?, UploadEntries(LastComponent(path), Walk.Normalized(path), node))
    }

    static lemma {:induction false} UploadIsStep(
        q: Queue, path: string, node: Option<Walk.Node>, opens: bool, disk: Disk)
      requires Inv(q) && CanUpload(node, opens)
      ensures var next := Enqueued(q, UploadJob(q, LastComponent(path), Walk.Normalized(path), node.value), disk);
              && Inv(next)
              && IsStepOf(q, UploadQueued(path, node, opens), disk, [(UploadStep(path, node.value), disk)], next)
    {
      StepKeepsInv(q, UploadStep(path, node.value), disk);
    }

    method HandleUpload(path: string, node: Option<Walk.Node>, opens: bool, disk: Disk)
      returns (ghost steps: seq<(Step, Disk)>)
      requires Valid() && Inv(View())
      modifies this, transfers
      ensures Valid() && Inv(View()) && IsStepOf(old(View()), UploadQueued(path, node, opens), disk, steps, View())
      ensures fresh(All() - old(All()))
    {
      ghost var q := View();
      steps := [];
      var queued;
      ghost var t;
      queued, t := QueueUpload(path, node, opens, disk);
      if queued {
        steps := [(UploadStep(path, node.value), disk)];
        UploadIsStep(q, path, node, opens, disk);
      }
    }

    method HandleListed(added: File, isFile: bool, whole: bool, downloadPath: string, disk: Disk)
      returns (ghost steps: seq<(Step, Disk)>)
      requires Valid() && Inv(View())
      modifies this, transfers
      ensures var event := DownloadListed(added, isFile, whole, downloadPath);
              Valid() && Inv(View()) && IsStepOf(old(View()), event, disk, steps, View())
      ensures fresh(All() - old(All()))
    {
      ghost var q := View();
      steps := [];
      if |transfers| > 0 && transfers[0].kind.Download? {
        ghost var head := transfers[0];
        ghost var step := Step.AddDownload(DownloadEntry(head.name, head.masterPath, downloadPath, added, whole));
        OnDownloadListed(added, isFile, whole, downloadPath, disk);
        if isFile {
          StepKeepsInv(q, step, disk);
          steps := [(step, disk)];
        }
      } else {
        assert q.jobs != [] ==> q.jobs[0] == transfers[0].View();
      }
    }

    /** The events about the head itself: is anybody called? */
    method Called(event: Event) returns (called: bool)
      requires Valid() && Inv(View())
      requires !event.DownloadQueued? && !event.UploadQueued? && !event.DownloadListed?
      ensures called == IsStep(View(), event)
    {
      if |transfers| == 0 {
        return false;
      }
      var head := transfers[0];
      assert View().jobs[0] == head.View();
      match event
      case TargetListed(_) => called := head.kind.Upload? && head.recursive;
      case Replied => called := head.state == Waiting;
      case FileOpened => called := head.file;
      case FileCompleted(_) => called := head.state == Running && head.remotePaths != [];
      case FileFailed => called := head.state == Running;
    }

    method Serve(event: Event, disk: Disk)
      requires !event.DownloadQueued? && !event.UploadQueued? && !event.DownloadListed?
      requires Valid() && IsStep(View(), event)
      modifies this, transfers
      ensures Valid() && View() == Apply(old(View()), ServedStep(event), disk) && All() <= old(All())
    {
      match event
      case TargetListed(files) => OnListed(files, disk);
      case Replied => OnReply(disk);
      case FileOpened => OnOpened(disk);
      case FileCompleted(whole) => OnCompleted(whole, disk);
      case FileFailed => OnFailed(disk);
    }

    method HandleServed(event: Event, disk: Disk) returns (ghost steps: seq<(Step, Disk)>)
      requires !event.DownloadQueued? && !event.UploadQueued? && !event.DownloadListed?
      requires Valid() && Inv(View())
      modifies this, transfers
      ensures Valid() && Inv(View()) && IsStepOf(old(View()), event, disk, steps, View())
      ensures fresh(All() - old(All()))
    {
      steps := [];
      var called := Called(event);
      if called {
        StepKeepsInv(View(), ServedStep(event), disk);
        steps := [(ServedStep(event), disk)];
        Serve(event, disk);
      }
    }

    /** Handles one event, if anybody is called for it, and says which step it was. */
    method Handle(event: Event, disk: Disk) returns (ghost steps: seq<(Step, Disk)>)
      requires Valid() && Inv(View())
      modifies this, transfers
      ensures Valid() && Inv(View()) && IsStepOf(old(View()), event, disk, steps, View())
      ensures fresh(All() - old(All()))
    {
      match event
      case DownloadQueued(path) => steps := HandleDownload(path, disk);
      case UploadQueued(path, node, opens) => steps := HandleUpload(path, node, opens, disk);
      case DownloadListed(added, isFile, whole, downloadPath) =>
        steps := HandleListed(added, isFile, whole, downloadPath, disk);
      case _ => steps := HandleServed(event, disk);
    }

    /** Handles one event after those that led from `q` to the present state `now`. */
    method HandleNext(event: (Event, Disk), ghost events: seq<(Event, Disk)>, ghost q: Queue,
                      ghost steps: seq<(Step, Disk)>, ghost now: Queue)
      returns (ghost longer: seq<(Step, Disk)>, ghost next: Queue)
      requires Valid() && View() == now && Inv(now) && ComesTo(q, events, steps, now)
      modifies this, transfers
      ensures Valid() && View() == next && Inv(next) && fresh(All() - old(All()))
      ensures ComesTo(q, events + [event], longer, next)
    {
      ghost var more := Handle(event.0, event.1);
      next := View();
      FollowsAppend(q, events, steps, event, more, now, next);
      longer := steps + more;
    }

    /** A whole run of events, from whatever state the queue is in, is a run of the model, and keeps
        what every run keeps: transfers are started first come, first served. */
    method HandleAll(events: seq<(Event, Disk)>) returns (ghost steps: seq<(Step, Disk)>)
      requires Valid() && Inv(View())
      modifies this, transfers
      ensures Valid() && Inv(View())
      ensures ComesTo(old(View()), events, steps, View())
    {
      ghost var q, now, done := View(), View(), [];
      steps := [];
      NoEvents(q);
      for k := 0 to |events|
        invariant Valid() && View() == now && fresh(All() - old(All()))
        invariant done == events[..k] && Inv(now) && ComesTo(q, done, steps, now)
      {
        TakeOneMore(events, k);
        steps, now := HandleNext(events[k], done, q, steps, now);
        done := done + [events[k]];
      }
      assert events[..|events|] == events;
    }
  }
}
