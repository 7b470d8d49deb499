/** The transfer queue (wirebot/transfers.c) on values: what starting, requesting, closing and
    stopping come to, and what every run of the queue keeps. */
module Transfers {
  import opened Sequences
  import Watchers

  datatype Kind = Download | Upload

  datatype State = Waiting | Listing | Queued | Running | Finished

  datatype File = File(path: string, size: nat)

  /** One position of the three parallel arrays. */
  datatype Entry = Entry(remote: string, local: string, file: File)

  /** A transfer. `arrival` numbers transfers in the order they were queued; unlike tids it is never
      reused, and the program does not keep it. `open` says that its local file is open. */
  datatype Job = Job(arrival: nat, tid: nat, kind: Kind, state: State, recursive: bool, listed: bool,
                     open: bool, entries: seq<Entry>, totalSize: nat)

  /** The queue, the arrivals of the transfers passed to `wr_transfer_start` so far, in order, and
      the next arrival number. */
  datatype Queue = Queue(jobs: seq<Job>, starts: seq<nat>, next: nat)

  /** The local disk during one call: files that open for reading, sizes of the files that exist,
      files that open for updating. */
  datatype Disk = Disk(readable: set<string>, sizes: map<string, nat>, updatable: set<string>)

  const SUFFIX := ".WiredTransfer"

  predicate HasSuffix(s: string, suffix: string) {
    |suffix| <= |s| && s[|s| - |suffix|..] == suffix
  }

  function PartialPath(local: string): string {
    if HasSuffix(local, SUFFIX) then local else local + SUFFIX
  }

  predicate Readable(disk: Disk, local: string) {
    local in disk.readable && local in disk.sizes
  }

  // ----- Sizes

  function SumSizes(entries: seq<Entry>): nat {
    if entries == [] then 0 else entries[0].file.size + SumSizes(entries[1..])
  }

  lemma {:induction false} SumSizesSplit(entries: seq<Entry>, n: nat)
    requires n <= |entries|
    ensures SumSizes(entries) == SumSizes(entries[..n]) + SumSizes(entries[n..])
  {
    if n == 0 {
      assert entries[..0] == [] && entries[0..] == entries;
    } else {
      SumSizesSplit(entries[1..], n - 1);
      assert entries[..n][1..] == entries[1..][..n - 1];
      assert entries[1..][n - 1..] == entries[n..];
    }
  }

  /** The total still covers the files that are left. */
  predicate Covered(job: Job) {
    SumSizes(job.entries) <= job.totalSize
  }

  /** The part of the total that belongs to files already closed. */
  function Settled(job: Job): int {
    job.totalSize - SumSizes(job.entries)
  }

  // ----- Single operations on a transfer

  /** `n` times `wr_transfer_close`. */
  function Dropped(job: Job, n: nat): Job
    requires n <= |job.entries|
  {
    if n == 0 then job else job.(entries := job.entries[n..], open := false)
  }

  function Added(job: Job, entry: Entry): Job {
    job.(entries := job.entries + [entry], totalSize := job.totalSize + entry.file.size)
  }

  /** Removes the first entry with the given remote path. */
  function WithoutPath(entries: seq<Entry>, path: string): seq<Entry> {
    if entries == [] then []
    else if entries[0].remote == path then entries[1..]
    else [entries[0]] + WithoutPath(entries[1..], path)
  }

  function WithoutFiles(entries: seq<Entry>, files: seq<File>): seq<Entry>
    decreases |files|
  {
    if files == [] then entries else WithoutFiles(WithoutPath(entries, files[0].path), files[1..])
  }

  /** `wr_transfer_upload_remove_files`. */
  function Pruned(job: Job, files: seq<File>): Job
    requires Covered(job)
  {
    var left := WithoutFiles(job.entries, files);
    RemovalShrinks(job.entries, files);
    job.(entries := left, totalSize := job.totalSize - (SumSizes(job.entries) - SumSizes(left)))
  }

  lemma {:induction false} PathRemovalShrinks(entries: seq<Entry>, path: string)
    ensures SumSizes(WithoutPath(entries, path)) <= SumSizes(entries)
  {
    if entries != [] && entries[0].remote != path {
      PathRemovalShrinks(entries[1..], path);
      var rest := WithoutPath(entries[1..], path);
      assert ([entries[0]] + rest)[1..] == rest;
    }
  }

  lemma {:induction false} RemovalShrinks(entries: seq<Entry>, files: seq<File>)
    ensures SumSizes(WithoutFiles(entries, files)) <= SumSizes(entries)
    decreases |files|
  {
    if files != [] {
      PathRemovalShrinks(entries, files[0].path);
      RemovalShrinks(WithoutPath(entries, files[0].path), files[1..]);
    }
  }

  /** Adding and removing files never touches the settled part of the total; closing moves exactly
      the sizes of the closed files into it. */
  lemma {:induction false} OperationsConserveSizes(job: Job, entry: Entry, files: seq<File>, n: nat)
    requires Covered(job) && n <= |job.entries|
    ensures Settled(Added(job, entry)) == Settled(job) && Covered(Added(job, entry))
    ensures Settled(Pruned(job, files)) == Settled(job) && Covered(Pruned(job, files))
    ensures Settled(Dropped(job, n)) == Settled(job) + SumSizes(job.entries[..n]) && Covered(Dropped(job, n))
  {
    var all := job.entries + [entry];
    SumSizesSplit(all, |job.entries|);
    assert all[..|job.entries|] == job.entries;
    var last := all[|job.entries|..];
    assert last == [entry] && last[1..] == [];
    assert SumSizes(last) == entry.file.size + SumSizes(last[1..]);
    SumSizesSplit(job.entries, n);
    assert n == 0 ==> job.entries[..0] == [];
  }

  // ----- Removal is order-preserving bag subtraction

  function Remotes(entries: seq<Entry>): (r: seq<string>)
    ensures |r| == |entries| && forall k :: 0 <= k < |r| ==> r[k] == entries[k].remote
  {
    seq(|entries|, k requires 0 <= k < |entries| => entries[k].remote)
  }

  function Paths(files: seq<File>): (r: seq<string>)
    ensures |r| == |files| && forall k :: 0 <= k < |r| ==> r[k] == files[k].path
  {
    seq(|files|, k requires 0 <= k < |files| => files[k].path)
  }

  predicate IsSubsequence(part: seq<Entry>, whole: seq<Entry>)
    decreases |whole|
  {
    if part == [] then true
    else if whole == [] then false
    else (part[0] == whole[0] && IsSubsequence(part[1..], whole[1..])) || IsSubsequence(part, whole[1..])
  }

  lemma {:induction false} SubsequenceOfItself(s: seq<Entry>)
    ensures IsSubsequence(s, s)
  {
    if s != [] { SubsequenceOfItself(s[1..]); }
  }

  lemma {:induction false} SubsequenceIsTransitive(a: seq<Entry>, b: seq<Entry>, c: seq<Entry>)
    requires IsSubsequence(a, b) && IsSubsequence(b, c)
    ensures IsSubsequence(a, c)
    decreases |b| + |c|
  {
    if a != [] {
      if b[0] == c[0] && IsSubsequence(b[1..], c[1..]) {
        if a[0] == b[0] && IsSubsequence(a[1..], b[1..]) {
          SubsequenceIsTransitive(a[1..], b[1..], c[1..]);
        } else {
          SubsequenceIsTransitive(a, b[1..], c[1..]);
        }
      } else {
        SubsequenceIsTransitive(a, b, c[1..]);
      }
    }
  }

  lemma {:induction false} PathRemovalKeepsOrder(entries: seq<Entry>, path: string)
    ensures IsSubsequence(WithoutPath(entries, path), entries)
  {
    if entries != [] {
      if entries[0].remote == path {
        SubsequenceOfItself(entries[1..]);
      } else {
        PathRemovalKeepsOrder(entries[1..], path);
        var rest := WithoutPath(entries[1..], path);
        assert ([entries[0]] + rest)[1..] == rest;
      }
    }
  }

  lemma {:induction false} PathRemovalTakesOne(entries: seq<Entry>, path: string)
    ensures multiset(Remotes(WithoutPath(entries, path))) == multiset(Remotes(entries)) - multiset{path}
  {
    if entries != [] {
      var tail := entries[1..];
      RemotesCons(entries[0], tail);
      assert entries == [entries[0]] + tail;
      if entries[0].remote != path {
        PathRemovalTakesOne(tail, path);
        RemotesCons(entries[0], WithoutPath(tail, path));
      }
    }
  }

  lemma {:induction false} RemotesCons(entry: Entry, tail: seq<Entry>)
    ensures multiset(Remotes([entry] + tail)) == multiset{entry.remote} + multiset(Remotes(tail))
  {
    assert Remotes([entry] + tail) == [entry.remote] + Remotes(tail);
  }

  lemma {:induction false} SubtractTwice(a: multiset<string>, b: multiset<string>, c: multiset<string>)
    ensures a - b - c == a - (b + c)
  {
  }

  lemma {:induction false} RemovalKeepsOrder(entries: seq<Entry>, files: seq<File>)
    ensures IsSubsequence(WithoutFiles(entries, files), entries)
    decreases |files|
  {
    if files == [] {
      SubsequenceOfItself(entries);
    } else {
      var next := WithoutPath(entries, files[0].path);
      PathRemovalKeepsOrder(entries, files[0].path);
      RemovalKeepsOrder(next, files[1..]);
      SubsequenceIsTransitive(WithoutFiles(next, files[1..]), next, entries);
    }
  }

  lemma {:induction false} RemovalTakesListed(entries: seq<Entry>, files: seq<File>)
    ensures multiset(Remotes(WithoutFiles(entries, files))) == multiset(Remotes(entries)) - multiset(Paths(files))
    decreases |files|
  {
    if files != [] {
      var path, rest := files[0].path, Paths(files[1..]);
      PathRemovalTakesOne(entries, path);
      RemovalTakesListed(WithoutPath(entries, path), files[1..]);
      assert Paths(files) == [path] + rest;
      assert multiset(Paths(files)) == multiset{path} + multiset(rest);
      SubtractTwice(multiset(Remotes(entries)), multiset{path}, multiset(rest));
    }
  }

  /** For every file list: the surviving (remote, local, file) triples are a subsequence of the
      original ones, and their remote paths are the original bag minus the listed paths. */
  lemma {:induction false} RemovalIsBagSubtraction(entries: seq<Entry>, files: seq<File>)
    ensures multiset(Remotes(WithoutFiles(entries, files))) == multiset(Remotes(entries)) - multiset(Paths(files))
    ensures IsSubsequence(WithoutFiles(entries, files), entries)
  {
    RemovalTakesListed(entries, files);
    RemovalKeepsOrder(entries, files);
  }

  /** It is the first entry with the path that goes. */
  lemma {:induction false} FirstMatchGoes(entries: seq<Entry>, path: string, k: nat)
    requires k < |entries| && entries[k].remote == path
    requires forall j :: 0 <= j < k ==> entries[j].remote != path
    ensures WithoutPath(entries, path) == entries[..k] + entries[k + 1..]
  {
    if k > 0 {
      FirstMatchGoes(entries[1..], path, k - 1);
      assert entries[..k] == [entries[0]] + entries[1..][..k - 1];
      assert entries[1..][k..] == entries[k + 1..];
    }
  }

  // ----- What starting the head of the queue comes to

  /** The length of the longest prefix of files that cannot be read. */
  function UnreadablePrefix(entries: seq<Entry>, disk: Disk): (n: nat)
    ensures n <= |entries|
    ensures forall k :: 0 <= k < n ==> !Readable(disk, entries[k].local)
    ensures n < |entries| ==> Readable(disk, entries[n].local)
  {
    if entries == [] || Readable(disk, entries[0].local) then 0
    else 1 + UnreadablePrefix(entries[1..], disk)
  }

  function WithHead(q: Queue, job: Job): Queue
    requires q.jobs != []
  {
    q.(jobs := [job] + q.jobs[1..])
  }

  /** Starting only sends a message to the server, or nothing at all. */
  predicate OnlyAsks(job: Job) {
    job.state != Waiting || job.kind.Download? || (job.recursive && !job.listed)
  }

  /** The queue after `wr_transfer_start` on its head. A head that is ready to be read loses its
      longest unreadable prefix and opens the first readable file; when nothing is readable it
      leaves the queue and the next transfer is started. A single file that cannot be read is
      dropped, and its transfer stays. An empty queue starts nothing. */
  function Started(q: Queue, disk: Disk): Queue
    decreases |q.jobs|
  {
    if q.jobs == [] then q
    else
      var head := q.jobs[0];
      var n := UnreadablePrefix(head.entries, disk);
      if OnlyAsks(head) then q.(starts := q.starts + [head.arrival])
      else if head.entries == [] then
        Started(q.(jobs := q.jobs[1..], starts := q.starts + [head.arrival]), disk)
      else if !head.recursive then
        WithHead(q.(starts := q.starts + [head.arrival]), if n == 0 then head.(open := true) else Dropped(head, 1))
      else if n == |head.entries| then
        Started(q.(jobs := q.jobs[1..], starts := q.starts + Repeated(head.arrival, n)), disk)
      else
        WithHead(q.(starts := q.starts + Repeated(head.arrival, n + 1)), Dropped(head, n).(open := true))
  }

  function Stopped(q: Queue, disk: Disk): Queue
    requires q.jobs != []
  {
    Started(q.(jobs := q.jobs[1..]), disk)
  }

  /** The queue after `wr_transfer_start_next_or_stop` on its head. */
  function NextOrStopped(q: Queue, disk: Disk): Queue
    requires q.jobs != []
  {
    if q.jobs[0].entries != [] then Started(WithHead(q, q.jobs[0].(state := Waiting)), disk) else Stopped(q, disk)
  }

  /** The first file of the head is given up. */
  function GivenUp(q: Queue, disk: Disk): Queue
    requires q.jobs != [] && q.jobs[0].entries != []
  {
    var closed := WithHead(q, Dropped(q.jobs[0], 1));
    if q.jobs[0].recursive then NextOrStopped(closed, disk) else closed
  }

  /** The queue after `wr_transfer_request` on its head. */
  function Requested(q: Queue, disk: Disk): Queue
    requires q.jobs != []
  {
    var head := q.jobs[0];
    if head.entries == [] then NextOrStopped(q, disk)
    else if head.kind.Upload? then
      if Readable(disk, head.entries[0].local) then WithHead(q, head.(open := true)) else GivenUp(q, disk)
    else if head.entries[0].local in disk.sizes then GivenUp(q, disk)
    else
      var partial := PartialPath(head.entries[0].local);
      if partial in disk.updatable then
        WithHead(q, head.(entries := head.entries[0 := head.entries[0].(local := partial)], open := true))
      else GivenUp(q, disk)
  }

  lemma {:induction false} RepeatedStarts(starts: seq<nat>, x: nat, n: nat)
    requires n > 0
    ensures starts + [x] + Repeated(x, n - 1) == starts + Repeated(x, n)
    ensures starts + [x] + Repeated(x, n) == starts + Repeated(x, n + 1)
  {
    assert [x] + Repeated(x, n) == Repeated(x, n + 1);
    assert [x] + Repeated(x, n - 1) == Repeated(x, n);
    assert starts + [x] + Repeated(x, n - 1) == starts + ([x] + Repeated(x, n - 1));
    assert starts + [x] + Repeated(x, n) == starts + ([x] + Repeated(x, n));
  }

  /** Dropping one unreadable file and starting again is starting. */
  lemma {:induction false} StartedAfterDrop(q: Queue, disk: Disk)
    requires q.jobs != [] && !OnlyAsks(q.jobs[0]) && q.jobs[0].recursive
    requires |q.jobs[0].entries| > 1 && !Readable(disk, q.jobs[0].entries[0].local)
    ensures Started(q, disk) ==
            Started(WithHead(q.(starts := q.starts + [q.jobs[0].arrival]), Dropped(q.jobs[0], 1)), disk)
  {
    var head := q.jobs[0];
    var closed := Dropped(head, 1);
    var n := UnreadablePrefix(head.entries, disk);
    var next := WithHead(q.(starts := q.starts + [head.arrival]), closed);
    assert next.jobs[0] == closed && next.jobs[1..] == q.jobs[1..];
    assert n == 1 + UnreadablePrefix(closed.entries, disk);
    RepeatedStarts(q.starts, head.arrival, n);
    if n < |head.entries| {
      assert closed.entries[n - 1..] == head.entries[n..];
      assert Dropped(closed, n - 1).(open := true) == Dropped(head, n).(open := true);
    }
  }

  lemma {:induction false} StartedDropsLast(q: Queue, disk: Disk)
    requires q.jobs != [] && !OnlyAsks(q.jobs[0]) && q.jobs[0].recursive
    requires |q.jobs[0].entries| == 1 && !Readable(disk, q.jobs[0].entries[0].local)
    ensures Started(q, disk) ==
            Started(q.(jobs := q.jobs[1..], starts := q.starts + [q.jobs[0].arrival]), disk)
  {
    var head := q.jobs[0];
    assert UnreadablePrefix(head.entries[1..], disk) == 0;
    assert UnreadablePrefix(head.entries, disk) == 1;
    assert Repeated(head.arrival, 1) == [head.arrival];
  }

  /** Starting a head that is ready to be read is requesting it: the one-file-at-a-time call cycle
      comes to the same as dropping the longest unreadable prefix at once. */
  lemma {:induction false} StartedIsRequested(q: Queue, disk: Disk)
    requires q.jobs != [] && !OnlyAsks(q.jobs[0])
    ensures Started(q, disk) == Requested(q.(starts := q.starts + [q.jobs[0].arrival]), disk)
  {
    var head := q.jobs[0];
    var logged := q.(starts := q.starts + [head.arrival]);
    if head.entries == [] {
    } else if Readable(disk, head.entries[0].local) {
      assert UnreadablePrefix(head.entries, disk) == 0;
      assert Repeated(head.arrival, 1) == [head.arrival];
    } else if head.recursive {
      var closed := Dropped(head, 1);
      assert closed == closed.(state := Waiting);
      var next := WithHead(logged, closed);
      assert WithHead(next, closed) == next && next.jobs[1..] == q.jobs[1..];
      if |head.entries| > 1 {
        StartedAfterDrop(q, disk);
      } else {
        StartedDropsLast(q, disk);
      }
    }
  }

  // ----- When the queue stops

  /** A single-file upload is waiting at the head with no file open. Such a transfer asks the server
      nothing, so no reply will ever make it go on. */
  predicate Stuck(q: Queue) {
    q.jobs != [] && !OnlyAsks(q.jobs[0]) && !q.jobs[0].recursive && !q.jobs[0].open
  }

  /** Starting passes over ready transfers that have nothing to read; does it then meet a single file
      that cannot be read? */
  predicate LeadsToStuck(jobs: seq<Job>, disk: Disk) {
    if jobs == [] || OnlyAsks(jobs[0]) then false
    else
      var entries := jobs[0].entries;
      if entries == [] || (jobs[0].recursive && UnreadablePrefix(entries, disk) == |entries|) then
        LeadsToStuck(jobs[1..], disk)
      else !jobs[0].recursive && !Readable(disk, entries[0].local)
  }

  /** The exact condition under which starting leaves the queue stuck. */
  lemma {:induction false} StartedIsStuck(q: Queue, disk: Disk)
    ensures Stuck(Started(q, disk)) <==> LeadsToStuck(q.jobs, disk)
    decreases |q.jobs|
  {
    if q.jobs != [] && !OnlyAsks(q.jobs[0]) {
      var head := q.jobs[0];
      var n := UnreadablePrefix(head.entries, disk);
      if head.entries == [] {
        StartedIsStuck(q.(jobs := q.jobs[1..], starts := q.starts + [head.arrival]), disk);
      } else if head.recursive && n == |head.entries| {
        StartedIsStuck(q.(jobs := q.jobs[1..], starts := q.starts + Repeated(head.arrival, n)), disk);
      }
    }
  }

  /** A single-file download that is asked for is given up, and nothing else happens, exactly when
      its file exists already or its partial file cannot be opened. */
  lemma {:induction false} DownloadIsGivenUp(q: Queue, disk: Disk)
    requires q.jobs != [] && q.jobs[0].kind.Download? && !q.jobs[0].recursive && q.jobs[0].entries != []
    ensures var head := q.jobs[0];
            Requested(q, disk) == WithHead(q, Dropped(head, 1)) <==>
            head.entries[0].local in disk.sizes || PartialPath(head.entries[0].local) !in disk.updatable
  {
    var head, r := q.jobs[0], Requested(q, disk);
    assert WithHead(q, Dropped(head, 1)).jobs[0] == Dropped(head, 1);
    if head.entries[0].local !in disk.sizes && PartialPath(head.entries[0].local) in disk.updatable {
      assert r.jobs[0].open;
    }
  }

  // ----- Runs of the queue

  predicate Nondecreasing(s: seq<nat>) {
    forall j, k :: 0 <= j <= k < |s| ==> s[j] <= s[k]
  }

  predicate InOrder(jobs: seq<Job>) {
    forall j, k :: 0 <= j < k < |jobs| ==> jobs[j].tid < jobs[k].tid && jobs[j].arrival < jobs[k].arrival
  }

  /** Not started yet: waiting, with no file open. */
  predicate Untouched(job: Job) {
    job.state == Waiting && !job.open
  }

  /** What every run keeps. Tids and arrivals increase along the queue; only the head is being
      served; starts happened in order of arrival and none of a transfer behind the head; no total
      has gone below what is left. */
  predicate Inv(q: Queue) {
    && InOrder(q.jobs)
    && (forall k :: 0 <= k < |q.jobs| ==> 1 <= q.jobs[k].tid && q.jobs[k].arrival < q.next && Covered(q.jobs[k]))
    && (forall k :: 0 < k < |q.jobs| ==> Untouched(q.jobs[k]))
    && Nondecreasing(q.starts)
    && (forall s :: s in q.starts ==> s < q.next)
    && (q.jobs != [] ==> forall s :: s in q.starts ==> s <= q.jobs[0].arrival)
  }

  /** `wr_transfer_tid`. */
  function NextTid(jobs: seq<Job>): (tid: nat)
    ensures jobs == [] ==> tid == 1
  {
    if jobs == [] then 1 else jobs[|jobs| - 1].tid + 1
  }

  lemma {:induction false} FirstTid(q: Queue)
    requires Inv(q)
    ensures NextTid(q.jobs) == 1 <==> q.jobs == []
  {
    if q.jobs != [] { assert 1 <= q.jobs[|q.jobs| - 1].tid; }
  }

  function NewJob(q: Queue, kind: Kind, recursive: bool, entries: seq<Entry>): Job {
    Job(q.next, NextTid(q.jobs), kind, Waiting, recursive, false, false, entries, SumSizes(entries))
  }

  /** What can happen to the queue. Listed, Opened and the moment of Begin, Completed and Failed are
      the server's and the runloop's doing; all of them concern the transfer being served. */
  datatype Step =
    | QueueDownload
    | QueueUpload(recursive: bool, entries: seq<Entry>)
    | AddDownload(entry: Entry)
    | Listed(files: seq<File>)
    | Begin
    | Opened
    | Completed(whole: bool)
    | Failed

  function Enqueued(q: Queue, job: Job, disk: Disk): Queue {
    var longer := q.(jobs := q.jobs + [job], next := q.next + 1);
    if job.tid == 1 then Started(longer, disk) else longer
  }

  predicate Enabled(q: Queue, step: Step) {
    match step
    case QueueDownload => true
    case QueueUpload(_, _) => true
    case AddDownload(_) => q.jobs != [] && q.jobs[0].kind.Download?
    case Listed(_) => q.jobs != [] && q.jobs[0].kind.Upload? && q.jobs[0].recursive && Covered(q.jobs[0])
    case Begin => q.jobs != [] && q.jobs[0].state == Waiting
    case Opened => q.jobs != [] && q.jobs[0].open
    case Completed(_) => q.jobs != [] && q.jobs[0].state == Running && q.jobs[0].entries != []
    case Failed => q.jobs != [] && q.jobs[0].state == Running
  }

  function Apply(q: Queue, step: Step, disk: Disk): Queue
    requires Enabled(q, step)
  {
    match step
    case QueueDownload => Enqueued(q, NewJob(q, Download, false, []), disk)
    case QueueUpload(recursive, entries) => Enqueued(q, NewJob(q, Upload, recursive, entries), disk)
    case AddDownload(entry) => WithHead(q, Added(q.jobs[0], entry))
    case Listed(files) => WithHead(q, Pruned(q.jobs[0], files).(listed := true))
    case Begin => Requested(q, disk)
    case Opened => WithHead(q, q.jobs[0].(state := Running))
    case Completed(whole) =>
      var head := q.jobs[0];
      var last := if whole && head.kind.Download? then head.(state := Finished) else head;
      NextOrStopped(WithHead(q, Dropped(last, 1)), disk)
    case Failed => Stopped(q, disk)
  }

  lemma {:induction false} CoveredAfterDrop(job: Job, n: nat)
    requires Covered(job) && n <= |job.entries|
    ensures Covered(Dropped(job, n))
  {
    SumSizesSplit(job.entries, n);
  }

  /** Logging starts of the head keeps the log in order. */
  lemma {:induction false} LogHead(q: Queue, log: seq<nat>)
    requires Inv(q) && q.jobs != [] && forall s :: s in log ==> s == q.jobs[0].arrival
    ensures Inv(q.(starts := q.starts + log))
  {
    var starts := q.starts + log;
    forall j, k | 0 <= j <= k < |starts|
      ensures starts[j] <= starts[k]
    {
      assert starts[j] in starts && starts[k] in starts;
      assert k >= |q.starts| ==> starts[k] in log;
      assert j >= |q.starts| ==> starts[j] in log;
      assert j < |q.starts| ==> starts[j] in q.starts;
    }
  }

  lemma {:induction false} HeadUpdate(q: Queue, job: Job)
    requires Inv(q) && q.jobs != [] && Covered(job)
    requires job.tid == q.jobs[0].tid && job.arrival == q.jobs[0].arrival
    ensures Inv(WithHead(q, job))
  {
    var r := WithHead(q, job);
    assert forall k :: 0 < k < |r.jobs| ==> r.jobs[k] == q.jobs[k];
  }

  lemma {:induction false} HeadLeaves(q: Queue)
    requires Inv(q) && q.jobs != []
    ensures Inv(q.(jobs := q.jobs[1..]))
  {
    var r := q.(jobs := q.jobs[1..]);
    assert forall k :: 0 <= k < |r.jobs| ==> r.jobs[k] == q.jobs[k + 1];
  }

  lemma {:induction false} StartedKeepsInv(q: Queue, disk: Disk)
    requires Inv(q)
    ensures Inv(Started(q, disk))
    ensures q.starts <= Started(q, disk).starts && Started(q, disk).next == q.next
    decreases |q.jobs|, 1
  {
    if q.jobs != [] {
      var head := q.jobs[0];
      var n := UnreadablePrefix(head.entries, disk);
      LogHead(q, [head.arrival]);
      var once := q.(starts := q.starts + [head.arrival]);
      if OnlyAsks(head) {
      } else if head.entries == [] {
        HeadLeaves(once);
        StartedKeepsInv(once.(jobs := q.jobs[1..]), disk);
      } else if !head.recursive {
        CoveredAfterDrop(head, 1);
        HeadUpdate(once, if n == 0 then head.(open := true) else Dropped(head, 1));
      } else {
        StartedRecursiveKeepsInv(q, disk);
      }
    }
  }

  lemma {:induction false} StartedRecursiveKeepsInv(q: Queue, disk: Disk)
    requires Inv(q) && q.jobs != [] && !OnlyAsks(q.jobs[0]) && q.jobs[0].recursive && q.jobs[0].entries != []
    ensures Inv(Started(q, disk))
    ensures q.starts <= Started(q, disk).starts && Started(q, disk).next == q.next
    decreases |q.jobs|, 0
  {
    var head := q.jobs[0];
    var n := UnreadablePrefix(head.entries, disk);
    var log := Repeated(head.arrival, if n == |head.entries| then n else n + 1);
    LogHead(q, log);
    var logged := q.(starts := q.starts + log);
    if n == |head.entries| {
      HeadLeaves(logged);
      StartedKeepsInv(logged.(jobs := q.jobs[1..]), disk);
    } else {
      CoveredAfterDrop(head, n);
      HeadUpdate(logged, Dropped(head, n).(open := true));
    }
  }

  lemma {:induction false} StoppedKeepsInv(q: Queue, disk: Disk)
    requires Inv(q) && q.jobs != []
    ensures Inv(Stopped(q, disk))
  {
    HeadLeaves(q);
    StartedKeepsInv(q.(jobs := q.jobs[1..]), disk);
  }

  lemma {:induction false} NextOrStoppedKeepsInv(q: Queue, disk: Disk)
    requires Inv(q) && q.jobs != []
    ensures Inv(NextOrStopped(q, disk))
  {
    HeadUpdate(q, q.jobs[0].(state := Waiting));
    StartedKeepsInv(WithHead(q, q.jobs[0].(state := Waiting)), disk);
    StoppedKeepsInv(q, disk);
  }

  lemma {:induction false} RequestedKeepsInv(q: Queue, disk: Disk)
    requires Inv(q) && q.jobs != []
    ensures Inv(Requested(q, disk))
  {
    var head := q.jobs[0];
    if head.entries == [] {
      NextOrStoppedKeepsInv(q, disk);
    } else {
      CoveredAfterDrop(head, 1);
      HeadUpdate(q, Dropped(head, 1));
      NextOrStoppedKeepsInv(WithHead(q, Dropped(head, 1)), disk);
      var renamed := head.entries[0 := head.entries[0].(local := PartialPath(head.entries[0].local))];
      assert renamed[1..] == head.entries[1..];
      HeadUpdate(q, head.(open := true));
      HeadUpdate(q, head.(entries := renamed, open := true));
    }
  }

  lemma {:induction false} AppendKeepsOrder(jobs: seq<Job>, job: Job)
    requires InOrder(jobs) && job.tid == NextTid(jobs) && forall k :: 0 <= k < |jobs| ==> jobs[k].arrival < job.arrival
    ensures InOrder(jobs + [job])
  {
    var n := |jobs|;
    forall j, k | 0 <= j < k < n + 1
      ensures (jobs + [job])[j].tid < (jobs + [job])[k].tid && (jobs + [job])[j].arrival < (jobs + [job])[k].arrival
    {
      if k == n { assert j < n - 1 ==> jobs[j].tid < jobs[n - 1].tid; }
    }
  }

  lemma {:induction false} EnqueuedKeepsInv(q: Queue, job: Job, disk: Disk)
    requires Inv(q) && Untouched(job) && Covered(job) && job.arrival == q.next && job.tid == NextTid(q.jobs)
    ensures Inv(Enqueued(q, job, disk))
  {
    var longer := q.(jobs := q.jobs + [job], next := q.next + 1);
    AppendKeepsOrder(q.jobs, job);
    FirstTid(q);
    assert Inv(longer);
    StartedKeepsInv(longer, disk);
  }

  lemma {:induction false} StepKeepsInv(q: Queue, step: Step, disk: Disk)
    requires Inv(q) && Enabled(q, step)
    ensures Inv(Apply(q, step, disk))
  {
    match step
    case QueueDownload => EnqueuedKeepsInv(q, NewJob(q, Download, false, []), disk);
    case QueueUpload(recursive, entries) => EnqueuedKeepsInv(q, NewJob(q, Upload, recursive, entries), disk);
    case AddDownload(entry) =>
      OperationsConserveSizes(q.jobs[0], entry, [], 0);
      HeadUpdate(q, Added(q.jobs[0], entry));
    case Listed(files) =>
      RemovalShrinks(q.jobs[0].entries, files);
      HeadUpdate(q, Pruned(q.jobs[0], files).(listed := true));
    case Begin => RequestedKeepsInv(q, disk);
    case Opened => HeadUpdate(q, q.jobs[0].(state := Running));
    case Completed(whole) =>
      var head := q.jobs[0];
      var last := if whole && head.kind.Download? then head.(state := Finished) else head;
      CoveredAfterDrop(head, 1);
      HeadUpdate(q, Dropped(last, 1));
      NextOrStoppedKeepsInv(WithHead(q, Dropped(last, 1)), disk);
    case Failed => StoppedKeepsInv(q, disk);
  }

  const EMPTY := Queue([], [], 0)

  predicate EnabledRun(q: Queue, steps: seq<(Step, Disk)>)
    decreases |steps|
  {
    steps == [] || (Enabled(q, steps[0].0) && EnabledRun(Apply(q, steps[0].0, steps[0].1), steps[1..]))
  }

  function Run(q: Queue, steps: seq<(Step, Disk)>): Queue
    requires EnabledRun(q, steps)
    decreases |steps|
  {
    if steps == [] then q else Run(Apply(q, steps[0].0, steps[0].1), steps[1..])
  }

  lemma {:induction false} RunKeepsInv(q: Queue, steps: seq<(Step, Disk)>)
    requires Inv(q) && EnabledRun(q, steps)
    ensures Inv(Run(q, steps))
    decreases |steps|
  {
    if steps != [] {
      StepKeepsInv(q, steps[0].0, steps[0].1);
      RunKeepsInv(Apply(q, steps[0].0, steps[0].1), steps[1..]);
    }
  }

  /** First come, first served, over every run from the empty queue: transfers are started in the
      order they were queued, tids in the queue are unique, and only the head is in service. */
  lemma {:induction false} FirstComeFirstServed(steps: seq<(Step, Disk)>)
    requires EnabledRun(EMPTY, steps)
    ensures var q := Run(EMPTY, steps);
            && (forall j, k :: 0 <= j <= k < |q.starts| ==> q.starts[j] <= q.starts[k])
            && (forall j, k :: 0 <= j < k < |q.jobs| ==> q.jobs[j].tid < q.jobs[k].tid)
            && (forall k :: 0 < k < |q.jobs| ==> Untouched(q.jobs[k]) && q.jobs[k].arrival !in q.starts)
  {
    assert Inv(EMPTY);
    RunKeepsInv(EMPTY, steps);
  }

  /** A newly queued transfer gets tid 1, and is started at once, exactly when the queue was empty. */
  lemma {:induction false} StartedAtOnceWhenEmpty(q: Queue, job: Job, disk: Disk)
    requires Inv(q) && Untouched(job) && Covered(job) && job.arrival == q.next && job.tid == NextTid(q.jobs)
    ensures job.tid == 1 <==> q.jobs == []
    ensures job.arrival in Enqueued(q, job, disk).starts <==> q.jobs == []
    ensures q.jobs != [] ==> Enqueued(q, job, disk).starts == q.starts
  {
    FirstTid(q);
    if q.jobs == [] {
      StartLogsHead(q.(jobs := [] + [job], next := q.next + 1), disk);
    }
  }

  lemma {:induction false} StartLogsHead(q: Queue, disk: Disk)
    requires Inv(q) && q.jobs != []
    ensures q.jobs[0].arrival in Started(q, disk).starts
  {
    var head := q.jobs[0];
    var n := UnreadablePrefix(head.entries, disk);
    if !OnlyAsks(head) {
      if head.entries == [] {
        LogHead(q, [head.arrival]);
        HeadLeaves(q.(starts := q.starts + [head.arrival]));
        StartedKeepsInv(q.(jobs := q.jobs[1..], starts := q.starts + [head.arrival]), disk);
        assert (q.starts + [head.arrival])[|q.starts|] == head.arrival;
      } else if head.recursive && n == |head.entries| {
        var log := Repeated(head.arrival, n);
        assert log[0] == head.arrival;
        LogHead(q, log);
        HeadLeaves(q.(starts := q.starts + log));
        StartedKeepsInv(q.(jobs := q.jobs[1..], starts := q.starts + log), disk);
        assert (q.starts + log)[|q.starts|] == head.arrival;
      } else if head.recursive {
        assert (q.starts + Repeated(head.arrival, n + 1))[|q.starts|] == head.arrival;
      }
    }
  }

  /** A recursive head that is ready to be read loses exactly its longest unreadable prefix and
      opens the file after it; when nothing is readable it leaves the queue and the next transfer,
      if there is one, is started. */
  lemma {:induction false} UnreadablePrefixGoes(q: Queue, disk: Disk)
    requires Inv(q) && q.jobs != [] && !OnlyAsks(q.jobs[0]) && q.jobs[0].recursive && q.jobs[0].entries != []
    ensures var head, n := q.jobs[0], UnreadablePrefix(q.jobs[0].entries, disk);
            var r := Started(q, disk);
            && (n < |head.entries| ==>
                  && |r.jobs| == |q.jobs| && r.jobs[1..] == q.jobs[1..] && r.jobs[0].open
                  && r.jobs[0].arrival == head.arrival && r.jobs[0].entries == head.entries[n..]
                  && Readable(disk, r.jobs[0].entries[0].local))
            && (n == |head.entries| ==>
                  && (forall j :: j in r.jobs ==> j.arrival != head.arrival)
                  && (|q.jobs| > 1 ==> q.jobs[1].arrival in r.starts))
  {
    var head, n := q.jobs[0], UnreadablePrefix(q.jobs[0].entries, disk);
    assert n == 0 ==> head.entries[0..] == head.entries;
    if n == |head.entries| {
      LogHead(q, Repeated(head.arrival, n));
      HeadLeaves(q.(starts := q.starts + Repeated(head.arrival, n)));
      var rest := q.(jobs := q.jobs[1..], starts := q.starts + Repeated(head.arrival, n));
      StartedAddsNobody(rest, disk);
      if |q.jobs| > 1 {
        StartLogsHead(rest, disk);
      }
    }
  }

  lemma {:induction false} StartedAddsNobody(q: Queue, disk: Disk)
    ensures forall s :: s in Started(q, disk).jobs ==> exists o :: o in q.jobs && o.arrival == s.arrival
    decreases |q.jobs|
  {
    if q.jobs != [] {
      var head := q.jobs[0];
      var n := UnreadablePrefix(head.entries, disk);
      assert q.jobs == [head] + q.jobs[1..];
      if !OnlyAsks(head) {
        if head.entries == [] {
          StartedAddsNobody(q.(jobs := q.jobs[1..], starts := q.starts + [head.arrival]), disk);
        } else if head.recursive && n == |head.entries| {
          StartedAddsNobody(q.(jobs := q.jobs[1..], starts := q.starts + Repeated(head.arrival, n)), disk);
        }
      }
    }
  }

  /** A download is never written under its final name, and a file that exists is not fetched. */
  lemma {:induction false} DownloadsArePartial(q: Queue, disk: Disk)
    requires Inv(q) && q.jobs != [] && q.jobs[0].kind.Download? && q.jobs[0].entries != []
    ensures var head, r := q.jobs[0], Requested(q, disk);
            r.jobs != [] && r.jobs[0].arrival == head.arrival && r.jobs[0].open ==>
              && head.entries[0].local !in disk.sizes
              && |r.jobs[0].entries| == |head.entries| && r.jobs[0].entries[1..] == head.entries[1..]
              && HasSuffix(r.jobs[0].entries[0].local, SUFFIX) && r.jobs[0].entries[0].local in disk.updatable
              && r.jobs[0].entries[0].remote == head.entries[0].remote
  {
    var head := q.jobs[0];
    var closed := WithHead(q, Dropped(head, 1));
    assert closed.jobs[1..] == q.jobs[1..];
    StartedAddsNobody(q.(jobs := q.jobs[1..]), disk);
    var waiting := WithHead(closed, closed.jobs[0].(state := Waiting));
    assert OnlyAsks(waiting.jobs[0]);
  }

  /** A finished download is renamed by dropping the extension of its partial name: it ends under
      the name it was queued with exactly when that name is not a partial name itself. While it is
      partial, directory watchers pass over it. */
  lemma {:induction false} FinishedDownloadGetsItsName(local: string)
    ensures Watchers.WithoutExtension(PartialPath(local)) == local <==> !HasSuffix(local, SUFFIX)
    ensures Watchers.IsPartial(PartialPath(local))
  {
    var stem := if HasSuffix(local, SUFFIX) then local[..|local| - |SUFFIX|] else local;
    assert SUFFIX == "." + Watchers.PARTIAL_SUFFIX && '.' !in Watchers.PARTIAL_SUFFIX;
    assert PartialPath(local) == stem + "." + Watchers.PARTIAL_SUFFIX;
    Watchers.ExtensionAppended(stem, Watchers.PARTIAL_SUFFIX);
    assert (stem + "." + Watchers.PARTIAL_SUFFIX)[|stem|] == '.';
    assert (stem + "." + Watchers.PARTIAL_SUFFIX)[..|stem|] == stem;
  }

  /** The head waits with no file open, and is not a directory transfer. */
  predicate Idle(q: Queue) {
    q.jobs != [] && Untouched(q.jobs[0]) && !q.jobs[0].recursive
  }

  /** The server answers about the head: it names a file of a download, or says that a request may be
      made. */
  predicate Answers(step: Step) {
    step.Begin? || step.AddDownload?
  }

  /** An idle head that the server says nothing about blocks the queue: over every run transfers are
      only queued behind it, and none of them is ever started. */
  lemma {:induction false} IdleHeadBlocks(q: Queue, steps: seq<(Step, Disk)>)
    requires Inv(q) && Idle(q) && EnabledRun(q, steps)
    requires forall s :: s in steps ==> !s.0.Begin? && (q.jobs[0].kind.Download? ==> !s.0.AddDownload?)
    ensures Run(q, steps).starts == q.starts && q.jobs <= Run(q, steps).jobs
    ensures forall s :: s in steps ==> s.0.QueueDownload? || s.0.QueueUpload?
    decreases |steps|
  {
    if steps != [] {
      var (step, disk) := steps[0];
      assert steps[0] in steps;
      IdleStep(q, step, disk);
      StepKeepsInv(q, step, disk);
      IdleHeadBlocks(Apply(q, step, disk), steps[1..]);
      assert steps == [steps[0]] + steps[1..];
    }
  }

  lemma {:induction false} IdleStep(q: Queue, step: Step, disk: Disk)
    requires Inv(q) && Idle(q) && Enabled(q, step)
    requires !step.Begin? && (q.jobs[0].kind.Download? ==> !step.AddDownload?)
    ensures step.QueueDownload? || step.QueueUpload?
    ensures var r := Apply(q, step, disk); Idle(r) && r.starts == q.starts && q.jobs <= r.jobs
  {
    FirstTid(q);
  }

  /** Once stuck, the queue stays stuck: in every run in which nobody asks for the head again, all
      that can happen is that more transfers are queued, and none of them is ever started. */
  lemma {:induction false} StuckStays(q: Queue, steps: seq<(Step, Disk)>)
    requires Inv(q) && Stuck(q) && EnabledRun(q, steps) && forall s :: s in steps ==> !s.0.Begin?
    ensures Stuck(Run(q, steps)) && Run(q, steps).starts == q.starts && q.jobs <= Run(q, steps).jobs
    ensures forall s :: s in steps ==> s.0.QueueDownload? || s.0.QueueUpload?
  {
    IdleHeadBlocks(q, steps);
    assert Run(q, steps).jobs[0] == q.jobs[0];
  }

  /** A single-file download at the head whose file is given up blocks the queue in the same way:
      its question to the server has been answered and it asks no other. */
  lemma {:induction false} GivenUpDownloadBlocks(q: Queue, disk: Disk, steps: seq<(Step, Disk)>)
    requires Inv(q) && Enabled(q, Begin)
    requires q.jobs[0].kind.Download? && !q.jobs[0].recursive && q.jobs[0].entries != []
    requires var local := q.jobs[0].entries[0].local; local in disk.sizes || PartialPath(local) !in disk.updatable
    requires EnabledRun(Apply(q, Begin, disk), steps) && forall s :: s in steps ==> !Answers(s.0)
    ensures var r := Run(Apply(q, Begin, disk), steps);
            && r.starts == q.starts && r.jobs != [] && r.jobs[0] == Dropped(q.jobs[0], 1)
            && |q.jobs| <= |r.jobs| && q.jobs[1..] <= r.jobs[1..]
    ensures forall s :: s in steps ==> s.0.QueueDownload? || s.0.QueueUpload?
  {
    var next := Apply(q, Begin, disk);
    DownloadIsGivenUp(q, disk);
    StepKeepsInv(q, Begin, disk);
    assert next.jobs == [Dropped(q.jobs[0], 1)] + q.jobs[1..];
    IdleHeadBlocks(next, steps);
    assert next.jobs[1..] == q.jobs[1..];
  }

  /** An example: after a failed upload, a file that has become unreadable is given up, and the
      transfer queued behind it is not started. */
  lemma {:induction false} UnreadableFileBlocksQueue(entry: Entry, disk: Disk)
    requires entry.file.size == 0 && !Readable(disk, entry.local)
    ensures var first := Job(0, 1, Upload, Running, false, false, true, [entry], 0);
            var second := Job(1, 2, Upload, Waiting, false, false, false, [entry], 0);
            var third := Job(2, 3, Download, Waiting, false, false, false, [], 0);
            var q := Queue([first, second, third], [0], 3);
            && Inv(q) && Enabled(q, Failed)
            && Apply(q, Failed, disk) == Queue([second.(entries := []), third], [0, 1], 3)
            && Stuck(Apply(q, Failed, disk))
  {
    var first := Job(0, 1, Upload, Running, false, false, true, [entry], 0);
    var second := Job(1, 2, Upload, Waiting, false, false, false, [entry], 0);
    var third := Job(2, 3, Download, Waiting, false, false, false, [], 0);
    var q := Queue([first, second, third], [0], 3);
    assert [entry][1..] == [] && SumSizes([entry]) == entry.file.size + SumSizes([entry][1..]);
    assert q.jobs[1..] == [second, third] && [second, third][1..] == [third];
    assert UnreadablePrefix([entry], disk) > 0 && Dropped(second, 1) == second.(entries := []);
  }

  // ----- Sizes over every step

  lemma {:induction false} SameFilesSameSizes(a: seq<Entry>, b: seq<Entry>)
    requires |a| == |b| && forall k :: 0 <= k < |a| ==> a[k].file == b[k].file
    ensures SumSizes(a) == SumSizes(b)
  {
    if a != [] { SameFilesSameSizes(a[1..], b[1..]); }
  }

  /** What `after` lacks of `before`. */
  function Lost(before: Job, after: Job): seq<Entry>
    requires |after.entries| <= |before.entries|
  {
    before.entries[..|before.entries| - |after.entries|]
  }

  /** The same transfer, with a front of its files gone. */
  predicate LostFront(before: Job, after: Job) {
    && after.arrival == before.arrival && after.totalSize == before.totalSize
    && |after.entries| <= |before.entries|
    && forall k :: 0 <= k < |after.entries| ==>
         after.entries[k].file == before.entries[k + |before.entries| - |after.entries|].file
  }

  lemma {:induction false} LostIsSettled(before: Job, after: Job)
    requires LostFront(before, after)
    ensures Settled(after) == Settled(before) + SumSizes(Lost(before, after))
  {
    var n := |before.entries| - |after.entries|;
    SumSizesSplit(before.entries, n);
    SameFilesSameSizes(after.entries, before.entries[n..]);
  }

  /** A front of the queue is gone, the new head has lost a front of its files, and the transfers
      behind it are as they were. */
  predicate Served(before: seq<Job>, after: seq<Job>) {
    && |after| <= |before|
    && (after != [] ==>
          && LostFront(before[|before| - |after|], after[0])
          && after[1..] == before[|before| - |after| + 1..])
  }

  lemma {:induction false} ServedTail(before: seq<Job>, after: seq<Job>)
    requires before != [] && Served(before[1..], after)
    ensures Served(before, after)
  {
    var k := |before| - 1 - |after|;
    assert after != [] ==> before[1..][k + 1..] == before[k + 2..];
  }

  lemma {:induction false} ServedHead(q: Queue, job: Job)
    requires q.jobs != [] && LostFront(q.jobs[0], job)
    ensures Served(q.jobs, WithHead(q, job).jobs)
  {
  }

  lemma {:induction false} ServedTwice(a: seq<Job>, b: seq<Job>, c: seq<Job>)
    requires Served(a, b) && Served(b, c)
    ensures Served(a, c)
  {
    if c != [] {
      var j, k := |a| - |b|, |b| - |c|;
      if k > 0 { assert b[k] == b[1..][k - 1] == a[j + 1..][k - 1] == a[j + k]; }
      assert b[k + 1..] == b[1..][k..] == a[j + 1..][k..] == a[j + k + 1..];
    }
  }

  lemma {:induction false} StartedOpens(q: Queue, disk: Disk)
    requires q.jobs != [] && !OnlyAsks(q.jobs[0]) && q.jobs[0].recursive
    requires UnreadablePrefix(q.jobs[0].entries, disk) < |q.jobs[0].entries|
    ensures Served(q.jobs, Started(q, disk).jobs)
  {
    var head, n := q.jobs[0], UnreadablePrefix(q.jobs[0].entries, disk);
    var job := Dropped(head, n).(open := true);
    assert Started(q, disk).jobs == WithHead(q, job).jobs;
    ServedHead(q, job);
  }

  lemma {:induction false} StartedOpensOrDrops(q: Queue, disk: Disk)
    requires q.jobs != [] && !OnlyAsks(q.jobs[0]) && !q.jobs[0].recursive && q.jobs[0].entries != []
    ensures Served(q.jobs, Started(q, disk).jobs)
  {
    var head := q.jobs[0];
    var job := if Readable(disk, head.entries[0].local) then head.(open := true) else Dropped(head, 1);
    assert Started(q, disk).jobs == WithHead(q, job).jobs;
    ServedHead(q, job);
  }

  lemma {:induction false} StartedServes(q: Queue, disk: Disk)
    ensures Served(q.jobs, Started(q, disk).jobs)
    decreases |q.jobs|
  {
    if q.jobs != [] {
      var head := q.jobs[0];
      var n := UnreadablePrefix(head.entries, disk);
      if OnlyAsks(head) {
      } else if head.entries == [] {
        StartedServes(q.(jobs := q.jobs[1..], starts := q.starts + [head.arrival]), disk);
        ServedTail(q.jobs, Started(q, disk).jobs);
      } else if head.recursive && n == |head.entries| {
        StartedServes(q.(jobs := q.jobs[1..], starts := q.starts + Repeated(head.arrival, n)), disk);
        ServedTail(q.jobs, Started(q, disk).jobs);
      } else if head.recursive {
        StartedOpens(q, disk);
      } else {
        StartedOpensOrDrops(q, disk);
      }
    }
  }

  lemma {:induction false} StoppedServes(q: Queue, disk: Disk)
    requires q.jobs != []
    ensures Served(q.jobs, Stopped(q, disk).jobs)
  {
    StartedServes(q.(jobs := q.jobs[1..]), disk);
    ServedTail(q.jobs, Stopped(q, disk).jobs);
  }

  lemma {:induction false} NextOrStoppedServes(q: Queue, disk: Disk)
    requires q.jobs != []
    ensures Served(q.jobs, NextOrStopped(q, disk).jobs)
  {
    if q.jobs[0].entries != [] {
      var waiting := WithHead(q, q.jobs[0].(state := Waiting));
      ServedHead(q, q.jobs[0].(state := Waiting));
      StartedServes(waiting, disk);
      ServedTwice(q.jobs, waiting.jobs, NextOrStopped(q, disk).jobs);
    } else {
      StoppedServes(q, disk);
    }
  }

  lemma {:induction false} ClosedServes(q: Queue, job: Job, disk: Disk)
    requires q.jobs != [] && LostFront(q.jobs[0], job)
    ensures Served(q.jobs, NextOrStopped(WithHead(q, job), disk).jobs)
  {
    ServedHead(q, job);
    NextOrStoppedServes(WithHead(q, job), disk);
    ServedTwice(q.jobs, WithHead(q, job).jobs, NextOrStopped(WithHead(q, job), disk).jobs);
  }

  lemma {:induction false} GivenUpServes(q: Queue, disk: Disk)
    requires q.jobs != [] && q.jobs[0].entries != []
    ensures Served(q.jobs, GivenUp(q, disk).jobs)
  {
    var closed := Dropped(q.jobs[0], 1);
    ServedHead(q, closed);
    ClosedServes(q, closed, disk);
  }

  lemma {:induction false} RequestedServes(q: Queue, disk: Disk)
    requires q.jobs != []
    ensures Served(q.jobs, Requested(q, disk).jobs)
  {
    var head, r := q.jobs[0], Requested(q, disk);
    if head.entries == [] {
      NextOrStoppedServes(q, disk);
    } else if r == GivenUp(q, disk) {
      GivenUpServes(q, disk);
    } else {
      var entries := if head.kind.Upload? then head.entries
                    else head.entries[0 := head.entries[0].(local := PartialPath(head.entries[0].local))];
      assert r == WithHead(q, head.(entries := entries, open := true));
      ServedHead(q, head.(entries := entries, open := true));
    }
  }

  /** The transfers a step works on: a new one is appended, and the head's files are added to or
      pruned, before anything is started or closed. */
  function Prepared(q: Queue, step: Step): (jobs: seq<Job>)
    requires Enabled(q, step)
    ensures |jobs| >= |q.jobs|
  {
    match step
    case QueueDownload => q.jobs + [NewJob(q, Download, false, [])]
    case QueueUpload(recursive, entries) => q.jobs + [NewJob(q, Upload, recursive, entries)]
    case AddDownload(entry) => WithHead(q, Added(q.jobs[0], entry)).jobs
    case Listed(files) => WithHead(q, Pruned(q.jobs[0], files)).jobs
    case Begin => q.jobs
    case Opened => q.jobs
    case Completed(_) => q.jobs
    case Failed => q.jobs
  }

  lemma {:induction false} PreparingSettlesNothing(q: Queue, step: Step, k: nat)
    requires Inv(q) && Enabled(q, step) && k < |Prepared(q, step)|
    ensures Settled(Prepared(q, step)[k]) == if k < |q.jobs| then Settled(q.jobs[k]) else 0
    ensures k < |q.jobs| ==> Prepared(q, step)[k].arrival == q.jobs[k].arrival
  {
    match step {
      case AddDownload(entry) => OperationsConserveSizes(q.jobs[0], entry, [], 0);
      case Listed(files) =>
        OperationsConserveSizes(q.jobs[0], Entry("", "", File("", 0)), files, 0);
      case _ =>
    }
  }

  lemma {:induction false} ApplyServes(q: Queue, step: Step, disk: Disk)
    requires Enabled(q, step)
    ensures Served(Prepared(q, step), Apply(q, step, disk).jobs)
  {
    match step {
      case QueueDownload =>
        StartedServes(q.(jobs := Prepared(q, step), next := q.next + 1), disk);
      case QueueUpload(_, _) =>
        StartedServes(q.(jobs := Prepared(q, step), next := q.next + 1), disk);
      case AddDownload(_) =>
      case Listed(files) =>
        var pruned := WithHead(q, Pruned(q.jobs[0], files));
        ServedHead(pruned, pruned.jobs[0].(listed := true));
      case Begin => RequestedServes(q, disk);
      case Opened => ServedHead(q, q.jobs[0].(state := Running));
      case Completed(whole) =>
        var head := q.jobs[0];
        var last := if whole && head.kind.Download? then head.(state := Finished) else head;
        ClosedServes(q, Dropped(last, 1), disk);
      case Failed => StoppedServes(q, disk);
    }
  }

  /** Where a transfer of the queue was before the step: at most a front of the queue has gone. */
  function Origin(before: seq<Job>, after: seq<Job>, i: nat): nat
    requires |after| <= |before| && i < |after|
  {
    |before| - |after| + i
  }

  lemma {:induction false} ServedAt(before: seq<Job>, after: seq<Job>, i: nat)
    requires Served(before, after) && i < |after|
    ensures LostFront(before[Origin(before, after, i)], after[i])
    ensures i > 0 ==> after[i] == before[Origin(before, after, i)]
  {
    if i > 0 {
      var k := |before| - |after|;
      assert after[i] == after[1..][i - 1] == before[k + 1..][i - 1] == before[k + i];
    }
  }

  /** Sizes are conserved by every step: for each transfer still queued, total size minus the sizes
      of the files left has grown by exactly the sizes of the files the step dropped, which only the
      new head can have lost; adding and pruning files changes it for nobody, and a new transfer
      begins at nothing. */
  lemma {:induction false} SizesAreConserved(q: Queue, step: Step, disk: Disk, i: nat)
    requires Inv(q) && Enabled(q, step) && i < |Apply(q, step, disk).jobs|
    ensures var before, after := Prepared(q, step), Apply(q, step, disk).jobs;
            && |after| <= |before|
            && var k := Origin(before, after, i);
            && after[i].arrival == (if k < |q.jobs| then q.jobs[k].arrival else q.next)
            && |after[i].entries| <= |before[k].entries|
            && (i > 0 ==> after[i] == before[k])
            && Settled(after[i]) ==
               (if k < |q.jobs| then Settled(q.jobs[k]) else 0) + SumSizes(Lost(before[k], after[i]))
  {
    var before, after := Prepared(q, step), Apply(q, step, disk).jobs;
    ApplyServes(q, step, disk);
    ServedAt(before, after, i);
    PreparingSettlesNothing(q, step, Origin(before, after, i));
    LostIsSettled(before[Origin(before, after, i)], after[i]);
  }

  // ----- What each step comes to

  /** The head has left and the transfer behind it, if any, has been started. */
  predicate LeftAndNextStarted(q: Queue, r: Queue)
    requires q.jobs != []
  {
    && (forall j :: j in r.jobs ==> j.arrival != q.jobs[0].arrival)
    && (|q.jobs| > 1 ==> q.jobs[1].arrival in r.starts)
    && (|q.jobs| == 1 ==> r.jobs == [] && r.starts == q.starts)
    && (|q.jobs| > 1 && q.jobs[1].kind.Download? && q.jobs[1].state == Waiting ==>
          r.jobs == q.jobs[1..] && r.starts == q.starts + [q.jobs[1].arrival])
  }

  lemma {:induction false} StoppedLeaves(q: Queue, disk: Disk)
    requires Inv(q) && q.jobs != []
    ensures LeftAndNextStarted(q, Stopped(q, disk))
  {
    HeadLeaves(q);
    LeaverIsGone(q, disk);
    if |q.jobs| > 1 { StartLogsHead(q.(jobs := q.jobs[1..]), disk); }
  }

  lemma {:induction false} LeaverIsGone(q: Queue, disk: Disk)
    requires Inv(q) && q.jobs != []
    ensures forall j :: j in Stopped(q, disk).jobs ==> j.arrival != q.jobs[0].arrival
  {
    var rest := q.(jobs := q.jobs[1..]);
    StartedAddsNobody(rest, disk);
    assert forall o :: o in rest.jobs ==> o.arrival != q.jobs[0].arrival;
  }

  lemma {:induction false} StoppedIgnoresHead(q: Queue, job: Job, disk: Disk)
    requires q.jobs != []
    ensures Stopped(WithHead(q, job), disk) == Stopped(q, disk)
  {
    assert WithHead(q, job).jobs[1..] == q.jobs[1..];
  }

  /** A failed write: the running transfer leaves and the next one is started. */
  lemma {:induction false} FailureLeaves(q: Queue, disk: Disk)
    requires Inv(q) && q.jobs != [] && q.jobs[0].state == Running
    ensures Enabled(q, Failed) && LeftAndNextStarted(q, Apply(q, Failed, disk))
  {
    StoppedLeaves(q, disk);
  }

  /** When its last file is done a transfer leaves and the next one is started. */
  lemma {:induction false} LastCompletionLeaves(q: Queue, whole: bool, disk: Disk)
    requires Inv(q) && q.jobs != [] && q.jobs[0].state == Running && |q.jobs[0].entries| == 1
    ensures Enabled(q, Completed(whole)) && LeftAndNextStarted(q, Apply(q, Completed(whole), disk))
  {
    var head := q.jobs[0];
    var last := if whole && head.kind.Download? then head.(state := Finished) else head;
    StoppedIgnoresHead(q, Dropped(last, 1), disk);
    StoppedLeaves(q, disk);
  }

  /** The same transfer, waiting. */
  predicate GoneOn(head: Job, next: Job) {
    && next.arrival == head.arrival && next.tid == head.tid && next.kind == head.kind
    && next.recursive == head.recursive && next.listed == head.listed && next.totalSize == head.totalSize
    && next.state == Waiting
  }

  /** A transfer with files left waits again and is started. A download asks for its next file. */
  lemma {:induction false} DownloadGoesOn(q: Queue, whole: bool, disk: Disk)
    requires q.jobs != [] && q.jobs[0].state == Running && |q.jobs[0].entries| > 1 && q.jobs[0].kind.Download?
    ensures Enabled(q, Completed(whole))
    ensures var head, r := q.jobs[0], Apply(q, Completed(whole), disk);
            && |r.jobs| == |q.jobs| && r.jobs[1..] == q.jobs[1..] && GoneOn(head, r.jobs[0])
            && r.jobs[0].entries == head.entries[1..] && !r.jobs[0].open
            && r.starts == q.starts + [head.arrival]
  {
  }

  /** The first file after the one in front that can be read. */
  predicate FirstReadable(entries: seq<Entry>, n: nat, disk: Disk) {
    && 1 <= n < |entries| && Readable(disk, entries[n].local)
    && forall k :: 1 <= k < n ==> !Readable(disk, entries[k].local)
  }

  /** Everything but the head is as it was. */
  predicate OnlyHead(q: Queue, r: Queue) {
    && q.jobs != [] && r.jobs != [] && r.jobs[1..] == q.jobs[1..]
    && r.starts == q.starts && r.next == q.next
  }

  /** A listed directory upload goes on with its next readable file: it is open, the unreadable ones
      before it are gone, and nobody else was touched. With nothing readable left it leaves. */
  lemma {:induction false} DirectoryUploadGoesOn(q: Queue, whole: bool, disk: Disk)
    requires Inv(q) && q.jobs != [] && q.jobs[0].state == Running && |q.jobs[0].entries| > 1
    requires q.jobs[0].kind.Upload? && q.jobs[0].recursive && q.jobs[0].listed
    ensures Enabled(q, Completed(whole))
    ensures var head, r := q.jobs[0], Apply(q, Completed(whole), disk);
            && (forall n: nat :: FirstReadable(head.entries, n, disk) ==>
                    && |r.jobs| == |q.jobs| && r.jobs[1..] == q.jobs[1..] && GoneOn(head, r.jobs[0])
                    && r.jobs[0].entries == head.entries[n..] && r.jobs[0].open)
            && ((forall k :: 1 <= k < |head.entries| ==> !Readable(disk, head.entries[k].local)) ==>
                  && (forall j :: j in r.jobs ==> j.arrival != head.arrival)
                  && (|q.jobs| > 1 ==> q.jobs[1].arrival in r.starts))
  {
    var head := q.jobs[0];
    var waiting := Dropped(head, 1).(state := Waiting);
    var next := WithHead(q, waiting);
    CoveredAfterDrop(head, 1);
    assert Covered(waiting);
    HeadUpdate(q, waiting);
    assert !OnlyAsks(waiting) && waiting.entries == head.entries[1..];
    assert next.jobs[0] == waiting && next.jobs[1..] == q.jobs[1..];
    assert Apply(q, Completed(whole), disk) == Started(next, disk) by {
      assert WithHead(WithHead(q, Dropped(head, 1)), waiting) == next;
    }
    UnreadablePrefixGoes(next, disk);
    UnreadableUpTo(head.entries, disk);
    if UnreadablePrefix(waiting.entries, disk) < |waiting.entries| { StartedKeepsFields(next, disk); }
  }

  lemma {:induction false} UnreadableUpTo(entries: seq<Entry>, disk: Disk)
    requires entries != []
    ensures var m := UnreadablePrefix(entries[1..], disk);
            && (forall n: nat :: FirstReadable(entries, n, disk) ==> m == n - 1 && entries[1..][m..] == entries[n..])
            && ((forall k :: 1 <= k < |entries| ==> !Readable(disk, entries[k].local)) ==> m == |entries| - 1)
  {
    var rest := entries[1..];
    var m := UnreadablePrefix(rest, disk);
    assert forall k :: 0 <= k < |rest| ==> rest[k] == entries[k + 1];
    forall n: nat | FirstReadable(entries, n, disk)
      ensures m == n - 1 && rest[m..] == entries[n..]
    {
      assert rest[n - 1] == entries[n];
      assert m < |rest| ==> rest[m] == entries[m + 1];
    }
  }

  lemma {:induction false} StartedKeepsFields(q: Queue, disk: Disk)
    requires q.jobs != [] && !OnlyAsks(q.jobs[0]) && q.jobs[0].recursive
    requires UnreadablePrefix(q.jobs[0].entries, disk) < |q.jobs[0].entries|
    ensures Started(q, disk).jobs != [] && GoneOn(q.jobs[0], Started(q, disk).jobs[0])
  {
  }

  /** A reply opens the first file of the head exactly when an upload's file can be read, or when a
      download's file does not exist and its partial file can be opened; nothing else is changed. */
  lemma {:induction false} ReplyOpens(q: Queue, disk: Disk)
    requires q.jobs != [] && q.jobs[0].state == Waiting && q.jobs[0].entries != [] && !q.jobs[0].recursive
    ensures Enabled(q, Begin)
    ensures var head, r := q.jobs[0], Apply(q, Begin, disk);
            var first := head.entries[0];
            var opens := if head.kind.Upload? then first.local in disk.readable && first.local in disk.sizes
                         else first.local !in disk.sizes && PartialPath(first.local) in disk.updatable;
            && |r.jobs| == |q.jobs| && r.jobs[1..] == q.jobs[1..] && GoneOn(head, r.jobs[0])
            && r.starts == q.starts && r.jobs[0].open == opens
            && (opens ==> r.jobs[0].entries == head.entries[0 := first.(local :=
                                                 if head.kind.Upload? then first.local else PartialPath(first.local))])
            && (!opens ==> r.jobs[0].entries == head.entries[1..])
  {
    assert q.jobs[0].entries == q.jobs[0].entries[0 := q.jobs[0].entries[0]];
  }

  /** A directory download whose file is given up on a reply goes on: it asks for its next file, or
      leaves after its last. */
  lemma {:induction false} DirectoryDownloadGoesOn(q: Queue, disk: Disk)
    requires Inv(q) && q.jobs != [] && q.jobs[0].state == Waiting && q.jobs[0].entries != []
    requires q.jobs[0].kind.Download? && q.jobs[0].recursive
    requires var local := q.jobs[0].entries[0].local; local in disk.sizes || PartialPath(local) !in disk.updatable
    ensures Enabled(q, Begin)
    ensures var head, r := q.jobs[0], Apply(q, Begin, disk);
            && (|head.entries| == 1 ==> LeftAndNextStarted(q, r))
            && (|head.entries| > 1 ==>
                  && r.jobs != [] && r.jobs[1..] == q.jobs[1..] && GoneOn(head, r.jobs[0])
                  && r.jobs[0].entries == head.entries[1..] && !r.jobs[0].open
                  && r.starts == q.starts + [head.arrival])
  {
    StoppedIgnoresHead(q, Dropped(q.jobs[0], 1), disk);
    StoppedLeaves(q, disk);
  }

  /** A new transfer stands at the end, waiting and unlisted, with what it was queued with. */
  predicate Appended(q: Queue, r: Queue, kind: Kind, recursive: bool, entries: seq<Entry>) {
    && |r.jobs| == |q.jobs| + 1 && r.jobs[..|q.jobs|] == q.jobs
    && var job := r.jobs[|q.jobs|];
       job == Job(job.arrival, job.tid, kind, Waiting, recursive, false, false, entries, SumSizes(entries))
       && r.starts == if q.jobs == [] then q.starts + [job.arrival] else q.starts
  }

  /** Queueing appends. Only a single-file upload into an empty queue is served at once as well. */
  lemma {:induction false} QueueingAppends(q: Queue, recursive: bool, entries: seq<Entry>, disk: Disk)
    requires Inv(q)
    ensures Enabled(q, QueueDownload) && Enabled(q, QueueUpload(recursive, entries))
    ensures Appended(q, Apply(q, QueueDownload, disk), Download, false, [])
    ensures q.jobs != [] || recursive ==>
              Appended(q, Apply(q, QueueUpload(recursive, entries), disk), Upload, recursive, entries)
  {
    FirstTid(q);
  }

  /** What the server says about the head: a named file is added at the end of its files, a listing
      makes it listed and takes the named paths away, an opened connection makes it run. */
  lemma {:induction false} AnswersChangeHead(q: Queue, entry: Entry, files: seq<File>, disk: Disk)
    requires Inv(q) && q.jobs != []
    ensures q.jobs[0].kind.Download? ==> Enabled(q, AddDownload(entry))
    ensures q.jobs[0].kind.Download? ==>
              var head, r := q.jobs[0], Apply(q, AddDownload(entry), disk);
              OnlyHead(q, r) && r.jobs[0] == head.(entries := head.entries + [entry],
                                                   totalSize := head.totalSize + entry.file.size)
    ensures q.jobs[0].kind.Upload? && q.jobs[0].recursive ==> Enabled(q, Listed(files))
    ensures q.jobs[0].kind.Upload? && q.jobs[0].recursive ==>
              var head, r := q.jobs[0], Apply(q, Listed(files), disk);
              OnlyHead(q, r) && IsSubsequence(r.jobs[0].entries, head.entries) &&
              multiset(Remotes(r.jobs[0].entries)) == multiset(Remotes(head.entries)) - multiset(Paths(files)) &&
              r.jobs[0] == head.(listed := true, entries := r.jobs[0].entries, totalSize := r.jobs[0].totalSize)
    ensures q.jobs[0].open ==> Enabled(q, Opened)
    ensures q.jobs[0].open ==>
              var r := Apply(q, Opened, disk);
              OnlyHead(q, r) && r.jobs[0] == q.jobs[0].(state := Running)
  {
    RemovalIsBagSubtraction(q.jobs[0].entries, files);
  }
}
