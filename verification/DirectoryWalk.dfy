/** Queueing a directory for upload (`wr_transfer_upload_add_file` in wirebot/transfers.c): the
    depth-bounded walk over a directory tree and the remote paths it makes. */
module DirectoryWalk {
  import opened Text

  /** A file system tree as the walk meets it: files, directories, directories that cannot be read,
      directories that lead back to one of their ancestors, and entries that fail otherwise. */
  datatype Node =
    | File(name: string, size: nat)
    | Dir(name: string, children: seq<Node>)
    | Unreadable(name: string)
    | Cycle(name: string)
    | Failed(name: string)

  const MAX_LEVEL: nat := 10

  predicate Dotted(name: string) {
    "." <= name
  }

  /** A file that is queued: its address (the child index taken at every level), path and size. */
  datatype Found = Found(address: seq<nat>, path: string, size: nat)

  // ----- The walk as a function

  function Walk(node: Node, address: seq<nat>, path: string): seq<Found>
    decreases node, if node.Dir? then |node.children| + 2 else 0
  {
    if |address| > MAX_LEVEL || Dotted(node.name) then []
    else match node
      case File(_, size) => [Found(address, path, size)]
      case Dir(_, children) => WalkFrom(node, 0, address, path)
      case _ => []
  }

  /** The children of a directory from index `k` on. */
  function WalkFrom(node: Node, k: nat, address: seq<nat>, path: string): seq<Found>
    requires node.Dir? && k <= |node.children|
    decreases node, |node.children| - k + 1
  {
    if k == |node.children| then []
    else
      Walk(node.children[k], address + [k], path + "/" + node.children[k].name) +
      WalkFrom(node, k + 1, address, path)
  }

  // ----- What should be found

  function NodeAt(root: Node, address: seq<nat>): Option<Node>
    decreases |address|
  {
    if address == [] then Some(root)
    else if root.Dir? && address[0] < |root.children| then NodeAt(root.children[address[0]], address[1..])
    else None
  }

  /** A file no deeper than ten levels, with no dot-prefixed name from the root down to it. */
  predicate Eligible(root: Node, address: seq<nat>) {
    && |address| <= MAX_LEVEL
    && NodeAt(root, address).Some? && NodeAt(root, address).value.File?
    && forall k :: 0 <= k <= |address| ==>
         NodeAt(root, address[..k]).Some? && !Dotted(NodeAt(root, address[..k]).value.name)
  }

  /** The names from below the root down to an address, each behind a slash. */
  function PathBelow(root: Node, address: seq<nat>): string
    requires NodeAt(root, address).Some?
    decreases |address|
  {
    if address == [] then ""
    else
      var child := root.children[address[0]];
      "/" + child.name + PathBelow(child, address[1..])
  }

  /** Membership, followed down from a node: the part of the address below it is `below`. */
  predicate EligibleBelow(node: Node, below: seq<nat>)
    decreases |below|
  {
    !Dotted(node.name) &&
    if below == [] then node.File?
    else node.Dir? && below[0] < |node.children| && EligibleBelow(node.children[below[0]], below[1..])
  }

  lemma {:induction false} EligibleBelowHasNode(node: Node, below: seq<nat>)
    requires EligibleBelow(node, below)
    ensures NodeAt(node, below).Some? && NodeAt(node, below).value.File?
    decreases |below|
  {
    if below != [] { EligibleBelowHasNode(node.children[below[0]], below[1..]); }
  }

  lemma {:induction false} EligibleIsEligibleBelow(root: Node, address: seq<nat>)
    ensures Eligible(root, address) <==> |address| <= MAX_LEVEL && EligibleBelow(root, address)
    decreases |address|
  {
    if address == [] {
      assert address[..0] == [];
    } else if root.Dir? && address[0] < |root.children| && |address| <= MAX_LEVEL {
      var child, rest := root.children[address[0]], address[1..];
      EligibleIsEligibleBelow(child, rest);
      assert forall k :: 0 < k <= |address| ==> address[..k][1..] == rest[..k - 1] && address[..k][0] == address[0];
      assert forall k :: 0 < k <= |address| ==> NodeAt(root, address[..k]) == NodeAt(child, rest[..k - 1]);
      assert forall k :: 0 <= k <= |rest| ==> NodeAt(child, rest[..k]) == NodeAt(root, address[..k + 1]);
      assert address[..0] == [];
    }
  }

  /** What must be reported for an eligible address below a node. */
  function Report(node: Node, address: seq<nat>, path: string, below: seq<nat>): Found
    requires EligibleBelow(node, below)
  {
    EligibleBelowHasNode(node, below);
    Found(address + below, path + PathBelow(node, below), NodeAt(node, below).value.size)
  }

  lemma {:induction false} BelowChild(node: Node, below: seq<nat>)
    requires EligibleBelow(node, below) && below != []
    ensures var child := node.children[below[0]];
            && NodeAt(child, below[1..]).Some? && NodeAt(node, below) == NodeAt(child, below[1..])
            && PathBelow(node, below) == "/" + child.name + PathBelow(child, below[1..])
  {
    EligibleBelowHasNode(node, below);
  }

  lemma {:induction false} ReportOfChild(
      node: Node, address: seq<nat>, path: string, below: seq<nat>, child: Node, deeper: seq<nat>)
    requires EligibleBelow(node, below) && below != [] && child == node.children[below[0]] && deeper == below[1..]
    ensures Report(node, address, path, below) == Report(child, address + [below[0]], path + "/" + child.name, deeper)
  {
    BelowChild(node, below);
    SameAddress(address, below);
    AfterSlash(path, child.name, PathBelow(child, deeper));
  }

  lemma {:induction false} SameAddress(address: seq<nat>, below: seq<nat>)
    requires below != []
    ensures address + below == address + [below[0]] + below[1..]
  {
  }

  lemma {:induction false} AfterSlash(path: string, name: string, rest: string)
    ensures path + ("/" + name + rest) == path + "/" + name + rest
  {
  }

  lemma {:induction false} EverythingEligibleIsFound(node: Node, address: seq<nat>, path: string, below: seq<nat>)
    requires EligibleBelow(node, below) && |address| + |below| <= MAX_LEVEL
    ensures Report(node, address, path, below) in Walk(node, address, path)
    decreases |below|
  {
    if below == [] {
      assert address + [] == address && path + "" == path;
    } else {
      var k := below[0];
      var child := node.children[k];
      EverythingEligibleIsFound(child, address + [k], path + "/" + child.name, below[1..]);
      ReportOfChild(node, address, path, below, child, below[1..]);
      ChildIsWalked(node, 0, k, address, path);
    }
  }

  lemma {:induction false} ChildIsWalked(node: Node, from: nat, k: nat, address: seq<nat>, path: string)
    requires node.Dir? && from <= k < |node.children|
    ensures forall f :: f in Walk(node.children[k], address + [k], path + "/" + node.children[k].name) ==>
                        f in WalkFrom(node, from, address, path)
    decreases k - from
  {
    if from < k { ChildIsWalked(node, from + 1, k, address, path); }
  }

  lemma {:induction false} EverythingFoundIsEligible(node: Node, address: seq<nat>, path: string, f: Found)
    returns (below: seq<nat>)
    requires f in Walk(node, address, path)
    ensures EligibleBelow(node, below) && |address| + |below| <= MAX_LEVEL
    ensures f == Report(node, address, path, below)
    decreases MAX_LEVEL + 1 - |address|
  {
    if node.File? {
      below := [];
      assert address + [] == address && path + "" == path;
    } else {
      var k := WalkedByChild(node, 0, address, path, f);
      var child := node.children[k];
      var rest := EverythingFoundIsEligible(child, address + [k], path + "/" + child.name, f);
      below := [k] + rest;
      assert below[1..] == rest;
      ReportOfChild(node, address, path, below, child, rest);
    }
  }

  lemma {:induction false} WalkedByChild(node: Node, from: nat, address: seq<nat>, path: string, f: Found)
    returns (k: nat)
    requires node.Dir? && from <= |node.children| && f in WalkFrom(node, from, address, path)
    ensures from <= k < |node.children|
    ensures f in Walk(node.children[k], address + [k], path + "/" + node.children[k].name)
    decreases |node.children| - from
  {
    if f in Walk(node.children[from], address + [from], path + "/" + node.children[from].name) {
      k := from;
    } else {
      k := WalkedByChild(node, from + 1, address, path, f);
    }
  }

  /** The walk finds exactly the eligible files, each with its own path and size. */
  lemma {:induction false} WalkFindsExactlyEligible(root: Node, source: string, f: Found)
    ensures f in Walk(root, [], source) <==>
            && |f.address| <= 10 && NodeAt(root, f.address).Some? && NodeAt(root, f.address).value.File?
            && (forall k :: 0 <= k <= |f.address| ==>
                  NodeAt(root, f.address[..k]).Some? && !("." <= NodeAt(root, f.address[..k]).value.name))
            && f.path == source + PathBelow(root, f.address) && f.size == NodeAt(root, f.address).value.size
  {
    EligibleIsEligibleBelow(root, f.address);
    assert [] + f.address == f.address;
    if f in Walk(root, [], source) {
      var below := EverythingFoundIsEligible(root, [], source, f);
      assert [] + below == below;
      EligibleIsEligibleBelow(root, below);
    }
    if Eligible(root, f.address) {
      EverythingEligibleIsFound(root, [], source, f.address);
    }
  }

  // ----- In walk order, each once

  /** Strict preorder of addresses. */
  predicate Precedes(a: seq<nat>, b: seq<nat>) {
    b != [] && (a == [] || a[0] < b[0] || (a[0] == b[0] && Precedes(a[1..], b[1..])))
  }

  predicate InWalkOrder(found: seq<Found>) {
    forall j, k :: 0 <= j < k < |found| ==> Precedes(found[j].address, found[k].address)
  }

  /** The address starts with `address` and then a child index of at least `from`. */
  predicate BelowFrom(f: Found, address: seq<nat>, from: nat) {
    |f.address| > |address| && f.address[..|address|] == address && f.address[|address|] >= from
  }

  lemma {:induction false} FoundBelow(node: Node, from: nat, address: seq<nat>, path: string)
    requires node.Dir? && from <= |node.children|
    ensures forall f :: f in WalkFrom(node, from, address, path) ==> BelowFrom(f, address, from)
  {
    forall f | f in WalkFrom(node, from, address, path)
      ensures BelowFrom(f, address, from)
    {
      var k := WalkedByChild(node, from, address, path, f);
      var child := node.children[k];
      var below := EverythingFoundIsEligible(child, address + [k], path + "/" + child.name, f);
      assert f.address == address + [k] + below;
    }
  }

  lemma {:induction false} EarlierChildPrecedes(address: seq<nat>, k: nat, below: seq<nat>, b: seq<nat>)
    requires |b| > |address| && b[..|address|] == address && b[|address|] > k
    ensures Precedes(address + [k] + below, b)
    decreases |address|
  {
    var a := address + [k] + below;
    if address != [] {
      assert a[1..] == address[1..] + [k] + below;
      assert b[1..][..|address| - 1] == b[..|address|][1..] == address[1..];
      assert b[0] == b[..|address|][0];
      EarlierChildPrecedes(address[1..], k, below, b[1..]);
    }
  }

  lemma {:induction false} WalkIsInOrder(node: Node, address: seq<nat>, path: string)
    ensures InWalkOrder(Walk(node, address, path))
    decreases node, if node.Dir? then |node.children| + 2 else 0
  {
    if node.Dir? { WalkFromIsInOrder(node, 0, address, path); }
  }

  lemma {:induction false} WalkFromIsInOrder(node: Node, from: nat, address: seq<nat>, path: string)
    requires node.Dir? && from <= |node.children|
    ensures InWalkOrder(WalkFrom(node, from, address, path))
    decreases node, |node.children| - from + 1
  {
    if from < |node.children| {
      var child := node.children[from];
      var first := Walk(child, address + [from], path + "/" + child.name);
      var rest := WalkFrom(node, from + 1, address, path);
      WalkIsInOrder(child, address + [from], path + "/" + child.name);
      WalkFromIsInOrder(node, from + 1, address, path);
      FoundBelow(node, from + 1, address, path);
      forall j, k | 0 <= j < |first| && 0 <= k < |rest|
        ensures Precedes(first[j].address, rest[k].address)
      {
        var below := EverythingFoundIsEligible(child, address + [from], path + "/" + child.name, first[j]);
        assert rest[k] in rest;
        EarlierChildPrecedes(address, from, below, rest[k].address);
      }
    }
  }

  // ----- The loop over libwired's file tree stream

  datatype Info = Preorder | Postorder | NoRead | Loop | Error | Leaf

  datatype Entry = Entry(info: Info, level: nat, found: Found, name: string)

  /** What the stream still has to deliver. */
  datatype Item =
    | Enter(node: Node, address: seq<nat>, path: string)
    | Return(address: seq<nat>, path: string, name: string, read: bool)

  function Children(node: Node, k: nat, address: seq<nat>, path: string): seq<Item>
    requires node.Dir? && k <= |node.children|
    decreases |node.children| - k
  {
    if k == |node.children| then []
    else
      [Enter(node.children[k], address + [k], path + "/" + node.children[k].name)] +
      Children(node, k + 1, address, path)
  }

  /** The next entry, what skipping it would leave out, and the rest of the stream. A directory is
      delivered before and after its contents; one that cannot be read reports that instead. */
  function Read(pending: seq<Item>): (Entry, seq<Item>, seq<Item>)
    requires pending != []
  {
    var rest := pending[1..];
    match pending[0]
    case Return(address, path, name, read) =>
      (Entry(if read then Postorder else NoRead, |address|, Found(address, path, 0), name), [], rest)
    case Enter(node, address, path) =>
      match node
      case File(name, size) => (Entry(Leaf, |address|, Found(address, path, size), name), [], rest)
      case Dir(name, _) =>
        (Entry(Preorder, |address|, Found(address, path, 0), name), Children(node, 0, address, path),
         [Return(address, path, name, true)] + rest)
      case Unreadable(name) =>
        (Entry(Preorder, |address|, Found(address, path, 0), name), [Return(address, path, name, false)], rest)
      case Cycle(name) => (Entry(Loop, |address|, Found(address, path, 0), name), [], rest)
      case Failed(name) => (Entry(Error, |address|, Found(address, path, 0), name), [], rest)
  }

  function NodeWeight(node: Node): nat
    decreases node, if node.Dir? then |node.children| + 2 else 0
  {
    if node.Dir? then 2 + ChildrenWeight(node, 0) else 2
  }

  function ChildrenWeight(node: Node, k: nat): nat
    requires node.Dir? && k <= |node.children|
    decreases node, |node.children| - k + 1
  {
    if k == |node.children| then 0 else NodeWeight(node.children[k]) + ChildrenWeight(node, k + 1)
  }

  function Weight(items: seq<Item>): nat {
    if items == [] then 0
    else (if items[0].Enter? then NodeWeight(items[0].node) else 1) + Weight(items[1..])
  }

  function WalkItems(items: seq<Item>): seq<Found> {
    if items == [] then []
    else (if items[0].Enter? then Walk(items[0].node, items[0].address, items[0].path) else []) + WalkItems(items[1..])
  }

  lemma {:induction false} ItemsConcat(a: seq<Item>, b: seq<Item>)
    ensures WalkItems(a + b) == WalkItems(a) + WalkItems(b) && Weight(a + b) == Weight(a) + Weight(b)
  {
    if a == [] {
      assert a + b == b;
    } else {
      assert (a + b)[0] == a[0] && (a + b)[1..] == a[1..] + b;
      ItemsConcat(a[1..], b);
    }
  }

  lemma {:induction false} ChildrenAreWalked(node: Node, k: nat, address: seq<nat>, path: string)
    requires node.Dir? && k <= |node.children|
    ensures WalkItems(Children(node, k, address, path)) == WalkFrom(node, k, address, path)
    ensures Weight(Children(node, k, address, path)) == ChildrenWeight(node, k)
    decreases |node.children| - k
  {
    if k < |node.children| {
      ChildrenAreWalked(node, k + 1, address, path);
      var items := Children(node, k, address, path);
      assert items[1..] == Children(node, k + 1, address, path);
    }
  }

  lemma {:induction false} ReadShortens(pending: seq<Item>)
    requires pending != []
    ensures var (entry, inside, rest) := Read(pending); Weight(inside) + Weight(rest) < Weight(pending)
  {
    var (entry, inside, rest) := Read(pending);
    var item := pending[0];
    if item.Enter? && item.node.Dir? {
      ChildrenAreWalked(item.node, 0, item.address, item.path);
      assert rest[1..] == pending[1..];
    } else if item.Enter? && item.node.Unreadable? {
      assert inside[1..] == [];
    }
  }

  /** What the loop makes of one entry. */
  predicate PassedOver(entry: Entry) {
    || entry.level > MAX_LEVEL
    || (!entry.info.Loop? && !entry.info.Postorder? && !entry.info.NoRead? && !entry.info.Error? && Dotted(entry.name))
  }

  function Kept(entry: Entry, inside: seq<Item>): seq<Found> {
    if PassedOver(entry) then [] else if entry.info.Leaf? then [entry.found] else WalkItems(inside)
  }

  lemma {:induction false} ReadDirectory(node: Node, address: seq<nat>, path: string, after: seq<Item>)
    requires node.Dir?
    ensures var (entry, inside, rest) := Read([Enter(node, address, path)] + after);
            Kept(entry, inside) == Walk(node, address, path) && WalkItems(rest) == WalkItems(after)
  {
    var pending := [Enter(node, address, path)] + after;
    assert pending[1..] == after;
    var (entry, inside, rest) := Read(pending);
    ChildrenAreWalked(node, 0, address, path);
    assert rest[1..] == after;
  }

  lemma {:induction false} ReadUnreadable(node: Node, address: seq<nat>, path: string, after: seq<Item>)
    requires node.Unreadable?
    ensures var (entry, inside, rest) := Read([Enter(node, address, path)] + after);
            Kept(entry, inside) == [] && rest == after
  {
    var pending := [Enter(node, address, path)] + after;
    assert pending[1..] == after;
    var inside := Read(pending).1;
    assert inside[1..] == [] && WalkItems(inside) == [] + WalkItems(inside[1..]);
  }

  /** One entry of the stream: what the loop keeps of it is what the walk reports. */
  lemma {:induction false} ReadIsWalked(pending: seq<Item>)
    requires pending != []
    ensures var (entry, inside, rest) := Read(pending); WalkItems(pending) == Kept(entry, inside) + WalkItems(rest)
  {
    var item, after := pending[0], pending[1..];
    assert pending == [item] + after;
    if item.Enter? {
      if item.node.Dir? {
        ReadDirectory(item.node, item.address, item.path, after);
      } else if item.node.Unreadable? {
        ReadUnreadable(item.node, item.address, item.path, after);
      }
    }
  }

  /** `wi_fts_read`. */
  method ReadEntry(pending: seq<Item>) returns (entry: Entry, inside: seq<Item>, rest: seq<Item>)
    requires pending != []
    ensures WalkItems(pending) == Kept(entry, inside) + WalkItems(rest)
    ensures WalkItems(inside + rest) == WalkItems(inside) + WalkItems(rest)
    ensures Weight(rest) <= Weight(inside + rest) < Weight(pending)
    ensures entry.info.Leaf? ==> inside == []
  {
    ReadIsWalked(pending);
    ReadShortens(pending);
    var r := Read(pending);
    entry, inside, rest := r.0, r.1, r.2;
    ItemsConcat(inside, rest);
  }

  /** The directory branch of `wr_transfer_upload_add_file`, collecting what it queues. */
  method CollectFiles(root: Node, source: string) returns (found: seq<Found>)
    ensures found == Walk(root, [], source)
  {
    found := [];
    var pending := [Enter(root, [], source)];
    assert pending[1..] == [];
    assert WalkItems(pending) == Walk(root, [], source) + WalkItems(pending[1..]);
    while pending != []
      invariant found + WalkItems(pending) == Walk(root, [], source)
      decreases Weight(pending)
    {
      var entry, inside, rest := ReadEntry(pending);
      if entry.level > MAX_LEVEL {
        pending := rest;
        continue;
      }
      match entry.info {
        case Loop | Postorder | NoRead | Error =>
          pending := inside + rest;
          continue;
        case _ =>
      }
      if Dotted(entry.name) {
        pending := rest;
        continue;
      }
      if entry.info.Preorder? {
        // the folder request to the server is disabled
      } else {
        found := found + [entry.found];
      }
      pending := inside + rest;
    }
  }

  // ----- Remote paths

  /** `wi_string_by_appending_path_component`: the parts joined by one slash. */
  function Appended(path: string, component: string): string {
    if path == "" then component
    else if path[|path| - 1] == '/' then path + (if "/" <= component then component[1..] else component)
    else path + (if "/" <= component then component else "/" + component)
  }

  /** Path components with empty and "." components dropped and ".." taking one back. */
  function Resolved(parts: seq<string>, done: seq<string>): seq<string>
    decreases |parts|
  {
    if parts == [] then done
    else if parts[0] == "" || parts[0] == "." then Resolved(parts[1..], done)
    else if parts[0] == ".." then Resolved(parts[1..], if done == [] then [] else done[..|done| - 1])
    else Resolved(parts[1..], done + [parts[0]])
  }

  /** `wi_string_by_normalizing_path`. */
  function Normalized(path: string): string {
    (if "/" <= path then "/" else "") + Join(Resolved(Split(path, '/'), []), '/')
  }

  /** How the tree stream begins the local paths below a normalized source: one slash stands between
      it and the names below, also when the source is "/". */
  function StreamBase(source: string): string {
    if source == "/" then "" else source
  }

  /** The remote path of a local path below the source directory. */
  function RemotePath(master: string, source: string, local: string): string {
    Normalized(Appended(master, if |source| <= |local| then local[|source|..] else ""))
  }

  /** `wr_files_full_path`; the remote working directory is always "/". */
  function FullPath(name: string): string {
    Normalized(if "/" <= name then name else Appended("/", name))
  }

  /** A component normalization leaves alone. */
  predicate PlainName(name: string) {
    name != "" && name != "." && name != ".." && '/' !in name
  }

  predicate PlainNames(names: seq<string>) {
    forall n :: n in names ==> PlainName(n)
  }

  lemma {:induction false} ResolvedPlain(parts: seq<string>, done: seq<string>)
    requires PlainNames(parts)
    ensures Resolved(parts, done) == done + parts
    decreases |parts|
  {
    if parts == [] {
      assert done + [] == done;
    } else {
      assert parts[0] in parts;
      ResolvedPlain(parts[1..], done + [parts[0]]);
      assert done + [parts[0]] + parts[1..] == done + parts;
    }
  }

  /** Normalization is the identity on absolute paths of plain names. */
  lemma {:induction false} NormalizedPlain(names: seq<string>)
    requires names != [] && PlainNames(names)
    ensures Normalized("/" + Join(names, '/')) == "/" + Join(names, '/')
  {
    var path := "/" + Join(names, '/');
    SplitJoin(names, '/');
    assert path[1..] == Join(names, '/');
    assert Split(path, '/') == [""] + names;
    assert ([""] + names)[1..] == names;
    ResolvedPlain(names, []);
    assert [] + names == names;
  }

  lemma {:induction false} ResolvedIsPlain(parts: seq<string>, done: seq<string>)
    requires PlainNames(done) && forall p :: p in parts ==> '/' !in p
    ensures PlainNames(Resolved(parts, done))
    decreases |parts|
  {
    if parts != [] {
      assert parts[0] in parts;
      if parts[0] == "" || parts[0] == "." {
        ResolvedIsPlain(parts[1..], done);
      } else if parts[0] == ".." {
        ResolvedIsPlain(parts[1..], if done == [] then [] else done[..|done| - 1]);
      } else {
        ResolvedIsPlain(parts[1..], done + [parts[0]]);
      }
    }
  }

  /** A normalized path ends in a slash only when it is "/". */
  lemma {:induction false} NormalizedEnd(path: string)
    ensures var n := Normalized(path); n == "" || n == "/" || n[|n| - 1] != '/'
  {
    var names := Resolved(Split(path, '/'), []);
    ResolvedIsPlain(Split(path, '/'), []);
    if names != [] {
      LastIsNotSlash(names);
      var n := Normalized(path);
      assert n[|n| - 1] == Join(names, '/')[|Join(names, '/')| - 1];
    }
  }

  /** The master path of an upload is its name below the root; the names "", "." and ".." stand for
      the root itself. */
  function MasterNames(name: string): seq<string> {
    if PlainName(name) then [name] else []
  }

  lemma {:induction false} FullPathOfName(name: string)
    requires '/' !in name
    ensures FullPath(name) == "/" + Join(MasterNames(name), '/')
    ensures FullPath(name) == "/" <==> !PlainName(name)
  {
    assert name != "" ==> name[0] in name;
    SplitJoin([name], '/');
    assert Split(name, '/') == [name];
    var path := "/" + name;
    assert path[1..] == name && Split(path, '/') == [""] + [name] && ([""] + [name])[1..] == [name];
    if PlainName(name) {
      NormalizedPlain([name]);
    } else {
      assert [name][1..] == [] && Resolved([name], []) == [];
    }
  }

  /** The names from below the root down to an address. */
  function NamesBelow(root: Node, address: seq<nat>): (names: seq<string>)
    requires NodeAt(root, address).Some?
    ensures |names| == |address|
    decreases |address|
  {
    if address == [] then []
    else [root.children[address[0]].name] + NamesBelow(root.children[address[0]], address[1..])
  }

  lemma {:induction false} PathIsNames(root: Node, address: seq<nat>)
    requires NodeAt(root, address).Some? && address != []
    ensures PathBelow(root, address) == "/" + Join(NamesBelow(root, address), '/')
    decreases |address|
  {
    var child := root.children[address[0]];
    var names := NamesBelow(root, address);
    assert names[1..] == NamesBelow(child, address[1..]);
    if |address| > 1 {
      PathIsNames(child, address[1..]);
    } else {
      assert "/" + child.name + "" == "/" + child.name;
    }
  }

  /** What a file system guarantees: names are not empty and hold no slash, and the names in one
      directory differ. */
  predicate WellNamed(root: Node)
    decreases root
  {
    root.Dir? ==>
      && (forall j :: 0 <= j < |root.children| ==>
            root.children[j].name != "" && '/' !in root.children[j].name && WellNamed(root.children[j]))
      && (forall j, k :: 0 <= j < k < |root.children| ==> root.children[j].name != root.children[k].name)
  }

  lemma {:induction false} EligibleNamesArePlain(root: Node, address: seq<nat>)
    requires WellNamed(root) && EligibleBelow(root, address)
    ensures NodeAt(root, address).Some? && PlainNames(NamesBelow(root, address))
    decreases |address|
  {
    EligibleBelowHasNode(root, address);
    if address != [] {
      var child := root.children[address[0]];
      EligibleNamesArePlain(child, address[1..]);
      EligibleIsNotDotted(child, address[1..]);
    }
  }

  lemma {:induction false} EligibleIsNotDotted(node: Node, below: seq<nat>)
    requires EligibleBelow(node, below)
    ensures node.name != "." && node.name != ".."
  {
    assert "." <= "." && "." <= "..";
  }

  /** What goes before the slash of a path below the folder of these names. */
  function Folder(names: seq<string>): string {
    if names == [] then "" else "/" + Join(names, '/')
  }

  /** The remote path of a queued file is the master path followed by the part of its local path
      below the source directory: normalization changes nothing. */
  lemma {:induction false} RemotePathIsMasterPlusRest(
      root: Node, master: seq<string>, source: string, address: seq<nat>)
    requires root.Dir? && WellNamed(root) && EligibleBelow(root, address) && address != []
    requires PlainNames(master)
    ensures NodeAt(root, address).Some?
    ensures RemotePath("/" + Join(master, '/'), source, StreamBase(source) + PathBelow(root, address)) ==
            Folder(master) + PathBelow(root, address)
  {
    EligibleNamesArePlain(root, address);
    var names, rest := NamesBelow(root, address), PathBelow(root, address);
    PathIsNames(root, address);
    AppendedNames(master, names);
    if source == "/" {
      FirstIsNotSlash(names);
      assert "" + rest == rest && rest[1..] == Join(names, '/');
      AppendedEither("/" + Join(master, '/'), Join(names, '/'));
    } else {
      assert (source + rest)[|source|..] == rest;
    }
  }

  lemma {:induction false} AppendedNames(master: seq<string>, names: seq<string>)
    requires PlainNames(master) && names != [] && PlainNames(names)
    ensures var base, rest := "/" + Join(master, '/'), "/" + Join(names, '/');
            Normalized(Appended(base, rest)) == Folder(master) + rest
  {
    var base, rest := "/" + Join(master, '/'), "/" + Join(names, '/');
    if master == [] {
      assert base == "/" && Appended(base, rest) == rest && "" + rest == rest;
      NormalizedPlain(names);
    } else {
      LastIsNotSlash(master);
      assert base[|base| - 1] == Join(master, '/')[|Join(master, '/')| - 1];
      JoinConcat(master, names, '/');
      assert base + rest == "/" + Join(master + names, '/');
      NormalizedPlain(master + names);
    }
  }

  lemma {:induction false} AppendedEither(path: string, component: string)
    requires path != "" && !("/" <= component)
    ensures Appended(path, "/" + component) == Appended(path, component)
  {
    assert ("/" + component)[1..] == component;
  }

  lemma {:induction false} FirstIsNotSlash(names: seq<string>)
    requires names != [] && PlainNames(names)
    ensures !("/" <= Join(names, '/'))
  {
    assert names[0] in names && names[0][0] in names[0];
    assert Join(names, '/')[0] == names[0][0];
  }

  lemma {:induction false} LastIsNotSlash(names: seq<string>)
    requires names != [] && PlainNames(names)
    ensures var path := Join(names, '/'); path != "" && path[|path| - 1] != '/'
  {
    assert names[0] in names;
    if |names| == 1 {
      assert names[0][|names[0]| - 1] in names[0];
    } else {
      LastIsNotSlash(names[1..]);
    }
  }

  lemma {:induction false} NamesTellAddressesApart(root: Node, a: seq<nat>, b: seq<nat>)
    requires WellNamed(root) && NodeAt(root, a).Some? && NodeAt(root, b).Some?
    requires NamesBelow(root, a) == NamesBelow(root, b)
    ensures a == b
    decreases |a|
  {
    assert |a| == |b|;
    if a != [] {
      var x, y := root.children[a[0]], root.children[b[0]];
      assert x.name == NamesBelow(root, a)[0] == NamesBelow(root, b)[0] == y.name;
      assert a[0] == b[0];
      assert NamesBelow(root, a)[1..] == NamesBelow(x, a[1..]);
      assert NamesBelow(root, b)[1..] == NamesBelow(y, b[1..]);
      NamesTellAddressesApart(x, a[1..], b[1..]);
      assert a == [a[0]] + a[1..] && b == [b[0]] + b[1..];
    }
  }

  /** Different queued files have different remote paths. */
  lemma {:induction false} RemotePathsAreDistinct(
      root: Node, master: seq<string>, source: string, a: seq<nat>, b: seq<nat>)
    requires root.Dir? && WellNamed(root) && EligibleBelow(root, a) && EligibleBelow(root, b)
    requires a != [] && b != []
    requires PlainNames(master)
    ensures NodeAt(root, a).Some? && NodeAt(root, b).Some?
    ensures a != b ==> RemotePath("/" + Join(master, '/'), source, StreamBase(source) + PathBelow(root, a)) !=
                       RemotePath("/" + Join(master, '/'), source, StreamBase(source) + PathBelow(root, b))
  {
    RemotePathIsMasterPlusRest(root, master, source, a);
    RemotePathIsMasterPlusRest(root, master, source, b);
    PathsTellAddressesApart(root, Folder(master), a, b);
  }

  lemma {:induction false} PathsTellAddressesApart(root: Node, base: string, a: seq<nat>, b: seq<nat>)
    requires WellNamed(root) && EligibleBelow(root, a) && EligibleBelow(root, b) && a != [] && b != []
    ensures NodeAt(root, a).Some? && NodeAt(root, b).Some?
    ensures base + PathBelow(root, a) == base + PathBelow(root, b) ==> a == b
  {
    EligibleNamesArePlain(root, a);
    EligibleNamesArePlain(root, b);
    PathIsNames(root, a);
    PathIsNames(root, b);
    var p, q := PathBelow(root, a), PathBelow(root, b);
    if base + p == base + q {
      assert p == (base + p)[|base|..] == (base + q)[|base|..] == q;
      assert p[1..] == Join(NamesBelow(root, a), '/') && q[1..] == Join(NamesBelow(root, b), '/');
      SplitJoin(NamesBelow(root, a), '/');
      SplitJoin(NamesBelow(root, b), '/');
      NamesTellAddressesApart(root, a, b);
    }
  }

  /** For every file the walk queues under `name`: its remote path is the master path, or nothing
      when that is the root, followed by the part of its local path below the source directory. */
  lemma {:induction false} QueuedBelowMaster(root: Node, source: string, name: string, f: Found)
    requires root.Dir? && WellNamed(root) && '/' !in name && f in Walk(root, [], StreamBase(source))
    ensures StreamBase(source) <= f.path
    ensures RemotePath(FullPath(name), source, f.path) ==
            (if FullPath(name) == "/" then "" else FullPath(name)) + f.path[|StreamBase(source)|..]
  {
    var base := StreamBase(source);
    WalkFindsExactlyEligible(root, base, f);
    EligibleIsEligibleBelow(root, f.address);
    FullPathOfName(name);
    assert NodeAt(root, []) == Some(root);
    RemotePathIsMasterPlusRest(root, MasterNames(name), source, f.address);
    assert (base + PathBelow(root, f.address))[|base|..] == PathBelow(root, f.address);
  }

  /** No two files of one walk get the same remote path. */
  lemma {:induction false} QueuedPathsDiffer(root: Node, source: string, name: string, j: nat, k: nat)
    requires root.Dir? && WellNamed(root) && '/' !in name && j < k < |Walk(root, [], StreamBase(source))|
    ensures var found := Walk(root, [], StreamBase(source));
            RemotePath(FullPath(name), source, found[j].path) != RemotePath(FullPath(name), source, found[k].path)
  {
    var found := Walk(root, [], StreamBase(source));
    WalkIsInOrder(root, [], StreamBase(source));
    PrecedesIsIrreflexive(found[k].address);
    assert found[j] in found && found[k] in found;
    WalkFindsExactlyEligible(root, StreamBase(source), found[j]);
    WalkFindsExactlyEligible(root, StreamBase(source), found[k]);
    EligibleIsEligibleBelow(root, found[j].address);
    EligibleIsEligibleBelow(root, found[k].address);
    FullPathOfName(name);
    assert NodeAt(root, []) == Some(root);
    RemotePathsAreDistinct(root, MasterNames(name), source, found[j].address, found[k].address);
  }

  lemma {:induction false} PrecedesIsIrreflexive(a: seq<nat>)
    ensures !Precedes(a, a)
  {
    if a != [] { PrecedesIsIrreflexive(a[1..]); }
  }
}
