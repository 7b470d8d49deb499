/** Expansion of a watcher's output text (`wb_watcher_compute_output` in wirebot/watcher.c). */
module WatcherTemplate {

  const WATCHER_PATH := "@WATCHER_PATH"
  const WATCHER_FILE := "@WATCHER_FILE"

  predicate Contains(s: string, pattern: string) {
    pattern <= s || (s != [] && Contains(s[1..], pattern))
  }

  /** All non-overlapping occurrences, left to right. */
  function Replace(s: string, pattern: string, replacement: string): string
    requires pattern != []
    decreases |s|
  {
    if s == [] then []
    else if pattern <= s then replacement + Replace(s[|pattern|..], pattern, replacement)
    else [s[0]] + Replace(s[1..], pattern, replacement)
  }

  /** Two guarded passes, both guards asking the original text. */
  function ComputeOutput(output: string, watcherPath: string, fileName: string): string {
    var first := if Contains(output, WATCHER_PATH) then Replace(output, WATCHER_PATH, watcherPath) else output;
    if Contains(output, WATCHER_FILE) then Replace(first, WATCHER_FILE, fileName) else first
  }

  /** What the template means: every placeholder of the original text is filled in at once and
      nothing that was filled in is looked at again. */
  function Expanded(output: string, watcherPath: string, fileName: string): string
    decreases |output|
  {
    if output == [] then []
    else if WATCHER_PATH <= output then watcherPath + Expanded(output[|WATCHER_PATH|..], watcherPath, fileName)
    else if WATCHER_FILE <= output then fileName + Expanded(output[|WATCHER_FILE|..], watcherPath, fileName)
    else [output[0]] + Expanded(output[1..], watcherPath, fileName)
  }

  /** The path ends with the first `k` characters of the file placeholder. */
  predicate EndsInside(path: string, k: nat)
    requires k <= |WATCHER_FILE|
  {
    k <= |path| && path[|path| - k..] == WATCHER_FILE[..k]
  }

  /** Paths that cannot take part in a file placeholder: none is inside the path, none can begin in
      it and end after it, none can begin before it and end in it, and it is no middle piece of one.
      The last condition shuts out the empty path. */
  predicate Safe(path: string) {
    && !Contains(path, WATCHER_FILE)
    && (forall k :: 1 <= k < |WATCHER_FILE| ==> !EndsInside(path, k))
    && (forall k :: 1 <= k < |WATCHER_FILE| ==> !(WATCHER_FILE[k..] <= path))
    && (forall a, b :: 1 <= a <= b < |WATCHER_FILE| ==> path != WATCHER_FILE[a..b])
  }

  /** For an absolute path the first two conditions decide, and without '@' both hold. */
  lemma {:induction false} AbsolutePathsAreSafe(path: string)
    requires "/" <= path
    ensures Safe(path) <==>
            !Contains(path, WATCHER_FILE) && forall k :: 1 <= k < |WATCHER_FILE| ==> !EndsInside(path, k)
    ensures '@' !in path ==> Safe(path)
  {
    assert path[0] == '/' && '/' !in WATCHER_FILE;
    forall k | 1 <= k < |WATCHER_FILE|
      ensures !(WATCHER_FILE[k..] <= path)
    {
      assert WATCHER_FILE[k..][0] == WATCHER_FILE[k];
    }
    forall a, b | 1 <= a <= b < |WATCHER_FILE|
      ensures path != WATCHER_FILE[a..b]
    {
      assert b > a ==> WATCHER_FILE[a..b][0] == WATCHER_FILE[a];
    }
    if '@' !in path {
      WithoutMarkIsAbsent(path);
      forall k | 1 <= k < |WATCHER_FILE|
        ensures !EndsInside(path, k)
      {
        assert WATCHER_FILE[..k][0] == '@';
        assert k <= |path| ==> path[|path| - k..][0] == path[|path| - k];
      }
    }
  }

  lemma {:induction false} WithoutMarkIsAbsent(path: string)
    requires '@' !in path
    ensures !Contains(path, WATCHER_FILE)
  {
    assert WATCHER_FILE[0] == '@';
    if path != [] { WithoutMarkIsAbsent(path[1..]); }
  }

  lemma {:induction false} Regroup(a: string, b: string, c: string, d: string)
    ensures a + (b + (c + d)) == (a + (b + c)) + d
  {
  }

  /** Replacing commutes with dropping a front in which no occurrence begins. */
  lemma {:induction false} SkipFront(front: string, rest: string, pattern: string, replacement: string)
    requires pattern != [] && pattern[0] !in front
    ensures Replace(front + rest, pattern, replacement) == front + Replace(rest, pattern, replacement)
  {
    if front == [] {
      assert front + rest == rest;
    } else {
      assert (front + rest)[0] == front[0];
      assert (front + rest)[1..] == front[1..] + rest;
      SkipFront(front[1..], rest, pattern, replacement);
    }
  }

  lemma {:induction false} BeginsInPath(path: string, rest: string)
    requires path != [] && WATCHER_FILE <= path + rest
    ensures WATCHER_FILE <= path || (|path| < |WATCHER_FILE| && EndsInside(path, |path|))
  {
    var all := path + rest;
    if |WATCHER_FILE| <= |path| {
      assert all[..|WATCHER_FILE|] == path[..|WATCHER_FILE|];
    } else {
      assert all[..|path|] == path == WATCHER_FILE[..|path|] && path[0..] == path;
    }
  }

  lemma {:induction false} TailEndsInside(path: string, k: nat)
    requires path != [] && k <= |WATCHER_FILE|
    ensures EndsInside(path[1..], k) ==> EndsInside(path, k)
  {
    assert k < |path| ==> path[1..][|path| - 1 - k..] == path[|path| - k..];
  }

  /** Nor does an occurrence begin in the path, or in its end, whatever follows it. */
  lemma {:induction false} SkipPath(path: string, rest: string, name: string)
    requires !Contains(path, WATCHER_FILE)
    requires forall k :: 1 <= k < |WATCHER_FILE| ==> !EndsInside(path, k)
    ensures Replace(path + rest, WATCHER_FILE, name) == path + Replace(rest, WATCHER_FILE, name)
  {
    if path == [] {
      assert path + rest == rest;
    } else {
      assert (path + rest)[1..] == path[1..] + rest;
      if WATCHER_FILE <= path + rest {
        BeginsInPath(path, rest);
        assert false;
      }
      forall k | 1 <= k < |WATCHER_FILE|
        ensures !EndsInside(path[1..], k)
      {
        TailEndsInside(path, k);
      }
      SkipPath(path[1..], rest, name);
    }
  }

  lemma {:induction false} EndsInPath(path: string, rest: string, k: nat)
    requires k <= |WATCHER_FILE| && WATCHER_FILE[k..] <= path + rest
    ensures WATCHER_FILE[k..] <= path || (k + |path| < |WATCHER_FILE| && path == WATCHER_FILE[k..k + |path|])
  {
    var all, end := path + rest, WATCHER_FILE[k..];
    if |end| <= |path| {
      assert all[..|end|] == path[..|end|];
    } else {
      assert all[..|path|] == path == end[..|path|];
    }
  }

  /** Filling in a safe path never makes the text continue a file placeholder it did not continue. */
  lemma {:induction false} NoNewEnd(s: string, path: string, k: nat)
    requires Safe(path) && 1 <= k <= |WATCHER_FILE|
    requires WATCHER_FILE[k..] <= Replace(s, WATCHER_PATH, path)
    ensures WATCHER_FILE[k..] <= s
    decreases |WATCHER_FILE| - k
  {
    if k < |WATCHER_FILE| {
      var end, r := WATCHER_FILE[k..], Replace(s, WATCHER_PATH, path);
      if WATCHER_PATH <= s {
        var rest := Replace(s[|WATCHER_PATH|..], WATCHER_PATH, path);
        EndsInPath(path, rest, k);
        assert false;
      }
      assert r[0] == end[0] && r[1..] == Replace(s[1..], WATCHER_PATH, path);
      assert end[1..] == WATCHER_FILE[k + 1..];
      NoNewEnd(s[1..], path, k + 1);
      assert end == [end[0]] + end[1..];
    }
  }

  lemma {:induction false} FilePlaceholder()
    ensures WATCHER_FILE == ['@'] + WATCHER_FILE[1..] && '@' !in WATCHER_FILE[1..]
    ensures WATCHER_PATH == ['@'] + WATCHER_PATH[1..] && '@' !in WATCHER_PATH[1..]
    ensures |WATCHER_FILE| == |WATCHER_PATH| == 13 && WATCHER_FILE != WATCHER_PATH
  {
    assert WATCHER_FILE[9] != WATCHER_PATH[9];
  }

  lemma {:induction false} AtPath(s: string, path: string, name: string)
    requires Safe(path) && WATCHER_PATH <= s
    ensures Replace(Replace(s, WATCHER_PATH, path), WATCHER_FILE, name) ==
            path + Replace(Replace(s[|WATCHER_PATH|..], WATCHER_PATH, path), WATCHER_FILE, name)
  {
    SkipPath(path, Replace(s[|WATCHER_PATH|..], WATCHER_PATH, path), name);
  }

  lemma {:induction false} FileIsNotPath(s: string)
    requires WATCHER_FILE <= s
    ensures !(WATCHER_PATH <= s)
  {
    assert s[9] == WATCHER_FILE[9] == 'F' && WATCHER_PATH[9] == 'P';
  }

  lemma {:induction false} AtFile(s: string, path: string, name: string)
    requires WATCHER_FILE <= s
    ensures Replace(Replace(s, WATCHER_PATH, path), WATCHER_FILE, name) ==
            name + Replace(Replace(s[|WATCHER_FILE|..], WATCHER_PATH, path), WATCHER_FILE, name)
  {
    FilePlaceholder();
    var tail, rest := WATCHER_FILE[1..], s[|WATCHER_FILE|..];
    FileIsNotPath(s);
    assert s == WATCHER_FILE + rest && s[0] == '@';
    assert s[1..] == tail + rest;
    SkipFront(tail, rest, WATCHER_PATH, path);
    var r := Replace(rest, WATCHER_PATH, path);
    assert Replace(s, WATCHER_PATH, path) == ['@'] + (tail + r) == WATCHER_FILE + r;
    assert (WATCHER_FILE + r)[|WATCHER_FILE|..] == r;
  }

  lemma {:induction false} AtOther(s: string, path: string, name: string)
    requires Safe(path) && s != [] && !(WATCHER_PATH <= s) && !(WATCHER_FILE <= s)
    ensures Replace(Replace(s, WATCHER_PATH, path), WATCHER_FILE, name) ==
            [s[0]] + Replace(Replace(s[1..], WATCHER_PATH, path), WATCHER_FILE, name)
  {
    FilePlaceholder();
    var r, r1 := Replace(s, WATCHER_PATH, path), Replace(s[1..], WATCHER_PATH, path);
    assert r == [s[0]] + r1 && r[1..] == r1;
    assert s == [s[0]] + s[1..];
    if WATCHER_FILE <= r {
      NoNewEnd(s[1..], path, 1);
      assert false;
    }
  }

  lemma {:induction false} TwoPassesAreOne(s: string, path: string, name: string)
    requires Safe(path)
    ensures Replace(Replace(s, WATCHER_PATH, path), WATCHER_FILE, name) == Expanded(s, path, name)
    decreases |s|
  {
    if s == [] {
    } else if WATCHER_PATH <= s {
      TwoPassesAreOne(s[|WATCHER_PATH|..], path, name);
      AtPath(s, path, name);
    } else if WATCHER_FILE <= s {
      TwoPassesAreOne(s[|WATCHER_FILE|..], path, name);
      FileIsNotPath(s);
      AtFile(s, path, name);
    } else {
      TwoPassesAreOne(s[1..], path, name);
      AtOther(s, path, name);
    }
  }

  lemma {:induction false} AbsentPath(s: string, path: string)
    requires !Contains(s, WATCHER_PATH)
    ensures Replace(s, WATCHER_PATH, path) == s
  {
    if s != [] { AbsentPath(s[1..], path); }
  }

  lemma {:induction false} AbsentFile(s: string, path: string, name: string)
    requires !Contains(s, WATCHER_FILE)
    ensures Replace(s, WATCHER_PATH, path) == Expanded(s, path, name)
    decreases |s|
  {
    if s != [] {
      if WATCHER_PATH <= s {
        if Contains(s[|WATCHER_PATH|..], WATCHER_FILE) {
          ContainsDrop(s, |WATCHER_PATH|, WATCHER_FILE);
        }
        AbsentFile(s[|WATCHER_PATH|..], path, name);
      } else {
        AbsentFile(s[1..], path, name);
      }
    }
  }

  lemma {:induction false} ContainsDrop(s: string, n: nat, pattern: string)
    requires n <= |s| && Contains(s[n..], pattern)
    ensures Contains(s, pattern)
  {
    if n > 0 {
      assert s[1..][n - 1..] == s[n..];
      ContainsDrop(s[1..], n - 1, pattern);
    } else {
      assert s[0..] == s;
    }
  }

  /** The guarded passes give the simultaneous expansion for every text and file name, whatever
      the file name contains. */
  lemma {:induction false} OutputIsSimultaneous(output: string, path: string, fileName: string)
    requires Safe(path)
    ensures ComputeOutput(output, path, fileName) == Expanded(output, path, fileName)
  {
    if !Contains(output, WATCHER_PATH) {
      AbsentPath(output, path);
    }
    if Contains(output, WATCHER_FILE) {
      TwoPassesAreOne(output, path, fileName);
    } else {
      AbsentFile(output, path, fileName);
    }
  }

  lemma {:induction false} ContainsAt(s: string, n: nat, pattern: string)
    requires n <= |s| && pattern <= s[n..]
    ensures Contains(s, pattern)
  {
    ContainsDrop(s, n, pattern);
  }

  // ----- When the path is not safe

  /** A text whose expansion surrounds the path by pieces of a file placeholder. */
  function Probe(a: nat, b: nat): string
    requires a < |WATCHER_FILE| && b <= |WATCHER_FILE|
  {
    WATCHER_FILE[..a] + (WATCHER_PATH + (WATCHER_FILE[b..] + WATCHER_FILE))
  }

  function Surrounded(path: string, a: nat, b: nat): string
    requires a < |WATCHER_FILE| && b <= |WATCHER_FILE|
  {
    WATCHER_FILE[..a] + (path + WATCHER_FILE[b..])
  }

  /** Neither replacing nor expanding finds a placeholder in a front that another cuts short. */
  predicate CutShort(front: string, rest: string) {
    && front != [] && '@' !in front[1..] && rest != [] && rest[0] == '@'
    && |front| < |WATCHER_FILE| && WATCHER_FILE[|front|] != '@' && WATCHER_PATH[|front|] != '@'
  }

  lemma {:induction false} CutShortIsPlain(front: string, rest: string)
    requires CutShort(front, rest)
    ensures !(WATCHER_PATH <= front + rest) && !(WATCHER_FILE <= front + rest)
  {
    assert (front + rest)[|front|] == '@';
  }

  lemma {:induction false} PlainStep(s: string, path: string, name: string)
    requires s != [] && !(WATCHER_PATH <= s) && !(WATCHER_FILE <= s)
    ensures Replace(s, WATCHER_PATH, path) == [s[0]] + Replace(s[1..], WATCHER_PATH, path)
    ensures Expanded(s, path, name) == [s[0]] + Expanded(s[1..], path, name)
  {
  }

  lemma {:induction false} Prepend(all: string, front: string, rest: string)
    requires front != [] && all == [front[0]] + (front[1..] + rest)
    ensures all == front + rest
  {
    assert [front[0]] + front[1..] == front;
  }

  lemma {:induction false} SkipCutShort(front: string, rest: string, path: string, name: string)
    requires CutShort(front, rest)
    ensures Replace(front + rest, WATCHER_PATH, path) == front + Replace(rest, WATCHER_PATH, path)
    ensures Expanded(front + rest, path, name) == front + Expanded(rest, path, name)
  {
    var s := front + rest;
    assert s[0] == front[0] && s[1..] == front[1..] + rest;
    CutShortIsPlain(front, rest);
    PlainStep(s, path, name);
    SkipFront(front[1..], rest, WATCHER_PATH, path);
    SkipFrontExpanded(front[1..], rest, path, name);
    Prepend(Replace(s, WATCHER_PATH, path), front, Replace(rest, WATCHER_PATH, path));
    Prepend(Expanded(s, path, name), front, Expanded(rest, path, name));
  }

  lemma {:induction false} PiecesAreCutShort(a: nat, rest: string)
    requires 0 < a < |WATCHER_FILE| && rest != [] && rest[0] == '@'
    ensures CutShort(WATCHER_FILE[..a], rest)
  {
    FilePlaceholder();
    assert WATCHER_FILE[a] == WATCHER_FILE[1..][a - 1] && WATCHER_PATH[a] == WATCHER_PATH[1..][a - 1];
    assert WATCHER_FILE[..a][1..] == WATCHER_FILE[1..][..a - 1];
  }

  lemma {:induction false} EndHasNoMark(b: nat)
    requires 1 <= b <= |WATCHER_FILE|
    ensures '@' !in WATCHER_FILE[b..]
  {
    FilePlaceholder();
    assert WATCHER_FILE[b..] == WATCHER_FILE[1..][b - 1..];
  }

  lemma {:induction false} SkipFrontExpanded(front: string, rest: string, path: string, name: string)
    requires '@' !in front
    ensures Expanded(front + rest, path, name) == front + Expanded(rest, path, name)
  {
    if front == [] {
      assert front + rest == rest;
    } else {
      assert (front + rest)[0] == front[0] && WATCHER_PATH[0] == WATCHER_FILE[0] == '@';
      assert (front + rest)[1..] == front[1..] + rest;
      SkipFrontExpanded(front[1..], rest, path, name);
    }
  }

  lemma {:induction false} FilePlaceholderSurvives(path: string)
    ensures Replace(WATCHER_FILE, WATCHER_PATH, path) == WATCHER_FILE
  {
    FilePlaceholder();
    FileIsNotPath(WATCHER_FILE);
    var tail := WATCHER_FILE[1..];
    SkipFront(tail, "", WATCHER_PATH, path);
    assert tail + "" == tail && Replace("", WATCHER_PATH, path) == "";
  }

  lemma {:induction false} FilePlaceholderExpands(path: string, name: string)
    ensures Expanded(WATCHER_FILE, path, name) == name
  {
    FileIsNotPath(WATCHER_FILE);
    assert WATCHER_FILE[|WATCHER_FILE|..] == "" && Expanded("", path, name) == "" && name + "" == name;
  }

  lemma {:induction false} AtPathReplace(rest: string, path: string)
    ensures Replace(WATCHER_PATH + rest, WATCHER_PATH, path) == path + Replace(rest, WATCHER_PATH, path)
  {
    assert (WATCHER_PATH + rest)[|WATCHER_PATH|..] == rest;
  }

  lemma {:induction false} AtPathExpanded(rest: string, path: string, name: string)
    ensures Expanded(WATCHER_PATH + rest, path, name) == path + Expanded(rest, path, name)
  {
    assert (WATCHER_PATH + rest)[|WATCHER_PATH|..] == rest;
  }

  lemma {:induction false} ProbeFirstPass(path: string, a: nat, b: nat)
    requires a < |WATCHER_FILE| && 1 <= b <= |WATCHER_FILE|
    ensures Replace(Probe(a, b), WATCHER_PATH, path) == Surrounded(path, a, b) + WATCHER_FILE
  {
    var front, end := WATCHER_FILE[..a], WATCHER_FILE[b..];
    var rest := WATCHER_PATH + (end + WATCHER_FILE);
    EndHasNoMark(b);
    SkipFront(end, WATCHER_FILE, WATCHER_PATH, path);
    FilePlaceholderSurvives(path);
    AtPathReplace(end + WATCHER_FILE, path);
    if a == 0 {
      assert front + rest == rest;
    } else {
      PiecesAreCutShort(a, rest);
      SkipCutShort(front, rest, path, "");
    }
    Regroup(front, path, end, WATCHER_FILE);
  }

  lemma {:induction false} ProbeExpands(path: string, a: nat, b: nat, name: string)
    requires a < |WATCHER_FILE| && 1 <= b <= |WATCHER_FILE|
    ensures Expanded(Probe(a, b), path, name) == Surrounded(path, a, b) + name
  {
    var front, end := WATCHER_FILE[..a], WATCHER_FILE[b..];
    var rest := WATCHER_PATH + (end + WATCHER_FILE);
    EndHasNoMark(b);
    SkipFrontExpanded(end, WATCHER_FILE, path, name);
    FilePlaceholderExpands(path, name);
    AtPathExpanded(end + WATCHER_FILE, path, name);
    if a == 0 {
      assert front + rest == rest;
    } else {
      PiecesAreCutShort(a, rest);
      SkipCutShort(front, rest, path, name);
    }
    Regroup(front, path, end, name);
  }

  /** Filling in a name shorter than the placeholder shortens a text that contains one. */
  lemma {:induction false} ReplacingShrinks(s: string, name: string)
    requires |name| < |WATCHER_FILE|
    ensures |Replace(s, WATCHER_FILE, name)| <= |s|
    ensures Contains(s, WATCHER_FILE) ==> |Replace(s, WATCHER_FILE, name)| <= |s| - |WATCHER_FILE| + |name|
    decreases |s|
  {
    if s != [] {
      ReplacingShrinks(s[if WATCHER_FILE <= s then |WATCHER_FILE| else 1..], name);
    }
  }

  lemma {:induction false} ContainsIsLonger(s: string, pattern: string)
    requires Contains(s, pattern)
    ensures |pattern| <= |s|
  {
    if !(pattern <= s) { ContainsIsLonger(s[1..], pattern); }
  }

  lemma {:induction false} ReplacingShrinksTwice(s: string, name: string)
    requires |name| < |WATCHER_FILE| && Contains(s, WATCHER_FILE)
    ensures |Replace(s + WATCHER_FILE, WATCHER_FILE, name)| < |s| + |name|
  {
    var t := s + WATCHER_FILE;
    ContainsIsLonger(s, WATCHER_FILE);
    assert t[..|WATCHER_FILE|] == s[..|WATCHER_FILE|];
    if WATCHER_FILE <= s {
      var rest := s[|WATCHER_FILE|..] + WATCHER_FILE;
      assert t[|WATCHER_FILE|..] == rest;
      assert rest[|s| - |WATCHER_FILE|..] == WATCHER_FILE;
      ContainsAt(rest, |s| - |WATCHER_FILE|, WATCHER_FILE);
      ReplacingShrinks(rest, name);
    } else {
      assert t[1..] == s[1..] + WATCHER_FILE;
      ReplacingShrinksTwice(s[1..], name);
    }
  }

  /** If pieces of a file placeholder and the path between them contain a whole one, the second pass
      replaces a placeholder that was not in the text. */
  lemma {:induction false} ForgedPlaceholder(path: string, a: nat, b: nat, name: string)
    requires a < |WATCHER_FILE| && 1 <= b <= |WATCHER_FILE| && |name| < |WATCHER_FILE|
    requires Contains(Surrounded(path, a, b), WATCHER_FILE)
    ensures ComputeOutput(Probe(a, b), path, name) != Expanded(Probe(a, b), path, name)
  {
    var text, end := Probe(a, b), WATCHER_FILE[b..];
    ProbeFirstPass(path, a, b);
    ProbeExpands(path, a, b, name);
    assert text[a..] == WATCHER_PATH + (end + WATCHER_FILE);
    ContainsAt(text, a, WATCHER_PATH);
    assert text[|text| - |WATCHER_FILE|..] == WATCHER_FILE;
    ContainsAt(text, |text| - |WATCHER_FILE|, WATCHER_FILE);
    ReplacingShrinksTwice(Surrounded(path, a, b), name);
  }

  lemma {:induction false} ContainedPath(path: string)
    requires Contains(path, WATCHER_FILE)
    ensures Contains(Surrounded(path, 0, |WATCHER_FILE|), WATCHER_FILE)
  {
    assert WATCHER_FILE[..0] + (path + WATCHER_FILE[|WATCHER_FILE|..]) == path;
  }

  lemma {:induction false} PathBeginsPlaceholder(path: string, k: nat)
    requires 1 <= k < |WATCHER_FILE| && EndsInside(path, k)
    ensures Contains(Surrounded(path, 0, k), WATCHER_FILE)
  {
    var s, n := Surrounded(path, 0, k), |path| - k;
    assert s == path + WATCHER_FILE[k..];
    assert path == path[..n] + path[n..];
    assert s[n..] == WATCHER_FILE[..k] + WATCHER_FILE[k..] == WATCHER_FILE;
    ContainsAt(s, n, WATCHER_FILE);
  }

  lemma {:induction false} PathEndsPlaceholder(path: string, k: nat)
    requires 1 <= k < |WATCHER_FILE| && WATCHER_FILE[k..] <= path
    ensures Contains(Surrounded(path, k, |WATCHER_FILE|), WATCHER_FILE)
  {
    var s, n := Surrounded(path, k, |WATCHER_FILE|), |WATCHER_FILE|;
    assert path == WATCHER_FILE[k..] + path[n - k..];
    assert s == WATCHER_FILE[..k] + path;
    Regroup(WATCHER_FILE[..k], [], WATCHER_FILE[k..], path[n - k..]);
    assert WATCHER_FILE[..k] + WATCHER_FILE[k..] == WATCHER_FILE;
    assert s == WATCHER_FILE + path[n - k..];
    assert WATCHER_FILE <= s;
  }

  lemma {:induction false} PathIsMiddle(a: nat, b: nat)
    requires 1 <= a <= b < |WATCHER_FILE|
    ensures Contains(Surrounded(WATCHER_FILE[a..b], a, b), WATCHER_FILE)
  {
    assert WATCHER_FILE[..a] + (WATCHER_FILE[a..b] + WATCHER_FILE[b..]) == WATCHER_FILE;
  }

  /** A path that is not safe completes a placeholder between some pieces of one. */
  lemma {:induction false} UnsafeIsForged(path: string) returns (a: nat, b: nat)
    requires !Safe(path)
    ensures a < |WATCHER_FILE| && 1 <= b <= |WATCHER_FILE|
    ensures Contains(Surrounded(path, a, b), WATCHER_FILE)
  {
    if Contains(path, WATCHER_FILE) {
      a, b := 0, |WATCHER_FILE|;
      ContainedPath(path);
    } else if k :| 1 <= k < |WATCHER_FILE| && EndsInside(path, k) {
      a, b := 0, k;
      PathBeginsPlaceholder(path, k);
    } else if k :| 1 <= k < |WATCHER_FILE| && WATCHER_FILE[k..] <= path {
      a, b := k, |WATCHER_FILE|;
      PathEndsPlaceholder(path, k);
    } else {
      a, b :| 1 <= a <= b < |WATCHER_FILE| && path == WATCHER_FILE[a..b];
      PathIsMiddle(a, b);
    }
  }

  /** The exact condition on a watcher's path: the guarded passes are the simultaneous expansion for
      every text and file name if and only if the path is safe. */
  lemma {:induction false} SafeIsExact(path: string)
    ensures Safe(path) <==>
            forall output, fileName :: ComputeOutput(output, path, fileName) == Expanded(output, path, fileName)
  {
    if Safe(path) {
      forall output, fileName
        ensures ComputeOutput(output, path, fileName) == Expanded(output, path, fileName)
      {
        OutputIsSimultaneous(output, path, fileName);
      }
    } else {
      var a, b := UnsafeIsForged(path);
      ForgedPlaceholder(path, a, b, "");
    }
  }

  /** An instance: the path "/@WATCHER_FIL" and a text that continues it with "E". */
  lemma {:induction false} AtSignInPathCanForgePlaceholder()
    ensures var path, text := "/" + WATCHER_FILE[..12], WATCHER_PATH + ("E" + WATCHER_FILE);
            !Safe(path) && ComputeOutput(text, path, "x") != Expanded(text, path, "x")
  {
    var path := "/" + WATCHER_FILE[..12];
    assert path[|path| - 12..] == WATCHER_FILE[..12] && EndsInside(path, 12);
    assert WATCHER_FILE[12..] == "E" && WATCHER_FILE == WATCHER_FILE[..12] + WATCHER_FILE[12..];
    assert Surrounded(path, 0, 12)[1..] == WATCHER_FILE;
    ContainsAt(Surrounded(path, 0, 12), 1, WATCHER_FILE);
    ForgedPlaceholder(path, 0, 12, "x");
    assert Probe(0, 12) == WATCHER_PATH + ("E" + WATCHER_FILE);
  }
}
