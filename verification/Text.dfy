/** Plain meaning of the libwired string calls the bot uses: search, split, join. */
module Text {

  datatype Option<+T> = None | Some(value: T)

  /** The first index holding `c`. */
  function IndexOf(s: string, c: char): (r: Option<nat>)
    ensures r.None? <==> c !in s
    ensures r.Some? ==> r.value < |s| && s[r.value] == c && forall k :: 0 <= k < r.value ==> s[k] != c
  {
    if s == [] then None
    else if s[0] == c then Some(0)
    else
      var r := IndexOf(s[1..], c);
      if r.None? then None else Some(r.value + 1)
  }

  /** The last index holding `c`. */
  function LastIndexOf(s: string, c: char): (r: Option<nat>)
    ensures r.None? <==> c !in s
    ensures r.Some? ==> r.value < |s| && s[r.value] == c && c !in s[r.value + 1..]
  {
    if s == [] then None
    else
      var rest := LastIndexOf(s[1..], c);
      if rest.Some? then
        assert s[rest.value + 2..] == s[1..][rest.value + 1..];
        Some(rest.value + 1)
      else if s[0] == c then Some(0) else None
  }

  /** Components between separators; empty components are kept. */
  function Split(s: string, sep: char): (parts: seq<string>)
    ensures |parts| > 0
    ensures forall p :: p in parts ==> sep !in p
  {
    if s == [] then [""]
    else
      var rest := Split(s[1..], sep);
      if s[0] == sep then [""] + rest else [[s[0]] + rest[0]] + rest[1..]
  }

  function Join(parts: seq<string>, sep: char): string {
    if parts == [] then ""
    else if |parts| == 1 then parts[0]
    else parts[0] + [sep] + Join(parts[1..], sep)
  }

  lemma {:induction false} JoinSplit(s: string, sep: char)
    ensures Join(Split(s, sep), sep) == s
  {
    if s != [] {
      JoinSplit(s[1..], sep);
      var rest := Split(s[1..], sep);
      if s[0] == sep {
        assert Split(s, sep)[1..] == rest;
        assert s == [sep] + s[1..];
      } else {
        assert Split(s, sep)[1..] == rest[1..];
        assert s == [s[0]] + s[1..];
      }
    }
  }

  lemma {:induction false} SplitJoin(parts: seq<string>, sep: char)
    requires |parts| > 0 && forall p :: p in parts ==> sep !in p
    ensures Split(Join(parts, sep), sep) == parts
  {
    if |parts| == 1 {
      SplitWord(parts[0], "", sep);
      assert Join(parts, sep) == parts[0] == parts[0] + "";
      assert Split("", sep) == [""] && [""][1..] == [];
      assert parts == [parts[0]];
    } else {
      SplitJoin(parts[1..], sep);
      var tail := [sep] + Join(parts[1..], sep);
      assert tail[1..] == Join(parts[1..], sep);
      assert Split(tail, sep) == [""] + parts[1..];
      SplitWord(parts[0], tail, sep);
      assert parts[0] + tail == Join(parts, sep);
      assert parts[0] + "" == parts[0] && ([""] + parts[1..])[1..] == parts[1..];
      assert [parts[0]] + parts[1..] == parts;
    }
  }

  /** A separator-free word in front only lengthens the first component. */
  lemma {:induction false} SplitWord(word: string, tail: string, sep: char)
    requires sep !in word
    ensures Split(word + tail, sep) == [word + Split(tail, sep)[0]] + Split(tail, sep)[1..]
  {
    var parts := Split(tail, sep);
    if word == [] {
      assert word + tail == tail;
      assert word + parts[0] == parts[0];
    } else {
      SplitWord(word[1..], tail, sep);
      assert (word + tail)[1..] == word[1..] + tail;
      assert [word[0]] + (word[1..] + parts[0]) == word + parts[0];
    }
  }

  lemma {:induction false} JoinConcat(a: seq<string>, b: seq<string>, sep: char)
    requires a != [] && b != []
    ensures Join(a + b, sep) == Join(a, sep) + [sep] + Join(b, sep)
  {
    if |a| == 1 {
      assert (a + b)[0] == a[0] && (a + b)[1..] == b;
    } else {
      JoinConcat(a[1..], b, sep);
      assert (a + b)[0] == a[0] && (a + b)[1..] == a[1..] + b;
      assert a[0] + [sep] + (Join(a[1..], sep) + [sep] + Join(b, sep)) ==
             a[0] + [sep] + Join(a[1..], sep) + [sep] + Join(b, sep);
    }
  }

  /** The component after the last slash. */
  function LastComponent(path: string): string {
    var parts := Split(path, '/');
    parts[|parts| - 1]
  }
}
