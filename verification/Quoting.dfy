/** The file name quoting of the readline front end (wirebot/terminal.c): the printer, the
    parser and the position classifier that readline is given, over C strings. */
module Quoting {
  import opened Sequences

  const NUL: char := '\0'
  const BACKSLASH: char := '\\'

  /** The characters of a C string, up to its terminator. */
  type CString = s: string | NUL !in s witness ""

  /** The character a C pointer into `s` reads; the terminator is readable. */
  function CharAt(s: CString, k: nat): char
    requires k <= |s|
  {
    if k < |s| then s[k] else NUL
  }

  predicate IsSpace(c: char) {
    c == ' ' || 9 as char <= c <= 13 as char
  }

  predicate NeedsQuote(c: char) {
    IsSpace(c) || c == '\"' || c == '\''
  }

  // ----- The printer and the parser as functions

  function Quoted(s: string): string {
    if s == [] then []
    else (if NeedsQuote(s[0]) then [BACKSLASH, s[0]] else [s[0]]) + Quoted(s[1..])
  }

  function Dequoted(s: string): string {
    if s == [] then []
    else if s[0] != BACKSLASH then [s[0]] + Dequoted(s[1..])
    else if |s| == 1 then []
    else [s[1]] + Dequoted(s[2..])
  }

  /** What the left-to-right parse makes of each character. */
  datatype Role = Plain | Escape | Escaped

  function Roles(s: string): (r: seq<Role>)
    ensures |r| == |s|
  {
    if s == [] then []
    else if s[0] != BACKSLASH then [Plain] + Roles(s[1..])
    else if |s| == 1 then [Escape]
    else [Escape, Escaped] + Roles(s[2..])
  }

  /** The roles quoting means its output to have: every inserted backslash escapes the
      character it was inserted for, and nothing else is special. */
  function InsertedRoles(s: string): seq<Role> {
    if s == [] then []
    else (if NeedsQuote(s[0]) then [Escape, Escaped] else [Plain]) + InsertedRoles(s[1..])
  }

  /** The characters that quoting escapes: the six that C calls white space, and the two quotes. */
  lemma {:induction false} EscapedCharacters(c: char)
    ensures c in [' ', '\t', '\n', 11 as char, 12 as char, '\r', '\"', '\''] ==> Quoted([c]) == [BACKSLASH, c]
    ensures c !in [' ', '\t', '\n', 11 as char, 12 as char, '\r', '\"', '\''] ==> Quoted([c]) == [c]
  {
    assert [c][1..] == [] && Quoted([]) == [];
    assert [BACKSLASH, c] + [] == [BACKSLASH, c] && [c] + [] == [c];
  }

  // ----- A parse-free reading: counting backslashes

  /** How many backslashes stand immediately before position `k`. */
  function RunBefore(s: string, k: nat): nat
    requires k <= |s|
  {
    if k == 0 || s[k - 1] != BACKSLASH then 0 else 1 + RunBefore(s, k - 1)
  }

  /** The text ends in the middle of an escape. */
  predicate Dangling(s: string) {
    RunBefore(s, |s|) % 2 == 1
  }

  predicate QuotedAt(s: CString, k: nat)
    requires k <= |s|
  {
    CharAt(s, k) == BACKSLASH || RunBefore(s, k) % 2 == 1
  }

  lemma {:induction false} RunBeforeShift(s: string, n: nat, k: nat)
    requires n <= k <= |s|
    ensures RunBefore(s[n..], k - n) <= k - n
    ensures RunBefore(s, k) ==
            RunBefore(s[n..], k - n) + (if RunBefore(s[n..], k - n) == k - n then RunBefore(s, n) else 0)
  {
    if n < k {
      RunBeforeShift(s, n, k - 1);
      assert s[n..][k - 1 - n] == s[k - 1];
    }
  }

  /** The parse is decided by the parity of the run of backslashes before a position. */
  lemma {:induction false} RolesByParity(s: string, k: nat)
    requires k < |s|
    ensures Roles(s)[k] == Escape <==> s[k] == BACKSLASH && RunBefore(s, k) % 2 == 0
    ensures Roles(s)[k] == Escaped <==> RunBefore(s, k) % 2 == 1
    decreases |s|
  {
    if s[0] != BACKSLASH {
      if k > 0 {
        RolesByParity(s[1..], k - 1);
        RunBeforeShift(s, 1, k);
      }
    } else if k >= 2 {
      RolesByParity(s[2..], k - 2);
      RunBeforeShift(s, 2, k);
      assert RunBefore(s, 1) == 1;
      assert RunBefore(s, 2) == if s[1] == BACKSLASH then 2 else 0;
    } else if k == 1 {
      assert RunBefore(s, 1) == 1;
    }
  }

  /** The parse ends inside an escape exactly when the trailing run of backslashes is odd. */
  lemma {:induction false} DanglingIsLastRole(s: string)
    ensures Dangling(s) <==> s != [] && Roles(s)[|s| - 1] == Escape
  {
    if s != [] {
      var k := |s| - 1;
      RolesByParity(s, k);
      assert RunBefore(s, |s|) == if s[k] == BACKSLASH then 1 + RunBefore(s, k) else 0;
    }
  }

  /** Dequoting keeps exactly the characters that are not escaping backslashes. */
  function NonEscapes(s: string, roles: seq<Role>): string
    requires |s| == |roles|
  {
    if s == [] then []
    else (if roles[0] == Escape then [] else [s[0]]) + NonEscapes(s[1..], roles[1..])
  }

  lemma {:induction false} DequotedDropsEscapes(s: string)
    ensures Dequoted(s) == NonEscapes(s, Roles(s))
    decreases |s|
  {
    if s != [] {
      if s[0] != BACKSLASH {
        DequotedDropsEscapes(s[1..]);
        assert Roles(s)[1..] == Roles(s[1..]);
      } else if |s| > 1 {
        DequotedDropsEscapes(s[2..]);
        assert Roles(s)[1..][1..] == Roles(s[2..]);
        assert s[1..][1..] == s[2..];
      }
    }
  }

  // ----- Round trip

  /** Every backslash of the name is immediately followed by a character quoting escapes. */
  predicate BackslashesBeforeQuotable(s: string) {
    forall k :: 0 <= k < |s| && s[k] == BACKSLASH ==> k + 1 < |s| && NeedsQuote(s[k + 1])
  }

  /** Dequoting a quoted text that begins with a backslash: it and the character after it, or the
      backslash quoting inserted there, come to one character. */
  lemma {:induction false} BackslashFirst(s: string)
    requires |s| > 1 && s[0] == BACKSLASH
    ensures Quoted(s)[0] == BACKSLASH && |Quoted(s)| > 1
    ensures Quoted(s)[2..] == if NeedsQuote(s[1]) then [s[1]] + Quoted(s[2..]) else Quoted(s[2..])
  {
    var q1, q2 := Quoted(s[1..]), Quoted(s[2..]);
    assert s[1..][1..] == s[2..];
    assert Quoted(s) == [BACKSLASH] + q1;
    if NeedsQuote(s[1]) {
      assert q1 == [BACKSLASH, s[1]] + q2 && Quoted(s)[2..] == q1[1..] == [s[1]] + q2;
    } else {
      assert q1 == [s[1]] + q2 && Quoted(s)[2..] == q1[1..] == q2;
    }
  }

  lemma {:induction false} DequotedBackslash(s: string)
    requires |s| > 1 && s[0] == BACKSLASH && |Dequoted(Quoted(s[2..]))| <= |s| - 2
    ensures |Dequoted(Quoted(s))| <= |s|
  {
    var rest := Quoted(s)[2..];
    BackslashFirst(s);
    assert |Dequoted(Quoted(s))| == 1 + |Dequoted(rest)|;
    if NeedsQuote(s[1]) {
      assert rest[1..] == Quoted(s[2..]);
    }
  }

  lemma {:induction false} DequotedQuotedNoLonger(s: string)
    ensures |Dequoted(Quoted(s))| <= |s|
    decreases |s|
  {
    if s != [] {
      var q := Quoted(s[1..]);
      if s[0] != BACKSLASH {
        DequotedQuotedNoLonger(s[1..]);
        assert Quoted(s)[if NeedsQuote(s[0]) then 2 else 1..] == q;
      } else if |s| > 1 {
        DequotedQuotedNoLonger(s[2..]);
        DequotedBackslash(s);
      } else {
        assert Quoted(s) == [BACKSLASH] + q && q == [];
      }
    }
  }

  /** Quoting and dequoting succeeds and gives the name back. */
  predicate RoundTrips(s: string) {
    !Dangling(Quoted(s)) && Dequoted(Quoted(s)) == s
  }

  lemma {:induction false} RoundTripsPlain(s: string)
    requires s != [] && s[0] != BACKSLASH
    ensures RoundTrips(s) <==> RoundTrips(s[1..])
  {
    var q, q1 := Quoted(s), Quoted(s[1..]);
    var n := |q| - |q1|;
    assert q[n..] == q1;
    assert RunBefore(q, n) == 0;
    DanglingTail(q, n);
    assert n == 2 ==> Dequoted(q) == [q[1]] + Dequoted(q[2..]);
    assert Dequoted(q) == [s[0]] + Dequoted(q1);
    assert Dequoted(q)[1..] == Dequoted(q1);
    assert s == [s[0]] + s[1..];
  }

  lemma {:induction false} RoundTripsEscapedBackslash(s: string)
    requires |s| > 1 && s[0] == BACKSLASH && NeedsQuote(s[1])
    ensures RoundTrips(s) <==> RoundTrips(s[2..])
  {
    assert s[1..][1..] == s[2..];
    var q, q1, q2 := Quoted(s), Quoted(s[1..]), Quoted(s[2..]);
    assert q1 == [BACKSLASH, s[1]] + q2;
    assert q == [BACKSLASH] + q1;
    assert q[2..] == [s[1]] + q2;
    assert q[2..][1..] == q2;
    assert q[3..] == q2;
    assert RunBefore(q, 3) == 0;
    DanglingTail(q, 3);
    assert Dequoted(q) == [BACKSLASH] + Dequoted(q[2..]);
    assert Dequoted(q[2..]) == [s[1]] + Dequoted(q2);
    assert Dequoted(q)[2..] == Dequoted(q2);
    assert s == [BACKSLASH, s[1]] + s[2..];
  }

  lemma {:induction false} RoundTripsLoneBackslash(s: string)
    requires s != [] && s[0] == BACKSLASH && (|s| > 1 ==> !NeedsQuote(s[1]))
    ensures !RoundTrips(s)
  {
    var q := Quoted(s);
    if |s| == 1 {
      assert q == [BACKSLASH];
      assert RunBefore(q, 1) == 1 + RunBefore(q, 0);
    } else {
      assert s[1..][1..] == s[2..];
      var q1, q2 := Quoted(s[1..]), Quoted(s[2..]);
      assert q1 == [s[1]] + q2;
      assert q == [BACKSLASH] + q1;
      assert q[2..] == q2;
      DequotedQuotedNoLonger(s[2..]);
      assert |Dequoted(q)| < |s|;
    }
  }

  /** Dequoting undoes quoting exactly when every backslash of the name stands directly before
      a space or quote; in particular for every name without a backslash. */
  lemma {:induction false} DequoteUndoesQuote(s: string)
    ensures RoundTrips(s) <==> BackslashesBeforeQuotable(s)
    ensures BACKSLASH !in s ==> RoundTrips(s)
    decreases |s|
  {
    if s != [] {
      if s[0] != BACKSLASH {
        DequoteUndoesQuote(s[1..]);
        RoundTripsPlain(s);
        SkipFirst(s);
      } else if |s| > 1 && NeedsQuote(s[1]) {
        DequoteUndoesQuote(s[2..]);
        RoundTripsEscapedBackslash(s);
        SkipFirst(s[1..]);
        assert s[1..][1..] == s[2..];
        SkipEscapedBackslash(s);
      } else {
        RoundTripsLoneBackslash(s);
        assert !BackslashesBeforeQuotable(s) by { assert s[0] == BACKSLASH; }
      }
    }
  }

  lemma {:induction false} SkipEscapedBackslash(s: string)
    requires |s| > 1 && s[0] == BACKSLASH && NeedsQuote(s[1])
    ensures BackslashesBeforeQuotable(s) <==> BackslashesBeforeQuotable(s[1..])
  {
    var t := s[1..];
    assert forall k {:trigger t[k]} :: 0 <= k < |t| ==> t[k] == s[k + 1];
    if BackslashesBeforeQuotable(t) {
      forall k | 0 <= k < |s| && s[k] == BACKSLASH
        ensures k + 1 < |s| && NeedsQuote(s[k + 1])
      {
        if k > 0 { assert t[k - 1] == BACKSLASH; }
      }
    }
  }

  lemma {:induction false} SkipFirst(s: string)
    requires s != [] && s[0] != BACKSLASH
    ensures BackslashesBeforeQuotable(s) <==> BackslashesBeforeQuotable(s[1..])
  {
    var t := s[1..];
    assert forall k {:trigger t[k]} :: 0 <= k < |t| ==> t[k] == s[k + 1];
    if BackslashesBeforeQuotable(t) {
      forall k | 0 <= k < |s| && s[k] == BACKSLASH
        ensures k + 1 < |s| && NeedsQuote(s[k + 1])
      {
        assert t[k - 1] == BACKSLASH;
      }
    }
  }

  /** Dropping a first part that ends outside an escape does not change whether the rest dangles. */
  lemma {:induction false} DanglingTail(s: string, n: nat)
    requires n <= |s| && RunBefore(s, n) % 2 == 0
    ensures Dangling(s) <==> Dangling(s[n..])
  {
    RunBeforeShift(s, n, |s|);
  }

  /** In a quoted backslash-free name the parse finds exactly the inserted backslashes and the
      characters they were inserted for. */
  lemma {:induction false} QuotedRoles(s: string)
    requires BACKSLASH !in s
    ensures Roles(Quoted(s)) == InsertedRoles(s)
  {
    if s != [] {
      QuotedRoles(s[1..]);
      if NeedsQuote(s[0]) {
        assert Quoted(s)[2..] == Quoted(s[1..]);
      } else {
        assert Quoted(s)[1..] == Quoted(s[1..]);
      }
    }
  }

  /** Quoting protects: in a quoted backslash-free name every space and quote is escaped. */
  lemma {:induction false} QuotedLeavesNothingBare(s: string, k: nat)
    requires BACKSLASH !in s && k < |Quoted(s)|
    ensures NeedsQuote(Quoted(s)[k]) ==> Roles(Quoted(s))[k] == Escaped
  {
    if NeedsQuote(s[0]) {
      assert Quoted(s)[2..] == Quoted(s[1..]);
      if k >= 2 { QuotedLeavesNothingBare(s[1..], k - 2); }
    } else {
      assert Quoted(s)[1..] == Quoted(s[1..]);
      if k >= 1 { QuotedLeavesNothingBare(s[1..], k - 1); }
    }
  }

  lemma {:induction false} QuotedAtMostDoubles(s: string)
    ensures |Quoted(s)| <= 2 * |s|
  {
    if s != [] { QuotedAtMostDoubles(s[1..]); }
  }

  lemma {:induction false} QuotedConcat(a: string, b: string)
    ensures Quoted(a + b) == Quoted(a) + Quoted(b)
  {
    if a == [] {
      assert a + b == b;
    } else {
      assert (a + b)[0] == a[0] && (a + b)[1..] == a[1..] + b;
      QuotedConcat(a[1..], b);
      Associate(if NeedsQuote(a[0]) then [BACKSLASH, a[0]] else [a[0]], Quoted(a[1..]), Quoted(b));
    }
  }

  lemma {:induction false} QuotedSize(s: string, k: nat)
    requires k <= |s|
    ensures |Quoted(s)| <= 2 * |s|
    ensures |Quoted(s[..k])| + |Quoted(s[k..])| == |Quoted(s)|
    ensures Quoted(s) == Quoted(s[..k]) + Quoted(s[k..])
  {
    QuotedAtMostDoubles(s);
    QuotedConcat(s[..k], s[k..]);
    assert s == s[..k] + s[k..];
  }

  lemma {:induction false} QuotedIsCString(s: CString)
    ensures NUL !in Quoted(s)
  {
    if s != [] { QuotedIsCString(s[1..]); }
  }

  // ----- The C loops

  /** Fills a fresh buffer of 2 * length + 1 bytes; the loop is never cut short by the buffer. */
  method QuoteFilename(text: CString) returns (value: array<char>, length: nat)
    ensures fresh(value) && value.Length == 2 * |text| + 1
    ensures length < value.Length
    ensures value[..length] == Quoted(text) && value[length] == NUL
  {
    var bytes := |text| * 2 + 1;
    value := new char[bytes];
    var p, i := 0, 0;
    while CharAt(text, p) != NUL && i < bytes
      invariant p <= |text| && i <= 2 * p
      invariant value[..i] == Quoted(text[..p])
      decreases |text| - p
    {
      QuotedStep(text, p);
      if NeedsQuote(text[p]) {
        value[i] := BACKSLASH;
        i := i + 1;
      }
      value[i] := text[p];
      p := p + 1;
      i := i + 1;
    }
    assert text[..p] == text;
    value[i] := NUL;
    length := i;
  }

  lemma {:induction false} QuotedStep(s: string, p: nat)
    requires p < |s|
    ensures Quoted(s[..p + 1]) == Quoted(s[..p]) + if NeedsQuote(s[p]) then [BACKSLASH, s[p]] else [s[p]]
  {
    QuotedSize(s[..p + 1], p);
    assert s[..p + 1][..p] == s[..p];
    var last := s[..p + 1][p..];
    assert last == [s[p]] && last[1..] == [];
    assert Quoted(last) == (if NeedsQuote(s[p]) then [BACKSLASH, s[p]] else [s[p]]) + Quoted(last[1..]);
  }

  /** One round of the parser, from a position outside an escape. */
  lemma {:induction false} DequotedStep(s: string, p: nat)
    requires p < |s| && RunBefore(s, p) % 2 == 0
    ensures s[p] != BACKSLASH ==>
              Dequoted(s[p..]) == [s[p]] + Dequoted(s[p + 1..]) && RunBefore(s, p + 1) == 0
    ensures s[p] == BACKSLASH && p + 1 < |s| ==>
              Dequoted(s[p..]) == [s[p + 1]] + Dequoted(s[p + 2..]) && RunBefore(s, p + 2) % 2 == 0
    ensures s[p] == BACKSLASH && p + 1 == |s| ==> Dangling(s)
  {
    var rest := s[p..];
    assert rest[1..] == s[p + 1..];
    if s[p] == BACKSLASH {
      assert RunBefore(s, p + 1) == 1 + RunBefore(s, p);
      if p + 1 < |s| {
        assert rest[2..] == s[p + 2..];
      }
    }
  }

  /** Reads `text` through a moving pointer. `overrun` reports that the pointer passed the
      terminator, which happens exactly on a dangling text. */
  method DequoteFilename(text: CString) returns (value: array<char>, length: nat, overrun: bool)
    ensures fresh(value) && value.Length == |text| + 1
    ensures overrun <==> Dangling(text)
    ensures !overrun ==> length < value.Length && value[length] == NUL && value[..length] == Dequoted(text)
  {
    var bytes := |text| + 1;
    value := new char[bytes];
    var p, i := 0, 0;
    ghost var written := "";
    assert text[0..] == text && "" + Dequoted(text) == Dequoted(text);
    while CharAt(text, p) != NUL && i < bytes
      invariant i <= p <= |text|
      invariant RunBefore(text, p) % 2 == 0
      invariant value[..i] == written && written + Dequoted(text[p..]) == Dequoted(text)
      decreases |text| - p
    {
      DequotedStep(text, p);
      if text[p] == BACKSLASH {
        p := p + 1;
      }
      value[i] := CharAt(text, p);
      i := i + 1;
      if p == |text| {
        return value, i, true;
      }
      p := p + 1;
      Associate(written, [text[p - 1]], Dequoted(text[p..]));
      written := written + [text[p - 1]];
    }
    assert text[p..] == [] && written + [] == written;
    value[i] := NUL;
    length, overrun := i, false;
  }

  /** Readline's position classifier. */
  method CharIsQuoted(text: CString, index: int) returns (r: int)
    requires index <= |text|
    ensures r == if index >= 0 && QuotedAt(text, index) then 1 else 0
    ensures 0 <= index < |text| ==> (r == 1 <==> Roles(text)[index] != Plain)
    ensures index == |text| ==> (r == 1 <==> Dangling(text))
  {
    if 0 <= index < |text| {
      RolesByParity(text, index);
    }
    var i := 0;
    while i <= index
      invariant i <= |text| + 1 && (index >= 0 ==> i <= index + 1)
      invariant i <= index ==> RunBefore(text, i) % 2 == 0
      invariant 0 <= index < i ==> !QuotedAt(text, index)
    {
      if CharAt(text, i) == BACKSLASH {
        i := i + 1;
        assert RunBefore(text, i) % 2 == 1;
        if i >= index {
          return 1;
        }
      }
      i := i + 1;
    }
    return 0;
  }
}
