/** The command line of the client (wirebot/commands.c): table lookup, splitting and routing. */
module Commands {
  import opened CommandLines
  import opened CommandTable
  import opened Text

  function Lower(c: char): char {
    if 'A' <= c <= 'Z' then c + 32 as char else c
  }

  /** `strncasecmp(word, name, length of word) == 0` on C strings. */
  predicate HasPrefixIgnoringCase(name: string, word: string) {
    word == [] || (name != [] && Lower(word[0]) == Lower(name[0]) && HasPrefixIgnoringCase(name[1..], word[1..]))
  }

  lemma {:induction false} PrefixIsPointwise(name: string, word: string)
    ensures HasPrefixIgnoringCase(name, word) <==>
            |word| <= |name| && forall k :: 0 <= k < |word| ==> Lower(word[k]) == Lower(name[k])
  {
    if word != [] && name != [] && Lower(word[0]) == Lower(name[0]) {
      PrefixIsPointwise(name[1..], word[1..]);
      assert forall k :: 0 < k < |word| ==> word[k] == word[1..][k - 1];
      assert forall k :: 0 < k < |name| ==> name[k] == name[1..][k - 1];
      assert forall k :: 0 <= k < |word| - 1 ==> word[1..][k] == word[k + 1];
      assert forall k :: 0 <= k < |name| - 1 ==> name[1..][k] == name[k + 1];
    }
  }

  /** Capital letters count as small ones, and only they do. */
  lemma {:induction false} CaseIsIgnored(c: char, d: char)
    ensures HasPrefixIgnoringCase([c], [d]) <==>
            || c == d
            || ('A' <= c <= 'Z' && d as int == c as int + 32)
            || ('A' <= d <= 'Z' && c as int == d as int + 32)
  {
    assert [c][1..] == [] && [d][1..] == [] && HasPrefixIgnoringCase([], []);
  }

  /** The first index from `from` on whose table name begins with the typed word. */
  function IndexIn(table: seq<Entry>, word: string, from: nat): (r: Option<nat>)
    requires from <= |table|
    ensures r.None? ==> forall k :: from <= k < |table| ==> !HasPrefixIgnoringCase(table[k].name, word)
    ensures r.Some? ==> from <= r.value < |table| && HasPrefixIgnoringCase(table[r.value].name, word)
                        && forall k :: from <= k < r.value ==> !HasPrefixIgnoringCase(table[k].name, word)
    decreases |table| - from
  {
    if from == |table| then None
    else if HasPrefixIgnoringCase(table[from].name, word) then Some(from)
    else IndexIn(table, word, from + 1)
  }

  method IndexForCommand(table: seq<Entry>, word: string) returns (index: Option<nat>)
    ensures index == IndexIn(table, word, 0)
  {
    var max := |table|;
    for i := 0 to max
      invariant IndexIn(table, word, 0) == IndexIn(table, word, i)
    {
      if HasPrefixIgnoringCase(table[i].name, word) {
        return Some(i);
      }
    }
    return None;
  }

  // ----- No name of the table is shadowed by an earlier one

  /** Strict alphabetical order, ignoring case. */
  predicate Before(a: string, b: string) {
    b != [] && (a == [] || Lower(a[0]) < Lower(b[0]) || (Lower(a[0]) == Lower(b[0]) && Before(a[1..], b[1..])))
  }

  lemma {:induction false} BeforeIsTransitive(a: string, b: string, c: string)
    requires Before(a, b) && Before(b, c)
    ensures Before(a, c)
  {
    if a != [] && Lower(a[0]) == Lower(b[0]) == Lower(c[0]) {
      BeforeIsTransitive(a[1..], b[1..], c[1..]);
    }
  }

  lemma {:induction false} SmallerIsNotLonger(a: string, b: string)
    requires Before(a, b)
    ensures !HasPrefixIgnoringCase(a, b)
  {
    if a != [] && Lower(a[0]) == Lower(b[0]) {
      SmallerIsNotLonger(a[1..], b[1..]);
    }
  }

  /** Every extension of `word` stays before a larger name that does not extend it. */
  lemma {:induction false} ExtensionsStayBefore(word: string, longer: string, b: string)
    requires HasPrefixIgnoringCase(longer, word) && Before(word, b) && !HasPrefixIgnoringCase(b, word)
    ensures Before(longer, b)
  {
    if Lower(word[0]) == Lower(b[0]) {
      ExtensionsStayBefore(word[1..], longer[1..], b[1..]);
    }
  }

  // The table is alphabetical from "broadcast" to "whois"; the five names after it form a
  // second alphabetical block.
  const WHOIS: nat := 34

  // Neighbours of the two blocks.

  lemma {:induction false} BroadcastToConnect()
    ensures Before("broadcast", "charset") && Before("charset", "clear")
    ensures Before("clear", "close") && Before("close", "connect")
  {
  }

  lemma {:induction false} ConnectToHelp()
    ensures Before("connect", "disconnect") && Before("disconnect", "echo")
    ensures Before("echo", "exit") && Before("exit", "help")
  {
  }

  lemma {:induction false} HelpToIgnore()
    ensures Before("help", "icon") && Before("icon", "ignore")
  {
  }

  lemma {:induction false} IgnoreToIgnores()
    ensures Before("ignore", "ignores")
  {
  }

  lemma {:induction false} IgnoresToJoin()
    ensures Before("ignores", "info") && Before("info", "invite")
    ensures Before("invite", "join")
  {
  }

  lemma {:induction false} JoinToMe()
    ensures Before("join", "load") && Before("load", "log")
    ensures Before("log", "me")
  {
  }

  lemma {:induction false} MeToPrivchat()
    ensures Before("me", "msg") && Before("msg", "nick")
    ensures Before("nick", "open") && Before("open", "privchat")
  {
  }

  lemma {:induction false} PrivchatToServer()
    ensures Before("privchat", "quit") && Before("quit", "save")
    ensures Before("save", "say") && Before("say", "server")
  {
  }

  lemma {:induction false} ServerToServerinfo()
    ensures Before("server", "serverinfo")
  {
  }

  lemma {:induction false} ServerinfoToUnignore()
    ensures Before("serverinfo", "status") && Before("status", "timestamp")
    ensures Before("timestamp", "topic") && Before("topic", "unignore")
  {
  }

  lemma {:induction false} UnignoreToWhois()
    ensures Before("unignore", "uptime") && Before("uptime", "version")
    ensures Before("version", "who") && Before("who", "whois")
  {
  }

  lemma {:induction false} LsToUnsubscribe()
    ensures Before("ls", "mv") && Before("mv", "rm")
    ensures Before("rm", "subscribe") && Before("subscribe", "unsubscribe")
  {
  }

  lemma {:induction false} SortedToHelp()
    ensures forall i :: 0 <= i < 8 ==> Before(TABLE[i].name, TABLE[i + 1].name)
  {
    Names0(); Names4(); Names8();
    BroadcastToConnect(); ConnectToHelp();
  }

  lemma {:induction false} SortedToLog()
    ensures forall i :: 8 <= i < 16 ==> Before(TABLE[i].name, TABLE[i + 1].name)
  {
    Names8(); Names12(); Names16();
    HelpToIgnore(); IgnoreToIgnores(); IgnoresToJoin(); JoinToMe();
  }

  lemma {:induction false} SortedToSay()
    ensures forall i :: 16 <= i < 24 ==> Before(TABLE[i].name, TABLE[i + 1].name)
  {
    Names16(); Names20(); Names24();
    JoinToMe(); MeToPrivchat(); PrivchatToServer();
  }

  lemma {:induction false} SortedToVersion()
    ensures forall i :: 24 <= i < 32 ==> Before(TABLE[i].name, TABLE[i + 1].name)
  {
    Names24(); Names28(); Names32();
    PrivchatToServer(); ServerToServerinfo(); ServerinfoToUnignore(); UnignoreToWhois();
  }

  lemma {:induction false} SortedToUnsubscribe()
    ensures forall i :: 32 <= i < 39 && i != WHOIS ==> Before(TABLE[i].name, TABLE[i + 1].name)
  {
    Names32(); Names36();
    UnignoreToWhois(); LsToUnsubscribe();
  }

  predicate NextIsLater(table: seq<Entry>, i: nat)
    requires i + 1 < |table|
  {
    Before(table[i].name, table[i + 1].name)
  }

  predicate TwoSortedBlocks(table: seq<Entry>) {
    |table| > WHOIS && forall i :: 0 <= i < |table| - 1 && i != WHOIS ==> NextIsLater(table, i)
  }

  lemma {:induction false} TableIsTwoSortedBlocks()
    ensures TwoSortedBlocks(TABLE)
  {
    SortedToHelp(); SortedToLog(); SortedToSay(); SortedToVersion(); SortedToUnsubscribe();
  }

  lemma {:induction false} InOrder(table: seq<Entry>, j: nat, i: nat)
    requires TwoSortedBlocks(table)
    requires j < i < |table| && (i <= WHOIS || j > WHOIS)
    ensures Before(table[j].name, table[i].name)
    decreases i
  {
    assert NextIsLater(table, i - 1);
    if j < i - 1 {
      InOrder(table, j, i - 1);
      BeforeIsTransitive(table[j].name, table[i - 1].name, table[i].name);
    }
  }

  /** Where a name of the second block falls between two neighbours of the first. */
  predicate FallsBetween(word: string, lower: string, upper: string) {
    Before(lower, word) && Before(word, upper) && !HasPrefixIgnoringCase(upper, word)
  }

  lemma {:induction false} WordsThatFallBetween()
    ensures FallsBetween("ls", "log", "me") && FallsBetween("mv", "msg", "nick")
    ensures FallsBetween("rm", "quit", "save")
  {
  }

  lemma {:induction false} SubscribeFallsBetween()
    ensures FallsBetween("subscribe", "status", "timestamp")
  {
  }

  lemma {:induction false} UnsubscribeFallsBetween()
    ensures FallsBetween("unsubscribe", "unignore", "uptime")
  {
  }

  /** The row of the first block after which a name of the second block falls. */
  lemma {:induction false} SecondBlockFallsBetween(i: nat) returns (k: nat)
    requires WHOIS < i < |TABLE|
    ensures k < WHOIS && FallsBetween(TABLE[i].name, TABLE[k].name, TABLE[k + 1].name)
  {
    Names32(); Names36();
    WordsThatFallBetween(); SubscribeFallsBetween(); UnsubscribeFallsBetween();
    if i <= 36 {
      Names16();
      k := if i == 35 then 16 else 18;
    } else if i == 37 {
      Names20();
      k := 22;
    } else {
      Names24(); Names28();
      k := if i == 38 then 27 else 30;
    }
  }

  lemma {:induction false} BeforeIsIrreflexive(a: string)
    ensures !Before(a, a)
  {
    if a != [] { BeforeIsIrreflexive(a[1..]); }
  }

  /** A word strictly between two neighbours, the upper one not extending it, is a prefix of
      neither them nor anything outside them. */
  lemma {:induction false} NoPrefixAround(name: string, word: string, lower: string, upper: string)
    requires FallsBetween(word, lower, upper)
    requires name == lower || Before(name, lower) || name == upper || Before(upper, name)
    ensures !HasPrefixIgnoringCase(name, word)
  {
    if name == lower || Before(name, lower) {
      if name != lower { BeforeIsTransitive(name, lower, word); }
      SmallerIsNotLonger(name, word);
    } else if HasPrefixIgnoringCase(name, word) {
      ExtensionsStayBefore(word, name, upper);
      BeforeIsTransitive(name, upper, name);
      BeforeIsIrreflexive(name);
    }
  }

  /** No name is a prefix of an earlier name. */
  lemma {:induction false} NotShadowed(table: seq<Entry>, j: nat, i: nat, k: nat)
    requires TwoSortedBlocks(table) && j < i < |table| && k < WHOIS
    requires j <= WHOIS < i ==> FallsBetween(table[i].name, table[k].name, table[k + 1].name)
    ensures !HasPrefixIgnoringCase(table[j].name, table[i].name)
  {
    if i <= WHOIS || j > WHOIS {
      InOrder(table, j, i);
      SmallerIsNotLonger(table[j].name, table[i].name);
    } else {
      if j < k { InOrder(table, j, k); }
      if j > k + 1 { InOrder(table, k + 1, j); }
      NoPrefixAround(table[j].name, table[i].name, table[k].name, table[k + 1].name);
    }
  }

  lemma {:induction false} PrefixOfItself(name: string)
    ensures HasPrefixIgnoringCase(name, name)
  {
    if name != [] { PrefixOfItself(name[1..]); }
  }

  lemma {:induction false} FirstOfItsName(table: seq<Entry>, i: nat, k: nat)
    requires TwoSortedBlocks(table) && i < |table| && k < WHOIS
    requires i > WHOIS ==> FallsBetween(table[i].name, table[k].name, table[k + 1].name)
    ensures IndexIn(table, table[i].name, 0) == Some(i)
  {
    PrefixOfItself(table[i].name);
    forall j | 0 <= j < i
      ensures !HasPrefixIgnoringCase(table[j].name, table[i].name)
    {
      NotShadowed(table, j, i, k);
    }
  }

  /** Every table name typed in full finds its own row. */
  lemma {:induction false} EveryNameFindsItself(i: nat)
    requires i < |TABLE|
    ensures IndexIn(TABLE, TABLE[i].name, 0) == Some(i)
  {
    TableIsTwoSortedBlocks();
    if i <= WHOIS {
      FirstOfItsName(TABLE, i, 0);
    } else {
      var k := SecondBlockFallsBetween(i);
      FirstOfItsName(TABLE, i, k);
    }
  }

  // ----- Routing a line

  datatype Outcome =
    | NotRecognized(word: string)
    | NotConnected(word: string)
    | UsageShown(word: string)
    | Ran(index: nat, arguments: string, values: seq<string>)

  /** libwired's argument splitter: argument text and index of the free-text argument. */
  type ArgumentParser = (string, int) -> seq<string>

  function Buffered(buffer: string, chat: bool, connected: bool): string {
    if chat && !("/" <= buffer) then (if connected then "say " else "echo ") + buffer else buffer
  }

  /** What row `index` does with an argument text. */
  function Routed(index: nat, word: string, arguments: string, connected: bool, parse: ArgumentParser): Outcome
    requires index < |TABLE|
  {
    var entry := TABLE[index];
    var values := parse(arguments, entry.optindex);
    if entry.connected && !connected then NotConnected(word)
    else if |values| < entry.optargs then UsageShown(word)
    else Ran(index, arguments, values)
  }

  /** What a row makes of a line: it runs exactly when it may run in this connection state and has its
      arguments; otherwise the line is refused for the one reason or the other. */
  predicate RunsWhenAllowed(
      outcome: Outcome, i: nat, word: string, rest: string, connected: bool, parse: ArgumentParser)
    requires i < |TABLE|
  {
    var values := parse(rest, TABLE[i].optindex);
    var allowed := TABLE[i].connected ==> connected;
    && (outcome == Ran(i, rest, values) <==> allowed && |values| >= TABLE[i].optargs)
    && (outcome == NotConnected(word) <==> TABLE[i].connected && !connected)
    && (outcome == UsageShown(word) <==> allowed && |values| < TABLE[i].optargs)
  }

  lemma {:induction false} RoutedRunsWhenAllowed(
      i: nat, word: string, rest: string, connected: bool, parse: ArgumentParser)
    requires i < |TABLE|
    ensures RunsWhenAllowed(Routed(i, word, rest, connected, parse), i, word, rest, connected, parse)
  {
  }

  function Parsed(buffer: string, chat: bool, connected: bool, parse: ArgumentParser): Outcome {
    var line := SplitCommand(Buffered(buffer, chat, connected), '/');
    var index := IndexIn(TABLE, line.word, 0);
    if index.None? then NotRecognized(line.word)
    else Routed(index.value, line.word, line.arguments, connected, parse)
  }

  method ParseCommand(buffer: string, chat: bool, connected: bool, parse: ArgumentParser) returns (outcome: Outcome)
    ensures outcome == Parsed(buffer, chat, connected, parse)
  {
    var text := buffer;
    if chat && !("/" <= buffer) {
      text := (if connected then "say " else "echo ") + text;
    }
    var line := SplitCommand(text, '/');
    var index := IndexForCommand(TABLE, line.word);
    if index.None? {
      return NotRecognized(line.word);
    }
    var entry := TABLE[index.value];
    if entry.connected && !connected {
      return NotConnected(line.word);
    }
    var values := parse(line.arguments, entry.optindex);
    if |values| < entry.optargs {
      return UsageShown(line.word);
    }
    outcome := Ran(index.value, line.arguments, values);
  }

  /** The first row whose name the word begins, ignoring case. */
  predicate IsFirstRow(table: seq<Entry>, word: string, i: nat) {
    && i < |table| && HasPrefixIgnoringCase(table[i].name, word)
    && forall k :: 0 <= k < i ==> !HasPrefixIgnoringCase(table[k].name, word)
  }

  lemma {:induction false} FirstRowIsFound(table: seq<Entry>, word: string, i: nat)
    requires IsFirstRow(table, word, i)
    ensures IndexIn(table, word, 0) == Some(i)
  {
  }

  /** The outcome of every line. Chat text without a slash is a line of "say", or of "echo" while
      disconnected. The first row whose name the command word begins decides; exactly without one the
      word is not recognized. */
  lemma {:induction false} OutcomeOfLine(
      buffer: string, chat: bool, connected: bool, parse: ArgumentParser, i: nat)
    ensures var text := if !chat || "/" <= buffer then buffer
                        else if connected then "say " + buffer else "echo " + buffer;
            var line, outcome := SplitCommand(text, '/'), Parsed(buffer, chat, connected, parse);
            && (IsFirstRow(TABLE, line.word, i) ==>
                RunsWhenAllowed(outcome, i, line.word, line.arguments, connected, parse))
            && (outcome == NotRecognized(line.word) <==> forall k :: !IsFirstRow(TABLE, line.word, k))
  {
    var line := SplitCommand(Buffered(buffer, chat, connected), '/');
    var index := IndexIn(TABLE, line.word, 0);
    if index.None? {
      assert forall k :: !IsFirstRow(TABLE, line.word, k);
    } else {
      assert IsFirstRow(TABLE, line.word, index.value);
      RoutedRunsWhenAllowed(index.value, line.word, line.arguments, connected, parse);
      if IsFirstRow(TABLE, line.word, i) { FirstRowIsFound(TABLE, line.word, i); }
    }
  }

  predicate IsWord(name: string) {
    ' ' !in name && '/' !in name
  }

  lemma {:induction false} Words0()
    ensures IsWord("broadcast") && IsWord("charset") && IsWord("clear") && IsWord("close")
    ensures IsWord("connect") && IsWord("disconnect") && IsWord("echo") && IsWord("exit")
  {
  }

  lemma {:induction false} Words8()
    ensures IsWord("help") && IsWord("icon") && IsWord("ignore") && IsWord("ignores")
    ensures IsWord("info") && IsWord("invite") && IsWord("join") && IsWord("load")
  {
  }

  lemma {:induction false} Words16()
    ensures IsWord("log") && IsWord("me") && IsWord("msg") && IsWord("nick")
    ensures IsWord("open") && IsWord("privchat") && IsWord("quit") && IsWord("save")
  {
  }

  lemma {:induction false} Words24()
    ensures IsWord("say") && IsWord("server") && IsWord("serverinfo") && IsWord("status")
    ensures IsWord("timestamp") && IsWord("topic") && IsWord("unignore") && IsWord("uptime")
  {
  }

  lemma {:induction false} Words32()
    ensures IsWord("version") && IsWord("who") && IsWord("whois") && IsWord("ls")
    ensures IsWord("mv") && IsWord("rm") && IsWord("subscribe") && IsWord("unsubscribe")
  {
  }

  lemma {:induction false} NamesAreWords(i: nat)
    requires i < |TABLE|
    ensures IsWord(TABLE[i].name)
  {
    if i < 8 {
      Names0(); Names4(); Words0();
    } else if i < 16 {
      Names8(); Names12(); Words8();
    } else if i < 24 {
      Names16(); Names20(); Words16();
    } else if i < 32 {
      Names24(); Names28(); Words24();
    } else {
      Names32(); Names36(); Words32();
    }
  }

  const SAY: nat := 24
  const ECHO: nat := 6

  /** The line `name rest` is split and looked up as row `i` with `rest`. */
  lemma {:induction false} LineOfRow(i: nat, rest: string)
    requires i < |TABLE|
    ensures SplitCommand(TABLE[i].name + " " + rest, '/') == CommandLine(TABLE[i].name, rest)
    ensures SplitCommand("/" + TABLE[i].name + " " + rest, '/') == CommandLine(TABLE[i].name, rest)
  {
    var name := TABLE[i].name;
    NamesAreWords(i);
    SplitCommandAt(name, rest, '/');
    SplitCommandAt("/" + name, rest, '/');
    assert ("/" + name)[1..] == name;
    assert name != [] ==> name[0] in name;
  }

  lemma {:induction false} LineIsRouted(
      buffer: string, chat: bool, i: nat, word: string, rest: string, connected: bool, parse: ArgumentParser)
    requires i < |TABLE|
    requires SplitCommand(Buffered(buffer, chat, connected), '/') == CommandLine(word, rest)
    requires IndexIn(TABLE, word, 0) == Some(i)
    ensures Parsed(buffer, chat, connected, parse) == Routed(i, word, rest, connected, parse)
  {
  }

  lemma {:induction false} BufferedText(text: string)
    requires !("/" <= text)
    ensures Buffered(text, true, true) == "say" + " " + text && Buffered(text, true, false) == "echo" + " " + text
  {
    assert "say" + " " == "say " && "echo" + " " == "echo ";
  }

  lemma {:induction false} ChatTextReachesRow(text: string, i: nat, connected: bool, parse: ArgumentParser)
    requires i < |TABLE| && Buffered(text, true, connected) == TABLE[i].name + " " + text
    ensures Parsed(text, true, connected, parse) == Routed(i, TABLE[i].name, text, connected, parse)
  {
    LineOfRow(i, text);
    EveryNameFindsItself(i);
    LineIsRouted(text, true, i, TABLE[i].name, text, connected, parse);
  }

  lemma {:induction false} RowOptions()
    ensures TABLE[SAY] == Entry("say", true, 1, 0) && TABLE[ECHO] == Entry("echo", false, 1, 0)
  {
  }

  /** Chat text without a leading slash reaches "say" (or "echo" while disconnected) whole. */
  lemma {:induction false} ChatTextIsSaidWhole(text: string, connected: bool, parse: ArgumentParser)
    requires !("/" <= text)
    ensures Parsed(text, true, connected, parse) ==
            if connected then Routed(SAY, "say", text, true, parse) else Routed(ECHO, "echo", text, false, parse)
    ensures RunsWhenAllowed(Parsed(text, true, connected, parse), if connected then SAY else ECHO,
                            if connected then "say" else "echo", text, connected, parse)
    ensures var row := if connected then SAY else ECHO;
            (Parsed(text, true, connected, parse) == Ran(row, text, parse(text, 0))) <==> parse(text, 0) != []
  {
    RowOptions();
    RoutedRunsWhenAllowed(SAY, "say", text, true, parse);
    RoutedRunsWhenAllowed(ECHO, "echo", text, false, parse);
    Names4(); Names24();
    BufferedText(text);
    ChatTextReachesRow(text, if connected then SAY else ECHO, connected, parse);
  }

  /** "/name rest" reaches the row of that name with the rest unchanged, from chat or not. */
  lemma {:induction false} NamedCommandReachesItsRow(
      i: nat, rest: string, chat: bool, connected: bool, parse: ArgumentParser)
    requires i < |TABLE|
    ensures Parsed("/" + TABLE[i].name + " " + rest, chat, connected, parse) ==
            Routed(i, TABLE[i].name, rest, connected, parse)
    ensures RunsWhenAllowed(Parsed("/" + TABLE[i].name + " " + rest, chat, connected, parse), i, TABLE[i].name, rest,
                            connected, parse)
  {
    RoutedRunsWhenAllowed(i, TABLE[i].name, rest, connected, parse);
    var line := "/" + TABLE[i].name + " " + rest;
    assert line[0] == '/';
    EveryNameFindsItself(i);
    LineOfRow(i, rest);
    LineIsRouted(line, chat, i, TABLE[i].name, rest, connected, parse);
  }

  lemma {:induction false} NamedLineReachesItsRow(
      line: string, i: nat, name: string, rest: string, connected: bool, parse: ArgumentParser)
    requires i < |TABLE| && TABLE[i].name == name && line == "/" + name + " " + rest
    ensures Parsed(line, false, connected, parse) == Routed(i, name, rest, connected, parse)
    ensures RunsWhenAllowed(Parsed(line, false, connected, parse), i, name, rest, connected, parse)
  {
    NamedCommandReachesItsRow(i, rest, false, connected, parse);
  }

  lemma {:induction false} EmptyWord(line: string)
    ensures SplitCommand(line, '/').word == "" <==> line == "" || " " <= line || line == "/" || "/ " <= line
  {
    var index := IndexOf(line, ' ');
    var word := if index.Some? then line[..index.value] else line;
    assert "/ " <= line <==> |line| > 1 && line[0] == '/' && line[1] == ' ';
    assert word == "/" <==> line == "/" || "/ " <= line;
    assert |word| == 1 && word[0] == '/' ==> word == "/";
  }

  /** For every line: the first row is reached exactly when the command word is a prefix of
      "broadcast", ignoring case. In particular an empty command word reaches it, which the lines
      "/" and "/ text" have and, outside chats, the empty line and lines beginning with a space. */
  lemma {:induction false} EmptyWordReachesBroadcast(
      buffer: string, chat: bool, connected: bool, parse: ArgumentParser)
    ensures var line := SplitCommand(Buffered(buffer, chat, connected), '/');
            && (IndexIn(TABLE, line.word, 0) == Some(0) <==> HasPrefixIgnoringCase("broadcast", line.word))
            && (line.word == "" <==>
                buffer == "/" || "/ " <= buffer || (!chat && (buffer == "" || " " <= buffer)))
            && (line.word == "" ==>
                Parsed(buffer, chat, connected, parse) == Routed(0, "", line.arguments, connected, parse))
  {
    Names0();
    EmptyWord(Buffered(buffer, chat, connected));
    if chat && !("/" <= buffer) {
      BufferedText(buffer);
      assert Buffered(buffer, chat, connected)[0] in "se";
    }
  }
}
