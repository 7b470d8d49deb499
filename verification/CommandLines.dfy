/** The two words of a command line, split alike by the bot (wirebot/bot.c) and by the client
    (wirebot/commands.c). */
module CommandLines {
  import opened Text

  datatype CommandLine = CommandLine(word: string, arguments: string)

  /** `_wb_bot_split_command` (mark '!') and `wr_commands_split_command` (mark '/'): cut at the
      first space and drop one leading mark of the command word. */
  function SplitCommand(buffer: string, mark: char): CommandLine {
    var index := IndexOf(buffer, ' ');
    var word := if index.Some? then buffer[..index.value] else buffer;
    var arguments := if index.Some? then buffer[index.value + 1..] else "";
    CommandLine(if word != [] && word[0] == mark then word[1..] else word, arguments)
  }

  lemma {:induction false} SplitCommandAt(word: string, arguments: string, mark: char)
    requires ' ' !in word
    ensures SplitCommand(word + " " + arguments, mark) ==
            CommandLine(if word != [] && word[0] == mark then word[1..] else word, arguments)
  {
    var s := word + " " + arguments;
    assert s[|word|] == ' ';
    assert forall k :: 0 <= k < |word| ==> s[k] == word[k];
    assert IndexOf(s, ' ') == Some(|word|);
    assert s[..|word|] == word;
    assert s[|word| + 1..] == arguments;
  }
}
