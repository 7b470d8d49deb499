/** The two ways wirebot/bot.c splits a chat line into command word and arguments. */
module BotArguments {
  import opened CommandLines
  import opened Text

  /** The argument text `_wb_bot_recompose_bot_command_arguments` rebuilds from components. */
  method Recompose(arguments: seq<string>) returns (text: string)
    ensures text == if |arguments| <= 1 then "" else Join(arguments[1..], ' ')
  {
    text := "";
    if |arguments| <= 1 {
      return;
    }
    var i := 1;
    while i < |arguments|
      invariant 1 <= i <= |arguments|
      invariant text + Join(arguments[i..], ' ') == Join(arguments[1..], ' ')
    {
      ghost var before := text;
      assert arguments[i..][1..] == arguments[i + 1..];
      text := text + arguments[i];
      if i < |arguments| - 1 {
        text := text + " ";
        assert text + Join(arguments[i + 1..], ' ') == before + Join(arguments[i..], ' ');
      }
      i := i + 1;
    }
  }

  /** The components of a text are its command word (with the mark still on) and the components
      of its argument text; a text of one component has no arguments. */
  lemma {:induction false} ComponentsAgree(text: string, mark: char)
    ensures var parts, line := Split(text, ' '), SplitCommand(text, mark);
            && line.word == (if parts[0] != [] && parts[0][0] == mark then parts[0][1..] else parts[0])
            && line.arguments == (if |parts| == 1 then "" else Join(parts[1..], ' '))
            && (|parts| > 1 ==> parts[1..] == Split(line.arguments, ' '))
  {
    var parts := Split(text, ' ');
    JoinSplit(text, ' ');
    if |parts| == 1 {
      assert text == parts[0];
    } else {
      var rest := Join(parts[1..], ' ');
      assert text == parts[0] + " " + rest;
      SplitCommandAt(parts[0], rest, mark);
      assert forall p :: p in parts[1..] ==> p in parts;
      SplitJoin(parts[1..], ' ');
    }
  }

  /** The two argument parsers agree on every text, runs of spaces included. */
  method DecomposeThenRecompose(text: string) returns (arguments: string)
    ensures arguments == SplitCommand(text, '!').arguments
  {
    ComponentsAgree(text, '!');
    arguments := Recompose(Split(text, ' '));
  }

  /** Nothing but the mark is lost: word, one space and arguments are the text again. */
  lemma {:induction false} SplitCommandLosesNothing(text: string, mark: char)
    ensures var line := SplitCommand(text, mark);
            var marked := text != [] && text[0] == mark && mark != ' ';
            text == (if marked then [mark] else "") + line.word +
                    (if ' ' in text then " " + line.arguments else "")
  {
    var index := IndexOf(text, ' ');
    if index.Some? {
      assert text == text[..index.value] + " " + text[index.value + 1..];
    }
  }
}
