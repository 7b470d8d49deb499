/** The rule and command engine of the bot (wirebot/bot.c). */
module BotEngine {
  import opened CommandLines
  import opened Sequences
  import opened Text
  import BotArguments
  import Commands
  import CommandTable

  // ----- Messages, users and the dictionary

  datatype Kind = Say | Me | Private | Join | Leave

  datatype Message = Message(kind: Kind, text: string)

  function MessageName(kind: Kind): string {
    match kind
    case Say => "wired.chat.say"
    case Me => "wired.chat.me"
    case Private => "wired.message.message"
    case Join => "wired.chat.user_join"
    case Leave => "wired.chat.user_leave"
  }

  /** `wb_bot_input_for_message`. */
  function InputFor(message: Message): string {
    if message.kind.Join? || message.kind.Leave? then "" else message.text
  }

  datatype User = User(uid: nat, nick: string, login: Option<string>)

  datatype Comparison = Equals | Contains | StartsWith | EndsWith | NotEquals

  datatype Input = Input(messageName: string, text: Option<string>, comparison: Comparison, caseSensitive: bool)

  datatype Output = Output(messageName: string, inputText: Option<string>, text: Option<string>, repeat: int)

  datatype Rule = Rule(activated: bool, permissions: string, inputs: seq<Input>, outputs: seq<Output>)

  datatype Command = Command(activated: bool, name: string, permissions: string, outputs: seq<Output>)

  /** What stays fixed: the bot's own user id, libwired's text comparison, the expansion of an
      output into a command line, and the help text. */
  datatype World = World(
    ownUid: nat,
    compare: (Input, string) -> bool,
    render: (Output, User) -> string,
    help: string)

  // ----- Permissions

  predicate ContainsIgnoringCase(s: string, pattern: string) {
    Commands.HasPrefixIgnoringCase(s, pattern) || (s != [] && ContainsIgnoringCase(s[1..], pattern))
  }

  predicate Grants(permission: string, user: User) {
    permission == "any" || ContainsIgnoringCase(user.nick, permission) || user.login == Some(permission)
  }

  predicate Permitted(user: User, permissions: string) {
    exists p :: p in Split(permissions, ',') && Grants(p, user)
  }

  /** `wb_bot_check_rule_permissions` and `wb_bot_check_command_permissions`. */
  method CheckPermissions(user: User, permissions: string) returns (allowed: bool)
    ensures allowed <==> Permitted(user, permissions)
  {
    var components := Split(permissions, ',');
    for i := 0 to |components|
      invariant forall k :: 0 <= k < i ==> !Grants(components[k], user)
    {
      if Grants(components[i], user) {
        return true;
      }
    }
    return false;
  }

  /** The pattern stands somewhere in the text, ignoring case. */
  lemma {:induction false} ContainsIsPointwise(s: string, pattern: string)
    ensures ContainsIgnoringCase(s, pattern) <==>
            exists at: nat :: OccursAt(s, pattern, at)
  {
    Commands.PrefixIsPointwise(s, pattern);
    if Commands.HasPrefixIgnoringCase(s, pattern) {
      assert OccursAt(s, pattern, 0);
    } else if s != [] {
      ContainsIsPointwise(s[1..], pattern);
      if at: nat :| OccursAt(s[1..], pattern, at) {
        assert OccursAt(s, pattern, at + 1);
      }
      if at: nat :| OccursAt(s, pattern, at) {
        assert at == 0 ==> Commands.HasPrefixIgnoringCase(s, pattern);
        assert OccursAt(s[1..], pattern, at - 1);
      }
    }
  }

  predicate OccursAt(s: string, pattern: string, at: nat) {
    at + |pattern| <= |s| &&
    forall k :: 0 <= k < |pattern| ==> Commands.Lower(pattern[k]) == Commands.Lower(s[at + k])
  }

  /** Permissions are names between commas: "any", a login, or a part of the nick. */
  lemma {:induction false} PermittedByComponent(user: User, names: seq<string>)
    requires names != [] && forall n :: n in names ==> ',' !in n
    ensures Permitted(user, Text.Join(names, ',')) <==>
            exists n :: n in names &&
              (n == "any" || user.login == Some(n) || exists at: nat :: OccursAt(user.nick, n, at))
  {
    SplitJoin(names, ',');
    forall n
      ensures Grants(n, user) <==>
              n == "any" || user.login == Some(n) || exists at: nat :: OccursAt(user.nick, n, at)
    {
      ContainsIsPointwise(user.nick, n);
    }
  }

  // ----- Rule selection

  /** `wb_bot_check_input_match`: an empty text matches every input, an input without text matches
      every text; only otherwise are the two compared. */
  predicate TextMatches(input: Input, text: string, world: World) {
    text == "" || input.text.None? || world.compare(input, text)
  }

  predicate InputMatches(input: Input, message: Message, world: World) {
    MessageName(message.kind) == input.messageName && TextMatches(input, InputFor(message), world)
  }

  /** Which messages an input matches: those of its own kind, and of these the ones without text, any
      if the input has no text, and else the ones that compare. */
  lemma {:induction false} MatchesItsKind(input: Input, kind: Kind, text: string, world: World)
    ensures InputMatches(input, Message(kind, text), world) <==>
            match kind
            case Say => input.messageName == "wired.chat.say" && Compares(input, text, world)
            case Me => input.messageName == "wired.chat.me" && Compares(input, text, world)
            case Private => input.messageName == "wired.message.message" && Compares(input, text, world)
            case Join => input.messageName == "wired.chat.user_join"
            case Leave => input.messageName == "wired.chat.user_leave"
  {
  }

  predicate Compares(input: Input, text: string, world: World) {
    text != "" && input.text.Some? ==> world.compare(input, text)
  }

  function FirstInput(inputs: seq<Input>, message: Message, world: World, from: nat): (r: Option<nat>)
    requires from <= |inputs|
    ensures r.None? ==> forall k :: from <= k < |inputs| ==> !InputMatches(inputs[k], message, world)
    ensures r.Some? ==> from <= r.value < |inputs| && InputMatches(inputs[r.value], message, world)
    ensures r.Some? ==> forall k :: from <= k < r.value ==> !InputMatches(inputs[k], message, world)
    decreases |inputs| - from
  {
    if from == |inputs| then None
    else if InputMatches(inputs[from], message, world) then Some(from)
    else FirstInput(inputs, message, world, from + 1)
  }

  predicate Selectable(rule: Rule, user: User, message: Message, world: World) {
    rule.activated && Permitted(user, rule.permissions) && FirstInput(rule.inputs, message, world, 0).Some?
  }

  function FirstRule(rules: seq<Rule>, user: User, message: Message, world: World, from: nat): (r: Option<nat>)
    requires from <= |rules|
    ensures r.None? ==> forall k :: from <= k < |rules| ==> !Selectable(rules[k], user, message, world)
    ensures r.Some? ==> from <= r.value < |rules| && Selectable(rules[r.value], user, message, world)
    ensures r.Some? ==> forall k :: from <= k < r.value ==> !Selectable(rules[k], user, message, world)
    decreases |rules| - from
  {
    if from == |rules| then None
    else if Selectable(rules[from], user, message, world) then Some(from)
    else FirstRule(rules, user, message, world, from + 1)
  }

  /** The outputs of a rule, each carrying the text of the input that selected the rule. */
  function Stamped(outputs: seq<Output>, text: Option<string>): (r: seq<Output>)
    ensures |r| == |outputs|
    ensures forall k :: 0 <= k < |r| ==> r[k] == outputs[k].(inputText := text)
  {
    seq(|outputs|, k requires 0 <= k < |outputs| => outputs[k].(inputText := text))
  }

  function SelectedRule(rules: seq<Rule>, i: nat, user: User, message: Message, world: World): Rule
    requires i < |rules| && Selectable(rules[i], user, message, world)
  {
    var input := rules[i].inputs[FirstInput(rules[i].inputs, message, world, 0).value];
    rules[i].(outputs := Stamped(rules[i].outputs, input.text))
  }

  // ----- Command selection

  predicate Addresses(command: Command, user: User, word: string) {
    command.activated && word == "!" + command.name && Permitted(user, command.permissions)
  }

  function FirstCommand(commands: seq<Command>, user: User, word: string, from: nat): (r: Option<nat>)
    requires from <= |commands|
    ensures r.None? ==> forall k :: from <= k < |commands| ==> !Addresses(commands[k], user, word)
    ensures r.Some? ==> from <= r.value < |commands| && Addresses(commands[r.value], user, word)
    ensures r.Some? ==> forall k :: from <= k < r.value ==> !Addresses(commands[k], user, word)
    decreases |commands| - from
  {
    if from == |commands| then None
    else if Addresses(commands[from], user, word) then Some(from)
    else FirstCommand(commands, user, word, from + 1)
  }

  /** Only public and private chat text is looked at for commands. */
  function CommandFor(commands: seq<Command>, user: User, message: Message): (r: Option<nat>)
    ensures r.Some? ==> r.value < |commands|
  {
    if message.kind.Say? || message.kind.Private? then
      FirstCommand(commands, user, Split(message.text, ' ')[0], 0)
    else None
  }

  /** A command is addressed exactly when the text begins with '!' and the other parser's command
      word is the command's name. */
  lemma {:induction false} CommandWordsAgree(command: Command, user: User, text: string)
    ensures Addresses(command, user, Split(text, ' ')[0]) <==>
            && command.activated && Permitted(user, command.permissions)
            && "!" <= text && SplitCommand(text, '!').word == command.name && ' ' !in command.name
  {
    BotArguments.ComponentsAgree(text, '!');
    JoinSplit(text, ' ');
    var parts := Split(text, ' ');
    assert parts[0] <= text;
    assert parts[0] in parts;
    if "!" <= text && parts[0] != [] {
      assert parts[0][0] == text[0];
      assert parts[0] == "!" + parts[0][1..];
    }
  }

  /** The text is the command's own: '!' and its name, alone or before a space, from somebody who may. */
  predicate Meant(command: Command, user: User, text: string) {
    && command.activated && Permitted(user, command.permissions)
    && "!" <= text && SplitCommand(text, '!').word == command.name && ' ' !in command.name
  }

  /** A command is found exactly when it is the first one meant by public or private chat text. */
  lemma {:induction false} FirstMeantIsFound(commands: seq<Command>, user: User, message: Message, i: nat)
    ensures CommandFor(commands, user, message) == Some(i) <==>
            && (message.kind.Say? || message.kind.Private?)
            && i < |commands| && Meant(commands[i], user, message.text)
            && forall k :: 0 <= k < i ==> !Meant(commands[k], user, message.text)
  {
    var word := Split(message.text, ' ')[0];
    forall k | 0 <= k < |commands|
      ensures Addresses(commands[k], user, word) <==> Meant(commands[k], user, message.text)
    {
      CommandWordsAgree(commands[k], user, message.text);
    }
  }

  // ----- Execution

  datatype Origin = FromRule | FromCommand

  datatype Event =
    | Selected(name: string)
    | Sent(origin: Origin, line: string, chat: bool)
    | WentIdle

  datatype BotState = BotState(started: bool, commands: seq<Command>, rules: seq<Rule>)

  /** What reading the dictionary again gives; on failure, whatever was read before the error. */
  datatype Reload = Reload(loaded: bool, commands: seq<Command>, rules: seq<Rule>)

  /** One message, the user in the public chat who sent it, and what the surroundings answer while it
      is handled: the random number, whether the bot itself
      is listed in the public chat, and the dictionary a reload would find. */
  datatype Step = Step(message: Message, user: User, random: nat, ownListed: bool, reload: Reload)

  predicate IsChat(output: Output) {
    output.messageName == "wired.chat.say" || output.messageName == "wired.chat.me"
  }

  function OutputEvents(origin: Origin, output: Output, user: User, world: World): seq<Event> {
    if output.text.None? then []
    else
      var times := if output.repeat < 1 then 1 else output.repeat;
      Repeated(Sent(origin, world.render(output, user), IsChat(output)), times)
  }

  function Idle(step: Step): seq<Event> {
    if step.ownListed then [WentIdle] else []
  }

  /** The command's outputs after one of them was picked, and what executing the pick sends. */
  function Picked(command: Command, step: Step, world: World): (Command, seq<Event>) {
    if command.outputs == [] then (command, [])
    else
      var k := step.random % |command.outputs|;
      var output := command.outputs[k].(messageName := MessageName(step.message.kind));
      (command.(outputs := command.outputs[k := output]), OutputEvents(FromCommand, output, step.user, world))
  }

  /** What a command sends, with `said` the events of its picked output. */
  function CommandEvents(name: string, arguments: string, said: seq<Event>, step: Step, world: World): seq<Event> {
    if name == "reload" then
      if step.reload.loaded then said
      else [Sent(FromCommand, "/me failed to reload the dictionary...", true)]
    else if name == "stop" || name == "sleep" then said + Idle(step)
    else if name == "nick" then
      (if arguments == "" then [] else [Sent(FromCommand, "/nick " + arguments, false)]) + said
    else if name == "status" then [Sent(FromCommand, "/status " + arguments, false)] + said
    else if name == "help" then
      OutputEvents(FromCommand, Output(MessageName(step.message.kind), None, Some(world.help), 0), step.user, world)
    else said
  }

  /** What a command does to the bot. */
  function CommandEffect(state: BotState, name: string, step: Step): BotState {
    if name == "reload" then BotState(state.started, step.reload.commands, step.reload.rules)
    else if name == "start" then state.(started := true)
    else if name == "stop" then state.(started := false)
    else state
  }

  /** `wb_bot_execute_command`. */
  function CommandStep(state: BotState, i: nat, step: Step, world: World): (BotState, seq<Event>)
    requires i < |state.commands|
  {
    var command := state.commands[i];
    var arguments := SplitCommand(InputFor(step.message), '!').arguments;
    var (picked, said) := Picked(command, step, world);
    (CommandEffect(state.(commands := state.commands[i := picked]), command.name, step),
     [Selected(command.name)] + CommandEvents(command.name, arguments, said, step, world))
  }

  /** Every rule has an output to pick. */
  predicate Loaded(rules: seq<Rule>) {
    forall r :: r in rules ==> r.outputs != []
  }

  function RuleStep(state: BotState, step: Step, world: World): (BotState, seq<Event>)
    requires Loaded(state.rules)
  {
    var first := FirstRule(state.rules, step.user, step.message, world, 0);
    if first.None? then (state, [])
    else
      var rule := SelectedRule(state.rules, first.value, step.user, step.message, world);
      assert state.rules[first.value] in state.rules;
      var output := rule.outputs[if |rule.outputs| > 1 then step.random % |rule.outputs| else 0];
      (state.(rules := state.rules[first.value := rule]), OutputEvents(FromRule, output, step.user, world))
  }

  /** `wb_bot_dispatch_message`. */
  function Dispatched(state: BotState, step: Step, world: World): (BotState, seq<Event>)
    requires Loaded(state.rules)
  {
    if step.user.uid == world.ownUid then (state, [])
    else
      var command := CommandFor(state.commands, step.user, step.message);
      if command.Some? then CommandStep(state, command.value, step, world)
      else if state.started then RuleStep(state, step, world)
      else (state, [])
  }

  // ----- What one message comes to

  /** The events are one output's: nothing without text; else its line, as often as it is to be
      repeated and at least once, as chat for the two chat messages. */
  predicate AreSends(events: seq<Event>, origin: Origin, output: Output, user: User, world: World) {
    if output.text.None? then events == []
    else
      && |events| == (if output.repeat > 1 then output.repeat else 1)
      && forall k :: 0 <= k < |events| ==>
           events[k] == Sent(origin, world.render(output, user),
                             output.messageName == "wired.chat.say" || output.messageName == "wired.chat.me")
  }

  /** The rule may answer this message: it is on, permitted, and some input matches. */
  predicate MayAnswer(rule: Rule, user: User, message: Message, world: World) {
    && rule.activated && Permitted(user, rule.permissions)
    && exists k :: 0 <= k < |rule.inputs| && InputMatches(rule.inputs[k], message, world)
  }

  predicate FirstMatch(inputs: seq<Input>, message: Message, world: World, j: nat) {
    && j < |inputs| && InputMatches(inputs[j], message, world)
    && forall k :: 0 <= k < j ==> !InputMatches(inputs[k], message, world)
  }

  lemma {:induction false} MayAnswerIsSelectable(rule: Rule, user: User, message: Message, world: World)
    ensures MayAnswer(rule, user, message, world) <==> Selectable(rule, user, message, world)
  {
  }

  /** The outputs with one text written into all of them. */
  predicate StampedWith(outputs: seq<Output>, before: seq<Output>, text: Option<string>) {
    |outputs| == |before| && forall k :: 0 <= k < |outputs| ==> outputs[k] == before[k].(inputText := text)
  }

  /** A started bot answers: when somebody else's message means no command, the first rule that may
      answer sends one of its outputs, picked by the random number and carrying the text of the
      rule's first matching input; that text stays in the rule's outputs and nothing else changes. */
  lemma {:induction false} FirstRuleAnswers(state: BotState, step: Step, world: World, i: nat, j: nat)
    requires Loaded(state.rules) && state.started && step.user.uid != world.ownUid
    requires CommandFor(state.commands, step.user, step.message).None?
    requires i < |state.rules| && MayAnswer(state.rules[i], step.user, step.message, world)
    requires forall k :: 0 <= k < i ==> !MayAnswer(state.rules[k], step.user, step.message, world)
    requires FirstMatch(state.rules[i].inputs, step.message, world, j)
    ensures var (next, events) := Dispatched(state, step, world);
            var rule, text := state.rules[i], state.rules[i].inputs[j].text;
            && state.rules[i] in state.rules
            && AreSends(events, FromRule, rule.outputs[step.random % |rule.outputs|].(inputText := text),
                        step.user, world)
            && next.started && next.commands == state.commands && |next.rules| == |state.rules|
            && (forall k :: 0 <= k < |state.rules| && k != i ==> next.rules[k] == state.rules[k])
            && next.rules[i] == rule.(outputs := next.rules[i].outputs)
            && StampedWith(next.rules[i].outputs, rule.outputs, text)
  {
    forall k | 0 <= k <= i
      ensures MayAnswer(state.rules[k], step.user, step.message, world) <==>
              Selectable(state.rules[k], step.user, step.message, world)
    {
      MayAnswerIsSelectable(state.rules[k], step.user, step.message, world);
    }
    assert state.rules[i] in state.rules;
    assert FirstRule(state.rules, step.user, step.message, world, 0) == Some(i);
    assert FirstInput(state.rules[i].inputs, step.message, world, 0) == Some(j);
  }

  /** Otherwise a message that means no command does nothing: with no rule that may answer, or while
      the bot is stopped. */
  lemma {:induction false} NobodyAnswers(state: BotState, step: Step, world: World)
    requires Loaded(state.rules) && CommandFor(state.commands, step.user, step.message).None?
    requires !state.started || forall r :: r in state.rules ==> !MayAnswer(r, step.user, step.message, world)
    ensures Dispatched(state, step, world) == (state, [])
  {
    forall r
      ensures MayAnswer(r, step.user, step.message, world) <==> Selectable(r, step.user, step.message, world)
    {
      MayAnswerIsSelectable(r, step.user, step.message, world);
    }
    assert forall k :: 0 <= k < |state.rules| ==> state.rules[k] in state.rules;
  }

  /** What the command says: one of its outputs, picked by the random number, as a message of the kind
      it was asked in. */
  predicate Says(events: seq<Event>, command: Command, step: Step, world: World) {
    if command.outputs == [] then events == []
    else AreSends(events, FromCommand,
                  command.outputs[step.random % |command.outputs|].(messageName := MessageName(step.message.kind)),
                  step.user, world)
  }

  lemma {:induction false} PickedSays(command: Command, step: Step, world: World)
    ensures Says(Picked(command, step, world).1, command, step, world)
  {
  }

  /** All that a command sends. Help sends the help text alone, a failed reload the failure alone;
      status and nick send their line first, stop and sleep go idle last, if the bot is listed. */
  predicate SendsByName(sent: seq<Event>, command: Command, arguments: string, step: Step, world: World) {
    var name := command.name;
    if name == "help" then
      AreSends(sent, FromCommand, Output(MessageName(step.message.kind), None, Some(world.help), 0), step.user, world)
    else if name == "reload" && !step.reload.loaded then
      sent == [Sent(FromCommand, "/me failed to reload the dictionary...", true)]
    else if name == "status" || (name == "nick" && arguments != "") then
      sent != [] && sent[0] == Sent(FromCommand, (if name == "nick" then "/nick " else "/status ") + arguments, false)
      && Says(sent[1..], command, step, world)
    else if (name == "stop" || name == "sleep") && step.ownListed then
      sent != [] && sent[|sent| - 1] == WentIdle && Says(sent[..|sent| - 1], command, step, world)
    else Says(sent, command, step, world)
  }

  /** Where the command's own output stands among what it sends. */
  lemma {:induction false} SaidPart(name: string, arguments: string, said: seq<Event>, step: Step, world: World)
    ensures var sent := CommandEvents(name, arguments, said, step, world);
            && (name == "status" ==> sent == [Sent(FromCommand, "/status " + arguments, false)] + said)
            && (name == "nick" && arguments != "" ==>
                  sent == [Sent(FromCommand, "/nick " + arguments, false)] + said)
            && (name == "nick" && arguments == "" ==> sent == said)
            && (name == "stop" || name == "sleep" ==> sent == said + (if step.ownListed then [WentIdle] else []))
  {
    assert [] + said == said;
  }

  lemma {:induction false} EventsByName(command: Command, arguments: string, step: Step, world: World)
    ensures SendsByName(CommandEvents(command.name, arguments, Picked(command, step, world).1, step, world),
                        command, arguments, step, world)
  {
    var said := Picked(command, step, world).1;
    var sent := CommandEvents(command.name, arguments, said, step, world);
    PickedSays(command, step, world);
    SaidPart(command.name, arguments, said, step, world);
    if command.name == "status" || (command.name == "nick" && arguments != "") {
      assert sent[1..] == said;
    } else if (command.name == "stop" || command.name == "sleep") && step.ownListed {
      assert sent[..|sent| - 1] == said;
    }
  }

  /** Started or stopped, a command that is meant runs, and nothing else is sent. */
  lemma {:induction false} CommandSends(state: BotState, step: Step, world: World, i: nat)
    requires Loaded(state.rules) && step.user.uid != world.ownUid
    requires CommandFor(state.commands, step.user, step.message) == Some(i)
    ensures var events, command := Dispatched(state, step, world).1, state.commands[i];
            && events != [] && events[0] == Selected(command.name)
            && SendsByName(events[1..], command, SplitCommand(step.message.text, '!').arguments, step, world)
  {
    var command, arguments := state.commands[i], SplitCommand(step.message.text, '!').arguments;
    FirstMeantIsFound(state.commands, step.user, step.message, i);
    assert InputFor(step.message) == step.message.text;
    EventsByName(command, arguments, step, world);
    CommandIsRun(state, step, world, i);
  }

  lemma {:induction false} CommandIsRun(state: BotState, step: Step, world: World, i: nat)
    requires Loaded(state.rules) && step.user.uid != world.ownUid
    requires CommandFor(state.commands, step.user, step.message) == Some(i)
    ensures var command, arguments := state.commands[i], SplitCommand(InputFor(step.message), '!').arguments;
            var events := Dispatched(state, step, world).1;
            && events != [] && events[0] == Selected(command.name)
            && events[1..] == CommandEvents(command.name, arguments, Picked(command, step, world).1, step, world)
  {
  }

  /** What a command changes: start and stop the flag, reload rules and commands, and every other
      command only the kind of the output it picked. */
  lemma {:induction false} CommandChanges(state: BotState, step: Step, world: World, i: nat)
    requires Loaded(state.rules) && step.user.uid != world.ownUid
    requires CommandFor(state.commands, step.user, step.message) == Some(i)
    ensures var next, command := Dispatched(state, step, world).0, state.commands[i];
            && (next.started <==> command.name == "start" || (state.started && command.name != "stop"))
            && (command.name == "reload" ==>
                  next.commands == step.reload.commands && next.rules == step.reload.rules)
            && (command.name != "reload" ==>
                  && next.rules == state.rules && |next.commands| == |state.commands|
                  && (forall k :: 0 <= k < |state.commands| && k != i ==> next.commands[k] == state.commands[k])
                  && next.commands[i] == command.(outputs := next.commands[i].outputs)
                  && |next.commands[i].outputs| == |command.outputs|
                  && forall k :: 0 <= k < |command.outputs| ==>
                       next.commands[i].outputs[k] ==
                       if k == step.random % |command.outputs|
                       then command.outputs[k].(messageName := MessageName(step.message.kind))
                       else command.outputs[k])
  {
  }

  // ----- Runs

  lemma {:induction false} DispatchStaysLoaded(state: BotState, step: Step, world: World)
    requires Loaded(state.rules) && Loaded(step.reload.rules)
    ensures Loaded(Dispatched(state, step, world).0.rules)
  {
  }

  function Run(state: BotState, steps: seq<Step>, world: World): (BotState, seq<Event>)
    requires Loaded(state.rules) && forall s :: s in steps ==> Loaded(s.reload.rules)
    decreases |steps|
  {
    if steps == [] then (state, [])
    else
      DispatchStaysLoaded(state, steps[0], world);
      var (next, events) := Dispatched(state, steps[0], world);
      var (last, rest) := Run(next, steps[1..], world);
      (last, events + rest)
  }

  /** Whether the bot is started after a trace, read off the executed start and stop commands. */
  function StartedAfter(initially: bool, trace: seq<Event>): bool
    decreases trace
  {
    if trace == [] then initially
    else StartedAfter(if trace[0] == Selected("start") then true
                      else if trace[0] == Selected("stop") then false
                      else initially, trace[1..])
  }

  predicate IsRuleOutput(event: Event) {
    event.Sent? && event.origin.FromRule?
  }

  /** Rule outputs are only sent while started. */
  predicate RuleOutputsOnlyWhileStarted(initially: bool, trace: seq<Event>) {
    forall k :: 0 <= k < |trace| && IsRuleOutput(trace[k]) ==> StartedAfter(initially, trace[..k])
  }

  predicate NoSwitch(trace: seq<Event>) {
    forall e :: e in trace ==> !e.Selected?
  }

  predicate NoRuleOutput(trace: seq<Event>) {
    forall e :: e in trace ==> !IsRuleOutput(e)
  }

  lemma {:induction false} StartedAfterConcat(initially: bool, a: seq<Event>, b: seq<Event>)
    ensures StartedAfter(initially, a + b) == StartedAfter(StartedAfter(initially, a), b)
    decreases a
  {
    if a == [] {
      assert a + b == b;
    } else {
      assert (a + b)[1..] == a[1..] + b;
      var next := if a[0] == Selected("start") then true else if a[0] == Selected("stop") then false else initially;
      StartedAfterConcat(next, a[1..], b);
    }
  }

  lemma {:induction false} NoSwitchNoChange(initially: bool, trace: seq<Event>)
    requires NoSwitch(trace)
    ensures StartedAfter(initially, trace) == initially
  {
    if trace != [] {
      assert trace[0] in trace;
      NoSwitchNoChange(initially, trace[1..]);
    }
  }

  lemma {:induction false} SafeConcat(initially: bool, a: seq<Event>, b: seq<Event>)
    requires RuleOutputsOnlyWhileStarted(initially, a)
    requires RuleOutputsOnlyWhileStarted(StartedAfter(initially, a), b)
    ensures RuleOutputsOnlyWhileStarted(initially, a + b)
  {
    forall k | 0 <= k < |a + b| && IsRuleOutput((a + b)[k])
      ensures StartedAfter(initially, (a + b)[..k])
    {
      if k < |a| {
        assert (a + b)[..k] == a[..k];
      } else {
        assert (a + b)[..k] == a + b[..k - |a|];
        StartedAfterConcat(initially, a, b[..k - |a|]);
        assert (a + b)[k] == b[k - |a|];
      }
    }
  }

  lemma {:induction false} CommandEventsAreQuiet(
      name: string, arguments: string, command: Command, step: Step, world: World)
    ensures var said := Picked(command, step, world).1;
            var events := CommandEvents(name, arguments, said, step, world);
            NoSwitch(events) && NoRuleOutput(events)
  {
    var said := Picked(command, step, world).1;
    assert NoSwitch(said) && NoRuleOutput(said);
    assert NoSwitch(Idle(step)) && NoRuleOutput(Idle(step));
  }

  /** A command announces itself, sends no rule output, and only start and stop switch the bot. */
  lemma {:induction false} CommandStepIsSafe(state: BotState, i: nat, step: Step, world: World)
    requires i < |state.commands|
    ensures var (after, events) := CommandStep(state, i, step, world);
            && events != [] && events[0] == Selected(state.commands[i].name)
            && NoSwitch(events[1..]) && NoRuleOutput(events)
            && after.started == StartedAfter(state.started, events)
  {
    var name := state.commands[i].name;
    var (after, events) := CommandStep(state, i, step, world);
    var arguments := SplitCommand(InputFor(step.message), '!').arguments;
    CommandEventsAreQuiet(name, arguments, state.commands[i], step, world);
    var next := if name == "start" then true else if name == "stop" then false else state.started;
    NoSwitchNoChange(next, events[1..]);
    assert "start" != "stop" && "reload" != "start" && "reload" != "stop";
    assert after.started == next;
  }

  lemma {:induction false} RuleStepIsSafe(state: BotState, step: Step, world: World)
    requires Loaded(state.rules) && state.started
    ensures var (after, events) := RuleStep(state, step, world);
            && NoSwitch(events) && after.started
            && RuleOutputsOnlyWhileStarted(true, events)
  {
    var (after, events) := RuleStep(state, step, world);
    forall k | 0 <= k < |events|
      ensures StartedAfter(true, events[..k])
    {
      assert NoSwitch(events[..k]);
      NoSwitchNoChange(true, events[..k]);
    }
  }

  lemma {:induction false} DispatchIsSafe(state: BotState, step: Step, world: World)
    requires Loaded(state.rules)
    ensures var (after, events) := Dispatched(state, step, world);
            && after.started == StartedAfter(state.started, events)
            && RuleOutputsOnlyWhileStarted(state.started, events)
  {
    var (after, events) := Dispatched(state, step, world);
    var command := CommandFor(state.commands, step.user, step.message);
    if step.user.uid != world.ownUid {
      if command.Some? {
        CommandStepIsSafe(state, command.value, step, world);
        assert forall k :: 0 <= k < |events| ==> events[k] in events;
      } else if state.started {
        RuleStepIsSafe(state, step, world);
        NoSwitchNoChange(true, events);
      }
    }
  }

  /** Over every run the started flag is what the executed start and stop commands say, and every
      rule output is sent while that is "started". */
  lemma {:induction false} RunIsSafe(state: BotState, steps: seq<Step>, world: World)
    requires Loaded(state.rules) && forall s :: s in steps ==> Loaded(s.reload.rules)
    ensures var (last, trace) := Run(state, steps, world);
            && last.started == StartedAfter(state.started, trace)
            && RuleOutputsOnlyWhileStarted(state.started, trace)
    decreases |steps|
  {
    if steps != [] {
      DispatchStaysLoaded(state, steps[0], world);
      DispatchIsSafe(state, steps[0], world);
      var (next, events) := Dispatched(state, steps[0], world);
      RunIsSafe(next, steps[1..], world);
      var (last, rest) := Run(next, steps[1..], world);
      SafeConcat(state.started, events, rest);
      StartedAfterConcat(state.started, events, rest);
    }
  }

  /** The same, without the flag: the bot starts out started, so between any executed stop command
      and a later rule output there is an executed start command. */
  lemma {:induction false} StopSilencesRules(state: BotState, steps: seq<Step>, world: World)
    requires Loaded(state.rules) && forall s :: s in steps ==> Loaded(s.reload.rules)
    ensures var trace := Run(state, steps, world).1;
            forall j, k :: 0 <= j < k < |trace| && trace[j] == Selected("stop") && IsRuleOutput(trace[k]) ==>
              exists i :: j < i < k && trace[i] == Selected("start")
  {
    RunIsSafe(state, steps, world);
    var trace := Run(state, steps, world).1;
    forall j, k | 0 <= j < k < |trace| && trace[j] == Selected("stop") && IsRuleOutput(trace[k])
      ensures exists i :: j < i < k && trace[i] == Selected("start")
    {
      var i := StopThenRule(state.started, trace, j, k);
    }
  }

  lemma {:induction false} StopThenRule(initially: bool, trace: seq<Event>, j: nat, k: nat) returns (i: nat)
    requires j < k < |trace| && trace[j] == Selected("stop") && StartedAfter(initially, trace[..k])
    ensures j < i < k && trace[i] == Selected("start")
  {
    var front, stop, tail := trace[..j], [Selected("stop")], trace[j + 1..k];
    assert trace[..k] == front + (stop + tail);
    StartedAfterConcat(initially, front, stop + tail);
    StartedAfterConcat(StartedAfter(initially, front), stop, tail);
    assert stop[1..] == [] && "start" != "stop";
    i := StartedAgain(tail);
    assert trace[j + 1 + i] == tail[i];
    i := j + 1 + i;
  }

  lemma {:induction false} StartedAgain(trace: seq<Event>) returns (i: nat)
    requires StartedAfter(false, trace)
    ensures i < |trace| && trace[i] == Selected("start")
  {
    if trace[0] == Selected("start") {
      i := 0;
    } else {
      i := StartedAgain(trace[1..]);
      i := i + 1;
    }
  }

  /** Being stopped does not touch commands: the same command runs with the same events and leaves
      the same dictionary. */
  lemma {:induction false} CommandsIgnoreStopped(state: BotState, step: Step, world: World)
    requires Loaded(state.rules) && CommandFor(state.commands, step.user, step.message).Some?
    ensures var (running, events) := Dispatched(state.(started := true), step, world);
            var (stopped, events') := Dispatched(state.(started := false), step, world);
            events == events' && running.commands == stopped.commands && running.rules == stopped.rules
  {
  }

  /** The messages that others sent. */
  function FromOthers(steps: seq<Step>, world: World): (others: seq<Step>)
    ensures forall s :: s in others ==> s in steps
  {
    if steps == [] then []
    else
      var rest := FromOthers(steps[1..], world);
      if steps[0].user.uid == world.ownUid then rest else [steps[0]] + rest
  }

  /** The bot's own messages can be deleted from any run: the state it ends in and everything sent
      stay the same. */
  lemma {:induction false} OwnMessagesAreIgnored(state: BotState, steps: seq<Step>, world: World)
    requires Loaded(state.rules) && forall s :: s in steps ==> Loaded(s.reload.rules)
    ensures Run(state, FromOthers(steps, world), world) == Run(state, steps, world)
    decreases |steps|
  {
    if steps != [] {
      var others := FromOthers(steps, world);
      DispatchStaysLoaded(state, steps[0], world);
      var (next, events) := Dispatched(state, steps[0], world);
      OwnMessagesAreIgnored(next, steps[1..], world);
      if steps[0].user.uid == world.ownUid {
        assert [] + Run(next, steps[1..], world).1 == Run(next, steps[1..], world).1;
      } else {
        assert others[0] == steps[0] && others[1..] == FromOthers(steps[1..], world);
      }
    }
  }

  /** End to end: an addressed nick command with arguments sends a line that the client's own
      command parser takes for the "nick" row with exactly the arguments typed in the chat. */
  lemma {:induction false} NickCommandReachesNickRow(state: BotState, i: nat, step: Step, world: World,
                                  connected: bool, parse: Commands.ArgumentParser)
    requires CommandFor(state.commands, step.user, step.message) == Some(i)
    requires state.commands[i].name == "nick"
    requires SplitCommand(step.message.text, '!').arguments != ""
    ensures var arguments := SplitCommand(step.message.text, '!').arguments;
            var events := CommandStep(state, i, step, world).1;
            && |events| > 1 && events[1].Sent? && events[1].line == "/nick " + arguments && !events[1].chat
            && Commands.Parsed(events[1].line, events[1].chat, connected, parse) ==
               Commands.Routed(19, "nick", arguments, connected, parse)
            && ((Commands.Parsed(events[1].line, events[1].chat, connected, parse) ==
                 Commands.Ran(19, arguments, parse(arguments, 0))) <==> parse(arguments, 0) != [])
            && step.message.text == "!nick " + arguments
  {
    var arguments := SplitCommand(step.message.text, '!').arguments;
    CommandWordsAgree(state.commands[i], step.user, step.message.text);
    NickText(step.message.text);
    NickIsSent(state, i, step, world);
    NickLineIsRouted(arguments, connected, parse);
  }

  lemma {:induction false} NickIsSent(state: BotState, i: nat, step: Step, world: World)
    requires i < |state.commands| && state.commands[i].name == "nick"
    requires SplitCommand(InputFor(step.message), '!').arguments != ""
    ensures var events := CommandStep(state, i, step, world).1;
            |events| > 1 &&
            events[1] == Sent(FromCommand, "/nick " + SplitCommand(InputFor(step.message), '!').arguments, false)
  {
    var arguments := SplitCommand(InputFor(step.message), '!').arguments;
    var said := Picked(state.commands[i], step, world).1;
    NickEvents(arguments, said, step, world);
  }

  lemma {:induction false} NickEvents(arguments: string, said: seq<Event>, step: Step, world: World)
    requires arguments != ""
    ensures CommandEvents("nick", arguments, said, step, world) ==
            [Sent(FromCommand, "/nick " + arguments, false)] + said
  {
    assert "nick" != "reload" && "nick" != "stop" && "nick" != "sleep";
  }

  lemma {:induction false} NickLine(arguments: string)
    ensures "/" + "nick" + " " + arguments == "/nick " + arguments
  {
  }

  lemma {:induction false} NickRow()
    ensures |CommandTable.TABLE| > 19 && CommandTable.TABLE[19] == CommandTable.Entry("nick", false, 1, 0)
  {
  }

  lemma {:induction false} NickLineIsRouted(arguments: string, connected: bool, parse: Commands.ArgumentParser)
    ensures Commands.Parsed("/nick " + arguments, false, connected, parse) ==
            Commands.Routed(19, "nick", arguments, connected, parse)
    ensures (Commands.Parsed("/nick " + arguments, false, connected, parse) ==
             Commands.Ran(19, arguments, parse(arguments, 0))) <==> parse(arguments, 0) != []
  {
    NickRow();
    NickLine(arguments);
    Commands.NamedLineReachesItsRow("/nick " + arguments, 19, "nick", arguments, connected, parse);
  }

  lemma {:induction false} NickText(text: string)
    requires "!" <= text && SplitCommand(text, '!').word == "nick" && SplitCommand(text, '!').arguments != ""
    ensures text == "!nick " + SplitCommand(text, '!').arguments
  {
    var arguments := SplitCommand(text, '!').arguments;
    BotArguments.SplitCommandLosesNothing(text, '!');
    assert "!" + "nick" + (" " + arguments) == "!nick " + arguments;
  }

  // ----- The bot object

  class Bot {
    const world: World
    var started: bool
    var commands: seq<Command>
    var rules: seq<Rule>

    constructor (world: World, commands: seq<Command>, rules: seq<Rule>)
      ensures this.world == world && State() == BotState(true, commands, rules)
    {
      this.world, this.commands, this.rules := world, commands, rules;
      started := true;
    }

    function State(): BotState
      reads this
    {
      BotState(started, commands, rules)
    }

    /** `wb_bot_outputs_for_message`: None exactly when no rule can be selected; otherwise the
        stamped outputs of the first rule that can, which keep the stamp in the dictionary. */
    method OutputsForMessage(user: User, message: Message) returns (outputs: Option<seq<Output>>)
      modifies this`rules
      ensures outputs.None? <==> forall k :: 0 <= k < |old(rules)| ==> !Selectable(old(rules)[k], user, message, world)
      ensures outputs.None? ==> rules == old(rules)
      ensures outputs.Some? ==>
                var first := FirstRule(old(rules), user, message, world, 0);
                first.Some? && var rule := SelectedRule(old(rules), first.value, user, message, world);
                outputs.value == rule.outputs && rules == old(rules)[first.value := rule]
    {
      for i := 0 to |rules|
        invariant rules == old(rules)
        invariant FirstRule(rules, user, message, world, 0) == FirstRule(rules, user, message, world, i)
      {
        var rule := rules[i];
        var allowed := CheckPermissions(user, rule.permissions);
        if rule.activated && allowed {
          for j := 0 to |rule.inputs|
            invariant rules == old(rules)
            invariant FirstInput(rule.inputs, message, world, 0) == FirstInput(rule.inputs, message, world, j)
          {
            var input := rule.inputs[j];
            if MessageName(message.kind) == input.messageName && TextMatches(input, InputFor(message), world) {
              var results := [];
              for k := 0 to |rule.outputs|
                invariant results == Stamped(rule.outputs, input.text)[..k]
              {
                results := results + [rule.outputs[k].(inputText := input.text)];
              }
              rules := rules[i := rule.(outputs := results)];
              return Some(results);
            }
          }
        }
      }
      return None;
    }

    method CommandForMessage(user: User, message: Message) returns (command: Option<nat>)
      ensures command == CommandFor(commands, user, message)
    {
      if !message.kind.Say? && !message.kind.Private? {
        return None;
      }
      var word := Split(message.text, ' ')[0];
      for i := 0 to |commands|
        invariant CommandFor(commands, user, message) == FirstCommand(commands, user, word, i)
      {
        if commands[i].activated && word == "!" + commands[i].name {
          var allowed := CheckPermissions(user, commands[i].permissions);
          if allowed {
            return Some(i);
          }
        }
      }
      return None;
    }

    method ExecuteOutput(origin: Origin, output: Output, user: User) returns (events: seq<Event>)
      ensures events == OutputEvents(origin, output, user, world)
    {
      events := [];
      if output.text.None? {
        return;
      }
      var repeat := output.repeat;
      if repeat < 1 {
        repeat := 1;
      }
      for i := 0 to repeat
        invariant events == OutputEvents(origin, output, user, world)[..i]
      {
        events := events + [Sent(origin, world.render(output, user), IsChat(output))];
      }
    }

    /** Executes command `i` on behalf of `step`; `args` is the argument text split off before. */
    method ExecuteCommand(i: nat, args: string, step: Step) returns (events: seq<Event>)
      requires i < |commands| && args == SplitCommand(InputFor(step.message), '!').arguments
      modifies this`started, this`commands, this`rules
      ensures (State(), events) == CommandStep(old(State()), i, step, world)
    {
      var command := commands[i];
      events := [Selected(command.name)];
      var said := [];
      if |command.outputs| > 0 {
        var k := step.random % |command.outputs|;
        var output := command.outputs[k].(messageName := MessageName(step.message.kind));
        commands := commands[i := command.(outputs := command.outputs[k := output])];
        said := ExecuteOutput(FromCommand, output, step.user);
      }
      ghost var picked := Picked(command, step, world);
      assert commands == old(commands)[i := picked.0] && said == picked.1;
      var sent := [];
      if command.name == "reload" {
        commands, rules := step.reload.commands, step.reload.rules;
        sent := if step.reload.loaded then said
                else [Sent(FromCommand, "/me failed to reload the dictionary...", true)];
      } else if command.name == "start" {
        started := true;
        sent := said;
      } else if command.name == "stop" {
        sent := said + Idle(step);
        started := false;
      } else if command.name == "nick" {
        if |args| > 0 {
          sent := [Sent(FromCommand, "/nick " + args, false)];
        }
        sent := sent + said;
      } else if command.name == "status" {
        sent := [Sent(FromCommand, "/status " + args, false)] + said;
      } else if command.name == "sleep" {
        sent := said + Idle(step);
      } else if command.name == "help" {
        var output := Output(MessageName(step.message.kind), None, Some(world.help), 0);
        sent := ExecuteOutput(FromCommand, output, step.user);
      } else {
        sent := said;
      }
      assert sent == CommandEvents(command.name, args, said, step, world);
      events := events + sent;
    }

    /** `wb_bot_dispatch_message` for a sender who is in the public chat. */
    method DispatchMessage(step: Step) returns (events: seq<Event>)
      requires Loaded(rules)
      modifies this`started, this`commands, this`rules
      ensures (State(), events) == Dispatched(old(State()), step, world)
    {
      var buffer := InputFor(step.message);
      if step.user.uid == world.ownUid {
        return [];
      }
      var line := SplitCommand(buffer, '!');
      var command := CommandForMessage(step.user, step.message);
      if command.Some? {
        events := ExecuteCommand(command.value, line.arguments, step);
        return;
      }
      if started {
        var outputs := OutputsForMessage(step.user, step.message);
        if outputs.Some? {
          var results := outputs.value;
          assert old(rules)[FirstRule(old(rules), step.user, step.message, world, 0).value] in old(rules);
          var output := results[0];
          if |results| > 1 {
            output := results[step.random % |results|];
          }
          events := ExecuteOutput(FromRule, output, step.user);
          return;
        }
      }
      return [];
    }

    /** A whole run of messages, from whatever state the bot is in. */
    method HandleMessages(steps: seq<Step>) returns (trace: seq<Event>)
      requires Loaded(rules) && forall s :: s in steps ==> Loaded(s.reload.rules)
      modifies this`started, this`commands, this`rules
      ensures (State(), trace) == Run(old(State()), steps, world)
      ensures RuleOutputsOnlyWhileStarted(old(started), trace)
    {
      trace := [];
      ghost var goal := Run(State(), steps, world);
      ghost var rest := goal.1;
      assert steps[0..] == steps && [] + rest == rest;
      for i := 0 to |steps|
        invariant Loaded(rules)
        invariant Run(State(), steps[i..], world) == (goal.0, rest) && trace + rest == goal.1
      {
        assert steps[i..][0] == steps[i] && steps[i..][1..] == steps[i + 1..];
        ghost var before := State();
        DispatchStaysLoaded(before, steps[i], world);
        var events := DispatchMessage(steps[i]);
        RunPeels(before, steps[i..], world, State(), events);
        ghost var later := Run(State(), steps[i + 1..], world).1;
        Associate(trace, events, later);
        trace, rest := trace + events, later;
      }
      RunIsSafe(old(State()), steps, world);
      assert trace + [] == trace;
    }
  }

  lemma {:induction false} RunPeels(state: BotState, steps: seq<Step>, world: World, next: BotState, events: seq<Event>)
    requires Loaded(state.rules) && steps != [] && forall s :: s in steps ==> Loaded(s.reload.rules)
    requires Dispatched(state, steps[0], world) == (next, events)
    ensures Loaded(next.rules)
    ensures var (last, rest) := Run(next, steps[1..], world);
            Run(state, steps, world) == (last, events + rest)
  {
    DispatchStaysLoaded(state, steps[0], world);
  }
}
