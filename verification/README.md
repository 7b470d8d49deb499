# Wirebot: a verified model

Wirebot is a chat robot for the Wired protocol, written in C. This project models the parts of it
that keep state or transform text, and proves what they promise:

| file | what it models |
|---|---|
| `Transfers.dfy`, `TransferQueue.dfy` | the transfer queue: the five functions that call each other in a cycle, with a termination measure, against a closed form of what they come to; what every run of the queue keeps |
| `DirectoryWalk.dfy` | the depth-bounded directory walk that queues an upload, and the remote paths it makes |
| `Watchers.dfy`, `WatcherMessages.dfy` | directory watchers, the difference of two listings, and the message handlers under one shared "subscribing" flag |
| `WatcherTemplate.dfy` | expansion of a watcher's output text |
| `BotEngine.dfy`, `BotArguments.dfy` | rule and command selection, start/stop over runs, and the two ways a chat line is split |
| `Commands.dfy`, `CommandTable.dfy`, `CommandLines.dfy` | the client's command table, the routing of a line, and the split into command word and arguments that bot and client share |
| `Quoting.dfy` | file name quoting: printer, parser and position classifier |
| `Chats.dfy` | chats with a user array and a user dictionary, under the chat messages |
| `Windows.dfy` | the window list with its current window |
| `Text.dfy`, `Sequences.dfy` | search, split and join on plain strings; two operations on sequences |

C functions that change objects in place are classes with methods; each method's contract gives the
new state as a function of the old one, and the lemmas are about those functions. libwired's arrays,
dictionaries and strings have their plain meaning: splitting keeps empty components, replacing acts
on all non-overlapping occurrences from left to right, equal users have equal ids. Answers of the
surroundings that the code cannot control are parameters: the local disk during a call, the random
number, libwired's text comparison and argument splitter, the expansion of an output. Integers are
unbounded.

## Findings

- Dequoting undoes quoting exactly for the names in which every backslash stands directly before a
  space or a quote (`Quoting.DequoteUndoesQuote`): quoting does not escape backslashes.
- Dequoting a text with an odd run of trailing backslashes moves its pointer past the terminator
  (`Quoting.DequoteFilename`).
- A directory change that arrives while a watcher's listing is still being received splits that
  listing in two. `WatcherMessages.LoweredFlagSplitsListing` says, over every interleaved run in which
  a listing completes after the change, how often each file is announced and its removal logged, and
  what baseline is left: a file that never leaves is left unannounced exactly when it was listed
  before the change and, if another listing follows, also after it. The handler itself asks for that
  other listing, so a file that was listed first and stays is announced as new
  (`ListedFileIsAnnounced`).
- After a reconnect the flag is raised over the old baseline. That baseline and the new listing become
  one, in silence: what arrived while the bot was away is never announced while it stays, and what
  left is only logged as removed by a later listing (`WatcherMessages.ResubscriptionJoinsBaselines`).
- A watcher without outputs logs removals but no additions (`Watchers.LogBalances`).
- A watcher path with an `@` can join the text after it into a placeholder that the template did not
  contain. `WatcherTemplate.SafeIsExact` gives the exact condition on the path: the two passes mean
  what the template says for every text and file name if and only if no file placeholder can be
  inside the path, begin in it, end in it, or contain it. `AtSignInPathCanForgePlaceholder` is an
  instance; for absolute paths only the first two matter (`AbsolutePathsAreSafe`).
- A command line whose command word is empty is taken for "broadcast", the first row of the table:
  "/", "/ text" and, outside chats, the empty line and lines that begin with a space
  (`Commands.EmptyWordReachesBroadcast`).
- Adding a user whose id is already present makes the dictionary and the array disagree
  (`Chats.Chat.AddUser`, `Chats.ChatList.OnUserAdded`); nothing in the handlers rules it out.
- Closing the console window would break the window list (`Windows.WindowList.CloseWindow`, an exact
  condition). Not closing it is a precondition that every caller keeps: the close command tests for a
  public chat window, and clearing the list tests for the console (wirebot/windows.c:101).
- The queue is safe but not live. Starting leaves a single-file upload at the head with no file open
  exactly when, past uploads without files and directories in which nothing can be read, the first
  transfer left is a single-file upload whose file cannot be read (`Transfers.StartedIsStuck`;
  `UnreadableFileBlocksQueue` is an example). From then on transfers can only be queued behind it and
  none is started (`Transfers.StuckStays`). A single-file download is given up exactly when its file
  exists or its partial file cannot be opened (`Transfers.DownloadIsGivenUp`); the transfer is not
  stopped then either, and blocks the queue in the same way (`Transfers.GivenUpDownloadBlocks`).
- A finished download whose name ends in ".WiredTransfer" already loses that ending when it is renamed
  (`Transfers.FinishedDownloadGetsItsName`, an exact condition).

## Model

| member | source | states |
|---|---|---|
| TransferQueue.TransferQueue.Start | wirebot/transfers.c:479-502 | started only on the head of the queue; the call cycle through request, close, next-or-stop and stop terminates and comes to the closed form `Started` |
| TransferQueue.TransferQueue.StartNextOrStop | wirebot/transfers.c:506-524 | a transfer with files left waits again and is started; one without leaves the queue and the next one is started |
| TransferQueue.TransferQueue.Request | wirebot/transfers.c:528-629 | opens the first file (a download under its partial name), or gives it up: closed, and for a directory the transfer goes on |
| TransferQueue.TransferQueue.GiveUp | wirebot/transfers.c:596-618 | the failure exits of a request: one file dropped; only directories continue |
| TransferQueue.TransferQueue.Stop | wirebot/transfers.c:722-734 | the head leaves and the new head, if any, is started |
| TransferQueue.Transfer.Close | wirebot/transfers.c:687-718 | drops the first position of all three arrays and closes the file |
| TransferQueue.Transfer.AddFile | wirebot/transfers.c:336-341 | appends to all three arrays and adds the size to the total; the arrays keep one length |
| TransferQueue.Transfer.DownloadAddFile | wirebot/transfers.c:318-351 | a remote file is queued under its local path with its size; a directory queues nothing |
| TransferQueue.DownloadKeepsPlace | wirebot/transfers.c:324-331 | for every name and download directory, a directory download puts each file at the folder of the download and the remote path below the master path; different remote files get different local paths |
| TransferQueue.SingleDownloadPlace | wirebot/transfers.c:326-341 | a single download is queued under its remote path, to be written into the download directory under the last component of that path |
| TransferQueue.Transfer.RemoveFiles | wirebot/transfers.c:448-473 | the nested removal loop removes the first match per listed file, keeps its count equal to the array length, and never takes the total below zero |
| TransferQueue.UploadAddFile | wirebot/transfers.c:355-444 | a file queues itself; a directory queues what the walk finds, with its total size; nothing is promised when the tree cannot be opened |
| TransferQueue.UploadEntriesArePlaced | wirebot/transfers.c:387-438 | a directory upload queues every file of the walk, in order, to be read under its own local path, to be written at the same place below the master path, with its size; no two at one remote path |
| TransferQueue.UploadedFileIsPlaced | wirebot/transfers.c:362-367 | a file upload queues that file, to be read where it is and to be written under its name below the root |
| TransferQueue.TransferQueue.NewTransfer | wirebot/transfers.c:241-300 | a new transfer waits, empty, with the next tid |
| TransferQueue.TransferQueue.QueueDownload | wirebot/transfers.c:185-196 | appends the transfer and starts it when its tid is 1 |
| TransferQueue.TransferQueue.QueueUpload | wirebot/transfers.c:200-229 | queues exactly when the path is readable and its tree opens; otherwise the queue is unchanged |
| TransferQueue.TransferQueue.OnDownloadListed | wirebot/transfers.c:306-351 | adding a listed file is the queue step on the download being served |
| TransferQueue.TransferQueue.OnCompleted | wirebot/transfers.c:91-109 | the end of a callback: the finished file is closed and the transfer goes on |
| TransferQueue.TransferQueue.OnFailed | wirebot/transfers.c:83-87 | a failed write stops the transfer being served |
| TransferQueue.TransferQueue.HandleAll | wirebot/transfers.c:65-734 | a run of events on the transfer objects is a run of the model's steps, one per event somebody is called for, and keeps what every run keeps |
| TransferQueue.EventsAreHeard | wirebot/transfers.c:65-229 | which events are steps: queueing always, but for an upload that cannot be read; the others exactly when the head is in the state they are about |
| Transfers.StartedIsRequested | wirebot/transfers.c:479-629 | dropping the longest unreadable prefix at once is what the one-file-at-a-time cycle comes to |
| Transfers.UnreadablePrefixGoes | wirebot/transfers.c:591-618 | a listed recursive upload loses exactly its longest unreadable prefix and opens the file after it; with nothing readable it leaves and the next transfer is started |
| Transfers.DirectoryUploadGoesOn | wirebot/transfers.c:506-618 | when a file of a listed directory upload is done, the transfer waits again with the first readable file after it open and the unreadable ones between gone; with nothing readable left it leaves and the next transfer is started |
| Transfers.DownloadGoesOn | wirebot/transfers.c:506-513 | when a file of a download is done and others are left, it waits again and asks for the next one; nobody else changes |
| Transfers.LastCompletionLeaves | wirebot/transfers.c:506-524 | when the last file of a transfer is done the transfer leaves and the one behind it is started |
| Transfers.FailureLeaves | wirebot/transfers.c:722-734 | a running transfer that fails leaves and the one behind it is started |
| Transfers.ReplyOpens | wirebot/transfers.c:528-629 | a reply opens the first file of a single-file transfer exactly when an upload's file is readable, or a download's does not exist and its partial file can be opened; otherwise that file alone is given up |
| Transfers.DirectoryDownloadGoesOn | wirebot/transfers.c:543-585 | a directory download whose file is given up asks for its next file, or leaves after the last |
| Transfers.QueueingAppends | wirebot/transfers.c:185-229 | a new transfer stands at the end, waiting, with what it was queued with, and is started exactly when it is the first |
| Transfers.AnswersChangeHead | wirebot/transfers.c:306-473 | a named file is appended to the head's files and total, a listing of the target makes the head listed and takes the named paths away, an opened connection makes it run; nothing else changes |
| Transfers.DownloadsArePartial | wirebot/transfers.c:539-582 | a download is opened only if its file does not exist, and then under its partial name, all else unchanged |
| Transfers.FinishedDownloadGetsItsName | wirebot/transfers.c:690-694 | the rename of a finished download restores the queued name exactly when that name is not a partial name itself, and the partial name is one that watchers pass over |
| Transfers.StepKeepsInv | wirebot/transfers.c:185-734 | every step keeps: tids and arrival order increasing, only the head in service, starts in order of arrival, totals covering the files left |
| Transfers.FirstComeFirstServed | wirebot/transfers.c:185-300 | over every run from the empty queue transfers are started in the order they were queued, tids are unique, and nothing behind the head has been started |
| Transfers.StartedAtOnceWhenEmpty | wirebot/transfers.c:194-229 | a new transfer has tid 1, and is started at once, exactly when the queue was empty |
| Transfers.StartedIsStuck | wirebot/transfers.c:479-618 | starting leaves an unopened single-file upload at the head exactly when, past ready uploads without files or with nothing readable in their directory, the first transfer is a single-file upload that cannot be read |
| Transfers.StuckStays | wirebot/transfers.c:185-229 | over every run in which nobody asks for the stuck head again, transfers are only queued behind it and none is started |
| Transfers.DownloadIsGivenUp | wirebot/transfers.c:539-585 | a requested single-file download loses its file, and nothing else happens, exactly when the file exists or its partial file cannot be opened |
| Transfers.GivenUpDownloadBlocks | wirebot/transfers.c:543-585 | over every run after a single-file download was given up, without another answer about it, transfers are only queued behind it and none is started |
| Transfers.UnreadableFileBlocksQueue | wirebot/transfers.c:596-605 | a queue in which an unreadable file leaves the head stuck and the transfer behind it unstarted |
| Transfers.SizesAreConserved | wirebot/transfers.c:185-734 | over every step, total size minus the sizes of the files left grows, for each transfer still queued, by exactly the sizes of the files the step dropped, which only the new head can have lost; a new transfer begins at nothing |
| Transfers.RemovalIsBagSubtraction | wirebot/transfers.c:448-473 | the remote paths left are the original bag minus the listed paths, and the surviving triples are a subsequence of the original ones |
| Transfers.FirstMatchGoes | wirebot/transfers.c:457-468 | it is the first entry with the listed path that is removed |
| DirectoryWalk.CollectFiles | wirebot/transfers.c:387-438 | the loop over the tree stream, with its skips, collects what the recursive walk reports |
| DirectoryWalk.WalkFindsExactlyEligible | wirebot/transfers.c:387-438 | exactly the files at depth at most ten with no dot-prefixed name from the root down are queued, each with its own path and size |
| DirectoryWalk.WalkIsInOrder | wirebot/transfers.c:387-438 | they are queued in strict preorder, hence each once |
| DirectoryWalk.QueuedBelowMaster | wirebot/transfers.c:423-425 | a queued file's remote path is the master path followed by the part of its local path below the source directory |
| DirectoryWalk.QueuedPathsDiffer | wirebot/transfers.c:423-431 | no two files of one walk get the same remote path |
| Watchers.Watcher.AddFile | wirebot/watcher.c:189-196 | collects without duplicates and says whether the path was new |
| Watchers.Watcher.AddNewFile | wirebot/watcher.c:198-205 | the same for the listing being received |
| Watchers.Watcher.FilesDiff | wirebot/watcher.c:207-243 | logs what went, announces what came with every output, and makes the new listing the baseline |
| Watchers.AnnouncedOncePerArrival | wirebot/watcher.c:207-243 | over any complete listings a path is announced, and each output run for it, once per arrival; its removal is logged once per departure |
| Watchers.PartialFilesAreSilent | wirebot/watcher.c:217-227 | files with the partial-transfer extension are never announced nor their removal logged |
| Watchers.EveryAdditionRunsItsOutputs | wirebot/watcher.c:228-234 | each announcement is directly followed by every output once, in order |
| Watchers.DifferenceIsInOrder | wirebot/watcher.c:207-243 | one comparison logs first the removal of every path the new listing lacks, in the order of the old one, then the addition of every path the old one lacks, in the order of the new one; partial files in neither, additions only with outputs |
| Watchers.LogBalances | wirebot/watcher.c:213-237 | additions minus removals of a path is its presence in the last listing minus that in the baseline exactly when the watcher has outputs or the path never arrives |
| WatcherMessages.WatcherBot.OnFileListed | wirebot/messages.c:651-668 | an entry goes to the baseline while subscribing and to the new listing otherwise, for the first watcher on its directory if activated |
| WatcherMessages.WatcherBot.OnListDone | wirebot/messages.c:672-687 | a completed listing is compared only when not subscribing |
| WatcherMessages.WatcherBot.OnDirectoryChanged | wirebot/messages.c:690-707 | lowers the shared flag and asks for the directory of an activated watcher again |
| WatcherMessages.WatcherBot.SubscribeWatchers | wirebot/bot.c:256-269 | raises the flag exactly when there is a watcher and, while connected, asks for a listing of and a subscription to every directory, in order |
| WatcherMessages.WatcherBot.WatcherForPath | wirebot/bot.c:286-301 | finds the first watcher on a path |
| WatcherMessages.WatcherBot.HandleAll | wirebot/messages.c:651-707 | a run of the handlers on the watcher objects is the run of the value model |
| WatcherMessages.InterleavingIsOwnComparison | wirebot/messages.c:651-707 | for every interleaving after a first or a later subscription a watcher's baseline and log are the comparison of its own complete listings with its baseline at the first directory change, whatever other watchers receive |
| WatcherMessages.DeactivatedIsUntouched | wirebot/messages.c:651-707 | over every run and under any flag, a watcher that is not activated collects nothing, logs nothing and asks for nothing |
| WatcherMessages.AskedOncePerChange | wirebot/messages.c:690-707 | over every run an activated watcher's directory is asked for exactly as often as it is reported changed, one that is not activated never |
| WatcherMessages.DirnameOfChild | wirebot/messages.c:656-658 | a listed file is taken for the watcher on the directory it is in |
| WatcherMessages.SharedFlagIsHarmless | wirebot/messages.c:651-707 | if the first listing completes before the first directory change, the baseline is the last complete listing without duplicates and nothing of the first listing is announced while it stays |
| WatcherMessages.LoweredFlagSplitsListing | wirebot/messages.c:651-707 | over every interleaved run in which any number of listings complete after the first directory change: every file is announced once per arrival and logged as removed once per departure from what the baseline held; exactly which staying files are announced; the baseline left; and, with one listing, exactly when anything is announced, removed or lost |
| WatcherMessages.ListedFileIsAnnounced | wirebot/messages.c:690-707 | a run in which a file listed first and never gone is announced, because the handler asks for another listing |
| WatcherMessages.ResubscriptionJoinsBaselines | wirebot/client.c:270 | after a second subscription the baseline is the old one and the new listing without duplicates, nothing is logged until a directory change, files that arrived in between are never announced while they stay, and the removal of files that left is logged by the first listing compared |
| WatcherTemplate.OutputIsSimultaneous | wirebot/watcher.c:299-315 | the two guarded passes equal the simultaneous substitution for every text and file name, for every safe path |
| WatcherTemplate.SafeIsExact | wirebot/watcher.c:299-315 | they are equal for every text and file name if and only if the path is safe: it contains no file placeholder, does not end with the beginning of one, does not begin with the end of one, and is no middle piece of one |
| WatcherTemplate.AbsolutePathsAreSafe | wirebot/watcher.c:299-315 | for absolute paths the first two conditions decide, and every absolute path without '@' is safe |
| WatcherTemplate.AtSignInPathCanForgePlaceholder | wirebot/watcher.c:304-309 | an unsafe path with an '@' and a text for which the two differ |
| BotArguments.Recompose | wirebot/bot.c:817-834 | the loop joins all components but the first with single spaces |
| BotArguments.ComponentsAgree | wirebot/bot.c:799-852 | first component and command word, remaining components and argument text agree for every text |
| BotArguments.DecomposeThenRecompose | wirebot/bot.c:799-852 | recomposing the decomposed text gives the other parser's argument text, runs of spaces included |
| BotArguments.SplitCommandLosesNothing | wirebot/bot.c:837-852 | mark, word, one space and arguments are the text again |
| BotEngine.CommandWordsAgree | wirebot/bot.c:352-380 | a command is addressed exactly when the text begins with '!' and the split command word is its name, it is activated and permitted |
| BotEngine.CheckPermissions | wirebot/bot.c:387-433 | allowed exactly when some comma-separated permission is "any", occurs in the nick ignoring case, or is the login |
| BotEngine.PermittedByComponent | wirebot/bot.c:387-433 | names joined by commas permit exactly those users for whom one of them is "any", their login, or stands somewhere in their nick, character by character and ignoring case |
| BotEngine.MatchesItsKind | wirebot/bot.c:438-510 | an input matches exactly the messages of its own kind: joins and leaves always, texts if they are empty, if the input has no text, or if the two compare |
| BotEngine.Bot.OutputsForMessage | wirebot/bot.c:306-350 | nothing exactly when no rule can be selected; otherwise the outputs of the first selectable rule, each carrying the text of its first matching input |
| BotEngine.Bot.CommandForMessage | wirebot/bot.c:352-380 | the first addressed command, for public and private chat text only |
| BotEngine.Bot.ExecuteOutput | wirebot/bot.c:532-560 | an output with text is sent as often as it is to be repeated, at least once |
| BotEngine.Bot.ExecuteCommand | wirebot/bot.c:563-641 | effect and events of every command |
| BotEngine.Bot.DispatchMessage | wirebot/bot.c:174-227 | own messages ignored, then commands, then rules if started |
| BotEngine.FirstRuleAnswers | wirebot/bot.c:206-224 | a started bot answers somebody else's message that means no command: the first rule that is on, permitted and has a matching input sends the output picked by the random number, with the text of its first matching input, as often as it is to be repeated; only that rule's outputs change |
| BotEngine.NobodyAnswers | wirebot/bot.c:206-227 | stopped, or with no rule that may answer, such a message does nothing |
| BotEngine.FirstMeantIsFound | wirebot/bot.c:352-380 | a command is found exactly when it is the first that is on, permitted and named after '!' by the text, in public or private chat |
| BotEngine.CommandSends | wirebot/bot.c:563-641 | started or stopped, a command that is meant announces itself and sends exactly: its picked output as often as it is to be repeated, with the status or nick line before it or going idle after it; help only the help text, a failed reload only the failure |
| BotEngine.CommandChanges | wirebot/bot.c:563-641 | start and stop set the flag, reload replaces rules and commands, every other command changes only the kind of the output it picked |
| BotEngine.Bot.HandleMessages | wirebot/bot.c:174-227 | over a run of messages every rule output is sent while started |
| BotEngine.RunIsSafe | wirebot/bot.c:174-227 | the started flag is what the executed start and stop commands say, and rule outputs appear only while it is set |
| BotEngine.StopSilencesRules | wirebot/bot.c:589-604 | between an executed stop and a later rule output there is an executed start |
| BotEngine.CommandsIgnoreStopped | wirebot/bot.c:199-206 | being stopped changes neither which command runs nor what it does |
| BotEngine.OwnMessagesAreIgnored | wirebot/bot.c:188-190 | deleting the bot's own messages from any run changes neither the state it ends in nor anything sent |
| BotEngine.NickCommandReachesNickRow | wirebot/bot.c:738-745 | a nick command typed in the chat reaches the client's "nick" row with exactly the typed arguments and runs it exactly when the argument splitter finds something in them |
| Commands.IndexIn | wirebot/commands.c:333-347 | the least index whose name has the typed word as a prefix, ignoring case |
| Commands.PrefixIsPointwise | wirebot/commands.c:342 | the comparison holds exactly when the word is no longer than the name and equal to it character by character, ignoring case |
| Commands.CaseIsIgnored | wirebot/commands.c:342 | two characters compare equal exactly when they are the same or the two cases of one letter |
| Commands.IndexForCommand | wirebot/commands.c:333-347 | the lookup loop finds it |
| Commands.EveryNameFindsItself | wirebot/commands.c:112-273 | no name of the table is shadowed: each, typed in full, finds its own row |
| Commands.ParseCommand | wirebot/commands.c:297-329 | the outcome of a line: not recognized, not connected, usage, or the row run with its arguments |
| Commands.OutcomeOfLine | wirebot/commands.c:297-329 | the first row whose name the command word begins runs exactly when it may run in this connection state and has its arguments; otherwise "not connected" or usage, exactly when; not recognized exactly without such a row |
| Commands.ChatTextIsSaidWhole | wirebot/commands.c:303-304 | chat text without a leading slash runs "say" with the whole text, or "echo" while disconnected, exactly when the argument splitter finds something in it |
| Commands.NamedCommandReachesItsRow | wirebot/commands.c:371-386 | "/name rest" reaches the row of that name with the rest unchanged, and runs it exactly when the connection state and the arguments allow it |
| Commands.EmptyWordReachesBroadcast | wirebot/commands.c:333-386 | for every line the first row is reached exactly when the command word is a prefix of "broadcast", ignoring case; exactly which lines have an empty word, and that they reach it |
| Quoting.QuoteFilename | wirebot/terminal.c:416-433 | writes the whole quoted text and its terminator inside 2 * length + 1 bytes |
| Quoting.EscapedCharacters | wirebot/terminal.c:424 | a backslash is put before exactly the six white-space characters and the two quotes |
| Quoting.DequoteFilename | wirebot/terminal.c:437-454 | stays in bounds and gives the dequoted text exactly when the text does not end in an odd run of backslashes |
| Quoting.CharIsQuoted | wirebot/terminal.c:206-219 | returns 1 exactly for escaping backslashes and the characters they escape |
| Quoting.RolesByParity | wirebot/terminal.c:206-219 | the left-to-right parse is decided by the parity of the run of backslashes before a position |
| Quoting.DanglingIsLastRole | wirebot/terminal.c:444-448 | the parse ends inside an escape exactly when the trailing run of backslashes is odd |
| Quoting.DequotedDropsEscapes | wirebot/terminal.c:444-449 | dequoting keeps exactly the characters that are not escaping backslashes |
| Quoting.DequoteUndoesQuote | wirebot/terminal.c:416-454 | dequoting undoes quoting exactly when every backslash stands directly before a space or quote, in particular without backslashes |
| Quoting.QuotedRoles | wirebot/terminal.c:423-428 | in a quoted backslash-free name the parse finds exactly the inserted backslashes and the characters after them |
| Quoting.QuotedLeavesNothingBare | wirebot/terminal.c:424-425 | in a quoted backslash-free name every space and quote is escaped |
| Chats.Chat.AddUser | wirebot/chats.c:207-210 | dictionary and array stay in agreement exactly when the uid was absent |
| Chats.Chat.RemoveUser | wirebot/chats.c:214-217 | removes the user from both and keeps them in agreement |
| Chats.Chat.RemoveAllUsers | wirebot/chats.c:221-224 | empties both |
| Chats.Chat.UserWithNick | wirebot/chats.c:234-255 | the first user in array order whose nick is the dequoted text |
| Chats.Chat.UserWithQuotedNick | wirebot/chats.c:234-255 | a nick typed in its quoted form finds the first user with that nick |
| Chats.ChatList.OnUserAdded | wirebot/messages.c:501-514 | list and join append one person to one chat; all indexes stay in agreement exactly when the uid was not in it |
| Chats.ChatList.OnUserLeave | wirebot/messages.c:518-533 | leave removes that uid from one chat; an unknown uid changes nothing |
| Chats.ChatList.OnUserStatus | wirebot/messages.c:469-497 | status replaces that person in the public chat only, seen through array and dictionary |
| Chats.ChatList.OnDisconnect | wirebot/chats.c:85-94 | one empty public chat is left, the same object |
| Chats.ChatList.Run | wirebot/chats.c:207-230 | after any legal run of messages lookup by uid equals a scan of the array in every chat |
| Chats.WhoIsWhere | wirebot/messages.c:469-533 | after one message, who is in which chat: joined and listed users come, those who leave go, a new chat is empty, a disconnect leaves the empty public chat, nobody else comes or goes |
| Windows.WindowList.OpenWindow | wirebot/windows.c:130-142 | appends a window with an id above all others |
| Windows.WindowList.CloseWindow | wirebot/windows.c:146-161 | removes the window and shows its left neighbour, never the closed one; the list stays well formed exactly when it is not the console |
| Windows.WindowList.Clear | wirebot/windows.c:92-110 | terminates with exactly the console, current, and touches no other window's status |
| Windows.WindowList.ShowNext | wirebot/windows.c:197-209 | the cursor moves one forward, round the end |
| Windows.WindowList.ShowPrevious | wirebot/windows.c:213-225 | the cursor moves one back, round the start |
| Windows.WindowList.ShowNextThenPrevious | wirebot/windows.c:197-225 | next and previous are inverse |
| Windows.CyclingVisitsEveryWindow | wirebot/windows.c:197-209 | where the cursor is after any number of presses up to the number of windows |
| Windows.WindowList.CycleThrough | wirebot/windows.c:197-209 | as many presses of next as there are windows show every window once, in order round the list, and end at the window they began with |

## Left out

- Sockets, TLS, login, run loop, signals, configuration files and XML loading: plumbing and foreign
  libraries.
- Terminal drawing, colours, key bindings, logging and printing.
- Reference counting and runtime classes.
- `wr_transfer_open` is commented out in the source; opening, the server's replies and the listing
  of an upload are steps of the surroundings on the head of the queue.
- Progress counters of a transfer (transferred bytes, keys) and the global stat and list states.
- TransferQueue.TransferQueue.Request: does not set the file's offset, size and checksum, because they
  only feed commands to the server that are commented out in the source.
- TransferQueue.Transfer.Close: does not model the rename of a finished download on the disk (the new
  name is `Transfers.FinishedDownloadGetsItsName`), nor closing the socket.
- TransferQueue.Transfer.DownloadAddFile: does not model the directories it creates on the disk.
- Transfers.StuckStays: a reply for a head that asked nothing, which the steps allow, is excluded.
- WatcherMessages.WatcherBot.OnDirectoryChanged: does not model the test for a connection before the
  list request; the message it handles came over that connection.
- Watcher services and the board message of a watcher output: the run of an output is one event. The
  list request after a directory change is an event.
- Reloading the dictionary: what it reads is a parameter of the step; icon and watcher subscriptions
  of a reload are not modelled.
- libwired's comparison of an input with a text: a parameter; only the cases decided before it are
  modelled. Messages without text (broadcasts) and senders outside the public chat are excluded.
- BotEngine.Bot.DispatchMessage: requires every rule to have an output, because with none the source
  reads an uninitialized pointer.
- BotEngine.Bot.ExecuteOutput: the delay before an output is dropped; the random choice of an output
  is a parameter of the step.
- Commands.ParseCommand: the actions of the rows, completers and help texts are not modelled; the
  splitting of an argument text into values is a parameter.
- Commands.HasPrefixIgnoringCase: case folding is for ASCII letters.
- Windows.WindowList.OpenWindow: creating a window and adding it, two calls in the source that always
  follow each other, are one step.
- Chats.ChatList.OnChatCreated: the server is taken never to hand out the public chat's id again.
- Integer widths: ids, counts and sizes do not wrap around.
