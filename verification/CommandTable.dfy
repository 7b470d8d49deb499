/** The command table of the client (wirebot/commands.c). */
module CommandTable {

  /** One row of the command table, without its help texts and completer. */
  datatype Entry = Entry(name: string, connected: bool, optargs: nat, optindex: int)

  const TABLE: seq<Entry> := [
    Entry("broadcast", true, 1, 0),
    Entry("charset", false, 1, -1),
    Entry("clear", false, 0, -1),
    Entry("close", false, 0, -1),
    Entry("connect", false, 1, -1),
    Entry("disconnect", true, 0, -1),
    Entry("echo", false, 1, 0),
    Entry("exit", false, 0, -1),
    Entry("help", false, 0, -1),
    Entry("icon", false, 1, -1),
    Entry("ignore", false, 0, -1),
    Entry("ignores", false, 0, -1),
    Entry("info", true, 1, -1),
    Entry("invite", true, 1, -1),
    Entry("join", false, 1, -1),
    Entry("load", false, 1, -1),
    Entry("log", false, 1, -1),
    Entry("me", true, 1, 0),
    Entry("msg", true, 2, 1),
    Entry("nick", false, 1, 0),
    Entry("open", false, 1, -1),
    Entry("privchat", true, 0, -1),
    Entry("quit", false, 0, -1),
    Entry("save", false, 1, -1),
    Entry("say", true, 1, 0),
    Entry("server", false, 1, -1),
    Entry("serverinfo", true, 0, -1),
    Entry("status", false, 0, 0),
    Entry("timestamp", false, 0, 0),
    Entry("topic", true, 0, 0),
    Entry("unignore", false, 0, -1),
    Entry("uptime", false, 0, -1),
    Entry("version", false, 0, -1),
    Entry("who", true, 0, -1),
    Entry("whois", true, 1, -1),
    Entry("ls", true, 0, -1),
    Entry("mv", true, 2, 1),
    Entry("rm", true, 1, 1),
    Entry("subscribe", true, 1, 1),
    Entry("unsubscribe", true, 1, 1)
  ]

  // The names, four rows at a time.

  lemma {:induction false} Names0()
    ensures TABLE[0].name == "broadcast" && TABLE[1].name == "charset"
    ensures TABLE[2].name == "clear" && TABLE[3].name == "close"
  {
    assert TABLE[0] == Entry("broadcast", true, 1, 0) && TABLE[1] == Entry("charset", false, 1, -1);
    assert TABLE[2] == Entry("clear", false, 0, -1) && TABLE[3] == Entry("close", false, 0, -1);
  }

  lemma {:induction false} Names4()
    ensures TABLE[4].name == "connect" && TABLE[5].name == "disconnect"
    ensures TABLE[6].name == "echo" && TABLE[7].name == "exit"
  {
    assert TABLE[4] == Entry("connect", false, 1, -1) && TABLE[5] == Entry("disconnect", true, 0, -1);
    assert TABLE[6] == Entry("echo", false, 1, 0) && TABLE[7] == Entry("exit", false, 0, -1);
  }

  lemma {:induction false} Names8()
    ensures TABLE[8].name == "help" && TABLE[9].name == "icon"
    ensures TABLE[10].name == "ignore" && TABLE[11].name == "ignores"
  {
    assert TABLE[8] == Entry("help", false, 0, -1) && TABLE[9] == Entry("icon", false, 1, -1);
    assert TABLE[10] == Entry("ignore", false, 0, -1) && TABLE[11] == Entry("ignores", false, 0, -1);
  }

  lemma {:induction false} Names12()
    ensures TABLE[12].name == "info" && TABLE[13].name == "invite"
    ensures TABLE[14].name == "join" && TABLE[15].name == "load"
  {
    assert TABLE[12] == Entry("info", true, 1, -1) && TABLE[13] == Entry("invite", true, 1, -1);
    assert TABLE[14] == Entry("join", false, 1, -1) && TABLE[15] == Entry("load", false, 1, -1);
  }

  lemma {:induction false} Names16()
    ensures TABLE[16].name == "log" && TABLE[17].name == "me"
    ensures TABLE[18].name == "msg" && TABLE[19].name == "nick"
  {
    assert TABLE[16] == Entry("log", false, 1, -1) && TABLE[17] == Entry("me", true, 1, 0);
    assert TABLE[18] == Entry("msg", true, 2, 1) && TABLE[19] == Entry("nick", false, 1, 0);
  }

  lemma {:induction false} Names20()
    ensures TABLE[20].name == "open" && TABLE[21].name == "privchat"
    ensures TABLE[22].name == "quit" && TABLE[23].name == "save"
  {
    assert TABLE[20] == Entry("open", false, 1, -1) && TABLE[21] == Entry("privchat", true, 0, -1);
    assert TABLE[22] == Entry("quit", false, 0, -1) && TABLE[23] == Entry("save", false, 1, -1);
  }

  lemma {:induction false} Names24()
    ensures TABLE[24].name == "say" && TABLE[25].name == "server"
    ensures TABLE[26].name == "serverinfo" && TABLE[27].name == "status"
  {
    assert TABLE[24] == Entry("say", true, 1, 0) && TABLE[25] == Entry("server", false, 1, -1);
    assert TABLE[26] == Entry("serverinfo", true, 0, -1) && TABLE[27] == Entry("status", false, 0, 0);
  }

  lemma {:induction false} Names28()
    ensures TABLE[28].name == "timestamp" && TABLE[29].name == "topic"
    ensures TABLE[30].name == "unignore" && TABLE[31].name == "uptime"
  {
    assert TABLE[28] == Entry("timestamp", false, 0, 0) && TABLE[29] == Entry("topic", true, 0, 0);
    assert TABLE[30] == Entry("unignore", false, 0, -1) && TABLE[31] == Entry("uptime", false, 0, -1);
  }

  lemma {:induction false} Names32()
    ensures TABLE[32].name == "version" && TABLE[33].name == "who"
    ensures TABLE[34].name == "whois" && TABLE[35].name == "ls"
  {
    assert TABLE[32] == Entry("version", false, 0, -1) && TABLE[33] == Entry("who", true, 0, -1);
    assert TABLE[34] == Entry("whois", true, 1, -1) && TABLE[35] == Entry("ls", true, 0, -1);
  }

  lemma {:induction false} Names36()
    ensures TABLE[36].name == "mv" && TABLE[37].name == "rm"
    ensures TABLE[38].name == "subscribe" && TABLE[39].name == "unsubscribe"
  {
    assert TABLE[36] == Entry("mv", true, 2, 1) && TABLE[37] == Entry("rm", true, 1, 1);
    assert TABLE[38] == Entry("subscribe", true, 1, 1) && TABLE[39] == Entry("unsubscribe", true, 1, 1);
  }
}
