/** Chats and their users (wirebot/chats.c) under the chat handlers of wirebot/messages.c. */
module Chats {
  import opened Sequences
  import opened Text
  import Quoting

  const PUBLIC_CID: nat := 1

  class User {
    const uid: nat
    var nick: Quoting.CString
    var idle: bool
    var admin: bool
    var status: string

    constructor (person: Person)
      ensures View() == person
    {
      uid, nick, idle := person.uid, person.nick, person.idle;
      admin, status := person.admin, person.status;
    }

    function View(): Person
      reads this
    {
      Person(uid, nick, idle, admin, status)
    }

    method Update(news: Person)
      requires news.uid == uid
      modifies this
      ensures View() == news
    {
      if nick != news.nick {
        nick := news.nick;
      }
      idle, admin, status := news.idle, news.admin, news.status;
    }
  }

  /** What a user object says at one moment; also what a server message carries. */
  datatype Person = Person(uid: nat, nick: Quoting.CString, idle: bool, admin: bool, status: string)

  /** The first user of the array with the given uid. */
  function Scan(users: seq<User>, uid: nat): (r: Option<User>)
    ensures r.None? <==> forall u :: u in users ==> u.uid != uid
    ensures r.Some? ==> r.value in users && r.value.uid == uid
  {
    if users == [] then None
    else if users[0].uid == uid then Some(users[0])
    else Scan(users[1..], uid)
  }

  lemma {:induction false} ScanAppend(users: seq<User>, user: User, uid: nat)
    ensures Scan(users + [user], uid) ==
            if Scan(users, uid).Some? then Scan(users, uid)
            else if user.uid == uid then Some(user) else None
  {
    if users == [] {
      assert users + [user] == [user];
      assert [user][1..] == [];
    } else {
      assert (users + [user])[1..] == users[1..] + [user];
      ScanAppend(users[1..], user, uid);
    }
  }

  function Uids(users: seq<User>): (uids: seq<nat>)
    ensures |uids| == |users|
    ensures forall k :: 0 <= k < |users| ==> uids[k] == users[k].uid
  {
    seq(|users|, k requires 0 <= k < |users| => users[k].uid)
  }

  lemma {:induction false} UidsAppend(users: seq<User>, user: User)
    ensures Uids(users + [user]) == Uids(users) + [user.uid]
  {
  }

  lemma {:induction false} ScanIsPresence(users: seq<User>, uid: nat)
    ensures Scan(users, uid).Some? <==> uid in Uids(users)
  {
    var uids := Uids(users);
    assert forall k :: 0 <= k < |uids| ==> uids[k] in uids;
  }

  /** Where a uid first stands. */
  function FirstWith(uids: seq<nat>, uid: nat): (r: Option<nat>)
    ensures r.None? <==> uid !in uids
    ensures r.Some? ==> r.value < |uids| && uids[r.value] == uid && uid !in uids[..r.value]
  {
    if uids == [] then None
    else if uids[0] == uid then Some(0)
    else
      var rest := FirstWith(uids[1..], uid);
      if rest.None? then None
      else
        assert uids[..rest.value + 1] == [uids[0]] + uids[1..][..rest.value];
        Some(rest.value + 1)
  }

  /** `wi_mutable_array_remove_data`: what stood at the first position with an equal uid goes. Users
      are equal when their uids are; `uids` are those of `s`. */
  function Removed<T>(s: seq<T>, uids: seq<nat>, uid: nat): seq<T>
    requires |uids| == |s|
  {
    var k := FirstWith(uids, uid);
    if k.None? then s else Without(s, k.value)
  }

  predicate DistinctUids(users: seq<User>) {
    forall j, k :: 0 <= j < k < |users| ==> users[j].uid != users[k].uid
  }

  lemma {:induction false} ScanFinds(users: seq<User>, user: User)
    requires DistinctUids(users) && user in users
    ensures Scan(users, user.uid) == Some(user)
  {
  }

  lemma {:induction false} RemovedKeepsOthers(users: seq<User>, uid: nat)
    requires DistinctUids(users)
    ensures var left := Removed(users, Uids(users), uid);
            && DistinctUids(left) && (forall u :: u in left <==> u in users && u.uid != uid)
            && forall other :: Scan(left, other) == if other == uid then None else Scan(users, other)
  {
    var left, k := Removed(users, Uids(users), uid), FirstWith(Uids(users), uid);
    if k.None? {
      assert forall j :: 0 <= j < |users| ==> Uids(users)[j] in Uids(users);
    } else {
      forall j | 0 <= j < |users| && j != k.value
        ensures users[j] in left
      {
        assert left[if j < k.value then j else j - 1] == users[j];
      }
    }
    forall other
      ensures Scan(left, other) == if other == uid then None else Scan(users, other)
    {
      var found := Scan(users, other);
      if other != uid && found.Some? { ScanFinds(left, found.value); }
    }
  }

  predicate IsFirstWithNick(users: seq<User>, user: User, nick: string)
    reads users
  {
    exists i :: 0 <= i < |users| && users[i] == user && user.nick == nick &&
                forall k :: 0 <= k < i ==> users[k].nick != nick
  }

  lemma {:induction false} OnlyOneHas(users: seq<User>, user: User)
    requires DistinctUids(users) && user in users
    ensures forall k :: 0 <= k < |users| ==> (users[k].uid == user.uid <==> users[k] == user)
  {
  }

  // ----- Value view of a chat: the users in array order

  function People(users: seq<User>): (people: seq<Person>)
    reads users
    ensures |people| == |users|
    ensures forall k :: 0 <= k < |users| ==> people[k] == users[k].View()
  {
    if users == [] then [] else [users[0].View()] + People(users[1..])
  }

  /** The status message: the entry of that uid is replaced. */
  function Restate(people: seq<Person>, news: Person): (r: seq<Person>)
    ensures |r| == |people|
    ensures forall k :: 0 <= k < |r| ==> r[k] == if people[k].uid == news.uid then news else people[k]
  {
    seq(|people|, k requires 0 <= k < |people| => if people[k].uid == news.uid then news else people[k])
  }

  lemma {:induction false} PeopleAppend(users: seq<User>, user: User)
    ensures People(users + [user]) == People(users) + [user.View()]
  {
  }

  lemma {:induction false} PeopleRestated(users: seq<User>, before: seq<Person>, news: Person)
    requires |before| == |users|
    requires forall k :: 0 <= k < |users| ==>
               users[k].View() == if before[k].uid == news.uid then news else before[k]
    ensures People(users) == Restate(before, news)
  {
  }

  /** Users, what they say, and their uids go together. */
  lemma {:induction false} RemovedAlike(users: seq<User>, uid: nat)
    ensures var uids, left := Uids(users), Removed(users, Uids(users), uid);
            People(left) == Removed(People(users), uids, uid) && Uids(left) == Removed(uids, uids, uid)
  {
  }

  class Chat {
    const cid: nat
    var usersArray: seq<User>
    var usersDictionary: map<nat, User>

    constructor (cid: nat)
      ensures this.cid == cid && usersArray == [] && usersDictionary == map[]
    {
      this.cid := cid;
      usersArray, usersDictionary := [], map[];
    }

    function UserWithUid(uid: nat): Option<User>
      reads this
    {
      if uid in usersDictionary then Some(usersDictionary[uid]) else None
    }

    /** Looking up in the dictionary and scanning the array give the same user, for every uid. */
    ghost predicate Agrees()
      reads this
    {
      forall uid :: UserWithUid(uid) == Scan(usersArray, uid)
    }

    ghost predicate Valid()
      reads this
    {
      Agrees() && DistinctUids(usersArray)
    }

    /** Adding keeps the two indexes in agreement exactly when the uid was not present. */
    method AddUser(user: User)
      requires Valid() && user !in usersArray
      modifies this
      ensures usersArray == old(usersArray) + [user]
      ensures Agrees() <==> old(UserWithUid(user.uid)).None?
      ensures old(UserWithUid(user.uid)).None? ==> Valid()
    {
      usersArray := usersArray + [user];
      usersDictionary := usersDictionary[user.uid := user];
      forall uid
        ensures Scan(usersArray, uid) == if old(UserWithUid(uid)).Some? then old(UserWithUid(uid))
                                         else if user.uid == uid then Some(user) else None
      {
        assert old(UserWithUid(uid)) == old(Scan(usersArray, uid));
        ScanAppend(old(usersArray), user, uid);
      }
      if old(UserWithUid(user.uid)).Some? {
        assert UserWithUid(user.uid) != Scan(usersArray, user.uid);
      }
    }

    /** The join handler's part on one chat. */
    method AddPerson(person: Person)
      requires Valid()
      modifies this
      ensures Valid() <==> person.uid !in old(Uids(usersArray))
      ensures Uids(usersArray) == old(Uids(usersArray)) + [person.uid]
      ensures People(usersArray) == old(People(usersArray)) + [person]
      ensures forall u :: u in usersArray ==> u in old(usersArray) || fresh(u)
    {
      var user := new User(person);
      ScanIsPresence(usersArray, person.uid);
      assert UserWithUid(person.uid) == Scan(usersArray, person.uid);
      ghost var before, people := usersArray, People(usersArray);
      AddUser(user);
      assert People(before) == people;
      PeopleAppend(before, user);
      UidsAppend(before, user);
    }

    method RemoveUser(user: User)
      requires Valid()
      modifies this
      ensures Valid()
      ensures usersArray == Removed(old(usersArray), Uids(old(usersArray)), user.uid)
      ensures usersDictionary == old(usersDictionary) - {user.uid}
    {
      RemovedKeepsOthers(usersArray, user.uid);
      usersArray := Removed(usersArray, Uids(usersArray), user.uid);
      usersDictionary := usersDictionary - {user.uid};
      forall uid
        ensures UserWithUid(uid) == Scan(usersArray, uid)
      {
        assert old(UserWithUid(uid)) == old(Scan(usersArray, uid));
      }
    }

    /** The leave handler's part on one chat: an unknown uid changes nothing. */
    method RemoveUserWithUid(uid: nat)
      requires Valid()
      modifies this
      ensures Valid() && Uids(usersArray) == WithoutUid(old(Uids(usersArray)), uid)
      ensures People(usersArray) == Removed(old(People(usersArray)), old(Uids(usersArray)), uid)
      ensures forall u :: u in usersArray ==> u in old(usersArray)
    {
      ghost var left := Removed(usersArray, Uids(usersArray), uid);
      ghost var people := Removed(People(usersArray), Uids(usersArray), uid);
      RemovedAlike(usersArray, uid);
      ScanIsPresence(usersArray, uid);
      var user := UserWithUid(uid);
      assert user == Scan(usersArray, uid);
      if user.Some? {
        RemoveUser(user.value);
      }
      assert usersArray == left && People(left) == people;
    }

    /** The status handler's part: the user object, found through the dictionary, is changed and
        the change is seen through the array. */
    method UpdateUser(news: Person)
      requires Valid()
      modifies usersArray
      ensures People(usersArray) == Restate(old(People(usersArray)), news)
    {
      ghost var before := People(usersArray);
      var user := UserWithUid(news.uid);
      assert user == Scan(usersArray, news.uid);
      if user.Some? {
        OnlyOneHas(usersArray, user.value);
        user.value.Update(news);
      }
      PeopleRestated(usersArray, before, news);
    }

    method RemoveAllUsers()
      modifies this
      ensures Valid() && usersArray == [] && usersDictionary == map[]
    {
      usersArray, usersDictionary := [], map[];
    }

    /** Takes a nick as typed, dequotes it, and returns the first user in array order that has it. */
    method UserWithNick(typed: Quoting.CString) returns (user: Option<User>)
      requires !Quoting.Dangling(typed)
      ensures user.None? ==> forall u :: u in usersArray ==> u.nick != Quoting.Dequoted(typed)
      ensures user.Some? ==> IsFirstWithNick(usersArray, user.value, Quoting.Dequoted(typed))
    {
      var value, length, overrun := Quoting.DequoteFilename(typed);
      var name := value[..length];
      for i := 0 to |usersArray|
        invariant forall k :: 0 <= k < i ==> usersArray[k].nick != name
      {
        if usersArray[i].nick == name {
          return Some(usersArray[i]);
        }
      }
      return None;
    }

    /** Typing a nick the way completion quotes it finds the first user with that nick, for every
        nick whose backslashes all stand before a space or quote. */
    method UserWithQuotedNick(nick: Quoting.CString) returns (user: Option<User>)
      requires Quoting.BackslashesBeforeQuotable(nick)
      ensures user.None? ==> forall u :: u in usersArray ==> u.nick != nick
      ensures user.Some? ==> IsFirstWithNick(usersArray, user.value, nick)
    {
      Quoting.DequoteUndoesQuote(nick);
      var value, length := Quoting.QuoteFilename(nick);
      Quoting.QuotedIsCString(nick);
      user := UserWithNick(value[..length]);
    }
  }

  // ----- All chats: what the server's messages do to the user ids of every chat

  datatype Event =
    | Listed(cid: nat, person: Person)
    | Joined(cid: nat, person: Person)
    | Left(cid: nat, uid: nat)
    | StatusChanged(person: Person)
    | Created(cid: nat)
    | Disconnected

  type Rosters = map<nat, seq<nat>>

  /** The server names known chats, adds only uids that are not present and never hands out the
      public chat's id again. */
  predicate Legal(rosters: Rosters, event: Event) {
    match event
    case Listed(cid, person) => cid in rosters && person.uid !in rosters[cid]
    case Joined(cid, person) => cid in rosters && person.uid !in rosters[cid]
    case Left(cid, _) => cid in rosters
    case StatusChanged(_) => true
    case Created(cid) => cid != PUBLIC_CID
    case Disconnected => true
  }

  function WithoutUid(uids: seq<nat>, uid: nat): seq<nat> {
    Removed(uids, uids, uid)
  }

  function Apply(rosters: Rosters, event: Event): Rosters
    requires Legal(rosters, event)
  {
    match event
    case Listed(cid, person) => rosters[cid := rosters[cid] + [person.uid]]
    case Joined(cid, person) => rosters[cid := rosters[cid] + [person.uid]]
    case Left(cid, uid) => rosters[cid := WithoutUid(rosters[cid], uid)]
    case StatusChanged(_) => rosters
    case Created(cid) => rosters[cid := []]
    case Disconnected => map[PUBLIC_CID := []]
  }

  /** Who is in which chat after a message, as sets of uids: the list and join messages add one person
      to one chat, leave takes that one out, a new chat is empty, a disconnect empties everything but
      leaves the public chat, and nobody else comes or goes. */
  lemma {:induction false} WhoIsWhere(rosters: Rosters, event: Event, c: nat, uid: nat)
    requires Legal(rosters, event)
    requires forall k :: k in rosters ==> Distinct(rosters[k])
    ensures var next := Apply(rosters, event);
            && (c in next <==> if event.Disconnected? then c == PUBLIC_CID
                               else c in rosters || (event.Created? && c == event.cid))
            && (forall k :: k in next ==> Distinct(next[k]))
            && (c in next ==>
                (uid in next[c] <==>
                 match event
                 case Listed(cid, person) => uid in rosters[c] || (c == cid && uid == person.uid)
                 case Joined(cid, person) => uid in rosters[c] || (c == cid && uid == person.uid)
                 case Left(cid, gone) => uid in rosters[c] && !(c == cid && uid == gone)
                 case StatusChanged(_) => uid in rosters[c]
                 case Created(cid) => c != cid && uid in rosters[c]
                 case Disconnected => false))
  {
    if event.Left? { RemovedIsGone(rosters[event.cid], event.uid, uid); }
  }

  predicate Distinct(uids: seq<nat>) {
    forall j, k :: 0 <= j < k < |uids| ==> uids[j] != uids[k]
  }

  lemma {:induction false} RemovedIsGone(uids: seq<nat>, gone: nat, uid: nat)
    requires Distinct(uids)
    ensures Distinct(WithoutUid(uids, gone))
    ensures uid in WithoutUid(uids, gone) <==> uid in uids && uid != gone
  {
    var k, left := FirstWith(uids, gone), WithoutUid(uids, gone);
    if uid in uids && uid != gone && k.Some? {
      var j :| 0 <= j < |uids| && uids[j] == uid;
      assert left[if j < k.value then j else j - 1] == uid;
    }
  }

  predicate LegalRun(rosters: Rosters, events: seq<Event>)
    decreases |events|
  {
    events == [] || (Legal(rosters, events[0]) && LegalRun(Apply(rosters, events[0]), events[1..]))
  }

  function ApplyAll(rosters: Rosters, events: seq<Event>): Rosters
    requires LegalRun(rosters, events)
    decreases |events|
  {
    if events == [] then rosters else ApplyAll(Apply(rosters, events[0]), events[1..])
  }

  /** A run of messages takes them one after the other. */
  lemma {:induction false} LastMessageLast(rosters: Rosters, events: seq<Event>, event: Event)
    requires LegalRun(rosters, events + [event])
    ensures LegalRun(rosters, events) && Legal(ApplyAll(rosters, events), event)
    ensures ApplyAll(rosters, events + [event]) == Apply(ApplyAll(rosters, events), event)
    decreases |events|
  {
    var all := events + [event];
    if events == [] {
      assert all == [event] && all[1..] == [];
    } else {
      assert all[0] == events[0] && all[1..] == events[1..] + [event];
      LastMessageLast(Apply(rosters, events[0]), events[1..], event);
    }
  }

  class ChatList {
    var chats: map<nat, Chat>
    const publicChat: Chat

    ghost predicate Valid()
      reads this, chats.Values
    {
      && PUBLIC_CID in chats && chats[PUBLIC_CID] == publicChat
      && forall c :: c in chats ==> chats[c].cid == c && chats[c].Valid()
    }

    ghost function View(): Rosters
      reads this, chats.Values
    {
      map c | c in chats :: Uids(chats[c].usersArray)
    }

    ghost function PublicUsers(): set<User>
      reads this, publicChat
    {
      set u | u in publicChat.usersArray
    }

    constructor ()
      ensures Valid() && View() == map[PUBLIC_CID := []]
      ensures fresh(publicChat) && chats.Values == {publicChat}
    {
      var chat := new Chat(PUBLIC_CID);
      publicChat := chat;
      chats := map[PUBLIC_CID := chat];
    }

    /** The user list and join handlers: every index stays in agreement exactly when the chat did not
        hold that uid already. */
    method OnUserAdded(cid: nat, person: Person)
      requires Valid() && cid in chats
      modifies chats[cid]
      ensures Valid() <==> person.uid !in old(View())[cid]
      ensures View() == old(View())[cid := old(View())[cid] + [person.uid]]
      ensures People(chats[cid].usersArray) == old(People(chats[cid].usersArray)) + [person]
      ensures chats.Values == old(chats.Values) && fresh(PublicUsers() - old(PublicUsers()))
    {
      ghost var uids := Uids(chats[cid].usersArray);
      assert View()[cid] == uids;
      chats[cid].AddPerson(person);
      assert View()[cid] == uids + [person.uid];
      assert chats[cid].Valid() <==> person.uid !in uids;
    }

    method OnUserLeave(cid: nat, uid: nat)
      requires Valid() && cid in chats
      modifies chats[cid]
      ensures Valid() && View() == old(View())[cid := WithoutUid(old(View())[cid], uid)]
      ensures People(chats[cid].usersArray) ==
              Removed(old(People(chats[cid].usersArray)), old(Uids(chats[cid].usersArray)), uid)
      ensures chats.Values == old(chats.Values) && fresh(PublicUsers() - old(PublicUsers()))
    {
      ghost var uids := Uids(chats[cid].usersArray);
      assert View()[cid] == uids;
      chats[cid].RemoveUserWithUid(uid);
      assert View()[cid] == WithoutUid(uids, uid);
    }

    /** A status message reaches the public chat's user object, found through the dictionary and
        seen through the array; user objects of other chats are not touched. */
    method OnUserStatus(news: Person)
      requires Valid()
      modifies publicChat.usersArray
      ensures Valid() && View() == old(View())
      ensures People(publicChat.usersArray) == Restate(old(People(publicChat.usersArray)), news)
    {
      publicChat.UpdateUser(news);
    }

    method OnChatCreated(cid: nat)
      requires Valid() && cid != PUBLIC_CID
      modifies this`chats
      ensures Valid() && View() == old(View())[cid := []]
      ensures forall c :: c in chats && c != cid ==> c in old(chats) && chats[c] == old(chats)[c]
      ensures cid in chats && fresh(chats[cid])
    {
      var chat := new Chat(cid);
      chats := chats[cid := chat];
    }

    /** `wr_chats_clear`: the public chat object survives, empty. */
    method OnDisconnect()
      requires Valid()
      modifies this`chats, publicChat
      ensures Valid() && View() == map[PUBLIC_CID := []]
      ensures chats.Values == {publicChat} && PublicUsers() == {}
    {
      chats := map[];
      publicChat.RemoveAllUsers();
      chats := chats[publicChat.cid := publicChat];
    }

    method Handle(event: Event)
      requires Valid() && Legal(View(), event)
      modifies this, chats.Values, publicChat.usersArray
      ensures Valid() && View() == Apply(old(View()), event)
      ensures fresh(chats.Values - old(chats.Values))
      ensures fresh(PublicUsers() - old(PublicUsers()))
    {
      match event
      case Listed(cid, person) => OnUserAdded(cid, person);
      case Joined(cid, person) => OnUserAdded(cid, person);
      case Left(cid, uid) => OnUserLeave(cid, uid);
      case StatusChanged(person) => OnUserStatus(person);
      case Created(cid) => OnChatCreated(cid);
      case Disconnected => OnDisconnect();
    }

    /** After any legal run of messages the two indexes of every chat agree, and the uids of every
        chat are exactly what the messages say. */
    method Run(events: seq<Event>)
      requires Valid() && LegalRun(View(), events)
      modifies this, chats.Values, publicChat.usersArray
      ensures Valid() && View() == ApplyAll(old(View()), events)
      ensures forall c, uid :: c in chats ==> chats[c].UserWithUid(uid) == Scan(chats[c].usersArray, uid)
    {
      ghost var expected := ApplyAll(View(), events);
      for i := 0 to |events|
        invariant Valid()
        invariant fresh(chats.Values - old(chats.Values))
        invariant fresh(PublicUsers() - old(PublicUsers()))
        invariant LegalRun(View(), events[i..]) && ApplyAll(View(), events[i..]) == expected
      {
        assert events[i..][0] == events[i] && events[i..][1..] == events[i + 1..];
        Handle(events[i]);
      }
    }
  }
}
