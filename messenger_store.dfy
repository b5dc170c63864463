/**
 * The conversation store: the chat, archive and bot lists, the active and opened chats, and
 * the routing of pushed events to chats (messenger/MessengerStore.ts).
 */
module MessengerStores {
  import opened Wrappers
  import opened Users
  import opened Messages
  import opened ChatMessagesModule
  import opened LastMessages
  import opened Conversations
  import opened ChatModule

  // ---------------------------------------------------------------------------
  // list helpers

  /** `s.indexOf(x)`: the first index of `x`, or -1. */
  function IndexOf<T(==)>(s: seq<T>, x: T): (k: int)
    ensures -1 <= k < |s|
    ensures k >= 0 ==> s[k] == x
    ensures forall j :: 0 <= j < |s| && (k < 0 || j < k) ==> s[j] != x
    ensures k < 0 <==> x !in s
  {
    if s == [] then -1
    else if s[0] == x then 0
    else
      var k := IndexOf(s[1..], x);
      if k < 0 then -1 else k + 1
  }

  /** `splice(s.indexOf(x), 1)` when `x` is there: its first occurrence goes. */
  function Spliced<T(==)>(s: seq<T>, x: T): seq<T> {
    var k := IndexOf(s, x);
    if k < 0 then s else s[..k] + s[k + 1..]
  }

  /** `unshift(x)` unless `includes(x)`: `x` is put in front when it is not there yet. */
  function Front<T(==)>(s: seq<T>, x: T): seq<T> {
    if x in s then s else [x] + s
  }

  /** `s.filter(Chat.equal(x, false))`: every occurrence of `x` goes, the rest keep their order. */
  function Others<T(==)>(s: seq<T>, x: T): (r: seq<T>)
    ensures x !in r && |r| <= |s|
  {
    if s == [] then [] else (if s[0] == x then [] else [s[0]]) + Others(s[1..], x)
  }

  /** Filtering keeps exactly the elements other than `x`. */
  lemma {:induction false} OthersMembers<T>(s: seq<T>, x: T)
    ensures forall y :: y in Others(s, x) <==> y in s && y != x
  {
    if s != [] {
      OthersMembers(s[1..], x);
      assert forall y :: y in s <==> y == s[0] || y in s[1..];
    }
  }

  /** Every element left by filtering comes from the list. */
  lemma {:induction false} OthersFrom<T>(s: seq<T>, x: T)
    ensures forall i :: 0 <= i < |Others(s, x)| ==> Others(s, x)[i] in s
  {
    if s != [] {
      OthersFrom(s[1..], x);
      var h := if s[0] == x then [] else [s[0]];
      assert Others(s, x) == h + Others(s[1..], x);
      forall i | 0 <= i < |Others(s, x)|
        ensures Others(s, x)[i] in s
      {
        if i >= |h| {
          assert Others(s, x)[i] == Others(s[1..], x)[i - |h|];
          assert Others(s[1..], x)[i - |h|] in s[1..];
        }
      }
    }
  }

  /** No element occurs twice. */
  predicate Distinct<T(==)>(s: seq<T>) {
    forall i, j :: 0 <= i < j < |s| ==> s[i] != s[j]
  }

  /** The invariant of the chat and archive lists: no chat twice, and none in both. */
  predicate Buckets<T(==)>(chats: seq<T>, archive: seq<T>) {
    Distinct(chats) && Distinct(archive) && forall x :: x in chats ==> x !in archive
  }

  /** Splicing out an element other than the head splices it out of the tail. */
  lemma SplicedCons<T>(s: seq<T>, x: T)
    requires s != [] && s[0] != x
    ensures Spliced(s, x) == [s[0]] + Spliced(s[1..], x)
  {
    var t := s[1..];
    var k := IndexOf(t, x);
    assert IndexOf(s, x) == if k < 0 then -1 else k + 1;
    if k >= 0 {
      assert s[..k + 1] == [s[0]] + t[..k];
      assert s[k + 2..] == t[k + 1..];
      calc {
        Spliced(s, x);
        s[..k + 1] + s[k + 2..];
        ([s[0]] + t[..k]) + t[k + 1..];
        [s[0]] + (t[..k] + t[k + 1..]);
      }
    } else {
      assert s == [s[0]] + t;
    }
  }

  /** In a list without repeats, splicing out an element is filtering it out. */
  lemma {:induction false} SplicedIsOthers<T>(s: seq<T>, x: T)
    requires Distinct(s)
    ensures Spliced(s, x) == Others(s, x)
  {
    if s != [] {
      if s[0] == x {
        assert x !in s[1..];
        NoOthers(s[1..], x);
      } else {
        assert Distinct(s[1..]);
        SplicedIsOthers(s[1..], x);
        SplicedCons(s, x);
      }
    }
  }

  /** Filtering out an element that is not there changes nothing. */
  lemma {:induction false} NoOthers<T>(s: seq<T>, x: T)
    requires x !in s
    ensures Others(s, x) == s
  {
    if s != [] {
      NoOthers(s[1..], x);
    }
  }

  /** Filtering keeps a list without repeats free of repeats. */
  lemma {:induction false} OthersDistinct<T>(s: seq<T>, x: T)
    requires Distinct(s)
    ensures Distinct(Others(s, x))
  {
    if s != [] {
      assert Distinct(s[1..]);
      OthersDistinct(s[1..], x);
      OthersMembers(s[1..], x);
      var r := Others(s[1..], x);
      if s[0] != x {
        assert s[0] !in s[1..];
        assert s[0] !in r;
        assert forall i :: 0 < i < |[s[0]] + r| ==> ([s[0]] + r)[i] == r[i - 1];
      }
    }
  }

  /** Filtering twice is filtering once. */
  lemma {:induction false} OthersTwice<T>(s: seq<T>, x: T)
    ensures Others(Others(s, x), x) == Others(s, x)
  {
    NoOthers(Others(s, x), x);
  }

  // ---------------------------------------------------------------------------
  // archive moves

  /**
   * `moveToArchive(c)` on the pair of lists, and by symmetry `moveToChats(c)` with the lists
   * swapped: `c` ends in the second list and leaves the first, and neither list gains a
   * repeat or a chat in common with the other.
   */
  lemma MoveKeepsBuckets<T>(from: seq<T>, to: seq<T>, c: T)
    requires Buckets(from, to)
    ensures Buckets(Spliced(from, c), Front(to, c))
    ensures c !in Spliced(from, c) && c in Front(to, c)
  {
    SplicedIsOthers(from, c);
    OthersDistinct(from, c);
    OthersMembers(from, c);
    if c !in to {
      DistinctCons(c, to);
    }
  }

  /** A move leaves every other chat in the list it was in. */
  lemma MoveKeepsOthers<T>(from: seq<T>, to: seq<T>, c: T)
    requires Distinct(from)
    ensures forall x :: x != c ==> (x in Spliced(from, c) <==> x in from) && (x in Front(to, c) <==> x in to)
  {
    SplicedIsOthers(from, c);
    OthersMembers(from, c);
  }

  /**
   * A move undone by the opposite move, as the rejected `archiveChat` and `unarchiveChat` do:
   * the other list is as before, but the chat comes back at the front of its own list, not
   * at the index it had.
   */
  lemma RollbackToFront<T>(from: seq<T>, to: seq<T>, c: T)
    requires Buckets(from, to) && c in from
    ensures Spliced(Front(to, c), c) == to
    ensures Front(Spliced(from, c), c) == [c] + Others(from, c)
  {
    assert c !in to;
    assert IndexOf([c] + to, c) == 0;
    assert ([c] + to)[1..] == to;
    SplicedIsOthers(from, c);
  }

  // ---------------------------------------------------------------------------
  // ordering

  /** `reorderBy(c)` on a list: a chat found at index one or later moves to the front. */
  function Reordered<T(==)>(s: seq<T>, c: T): seq<T> {
    if IndexOf(s, c) >= 1 then [c] + Others(s, c) else s
  }

  /**
   * `reorderBy` puts the chat first when it is in the list, keeps the other chats in their
   * relative order, and in a list without repeats only permutes it.
   */
  lemma ReorderedMeaning<T>(s: seq<T>, c: T)
    ensures Others(Reordered(s, c), c) == Others(s, c)
    ensures c in s ==> Reordered(s, c)[0] == c
    ensures c !in s ==> Reordered(s, c) == s
    ensures forall x :: x in Reordered(s, c) <==> x in s
    ensures Distinct(s) ==> Distinct(Reordered(s, c)) && multiset(Reordered(s, c)) == multiset(s)
  {
    var k := IndexOf(s, c);
    if k >= 1 {
      var o := Others(s, c);
      OthersMembers(s, c);
      OthersOfFront(c, o);
      OthersTwice(s, c);
      if Distinct(s) {
        ToFrontPermutes(s, c);
      }
    } else if k == 0 {
      assert s[0] == c;
    }
  }

  /** Filtering an element out of a list it heads filters it out of the tail. */
  lemma OthersOfFront<T>(c: T, o: seq<T>)
    ensures Others([c] + o, c) == Others(o, c)
  {
    assert ([c] + o)[1..] == o;
  }

  /** Moving a member of a list without repeats to the front keeps it free of repeats and only permutes it. */
  lemma ToFrontPermutes<T>(s: seq<T>, c: T)
    requires Distinct(s) && c in s
    ensures Distinct([c] + Others(s, c)) && multiset([c] + Others(s, c)) == multiset(s)
  {
    var k := IndexOf(s, c);
    OthersDistinct(s, c);
    DistinctCons(c, Others(s, c));
    SplicedIsOthers(s, c);
    assert s == s[..k] + [c] + s[k + 1..];
  }

  /** Putting an element that is not there in front of a list without repeats makes a list without repeats. */
  lemma DistinctCons<T>(x: T, s: seq<T>)
    requires Distinct(s) && x !in s
    ensures Distinct([x] + s)
  {
    var r := [x] + s;
    forall i, j | 0 <= i < j < |r|
      ensures r[i] != r[j]
    {
      assert r[j] == s[j - 1];
      if i > 0 {
        assert r[i] == s[i - 1];
      }
    }
  }

  // ---------------------------------------------------------------------------
  // leaving a chat

  /** `leaveChat(c)` as written: the new archive is filtered from the chat list. */
  function LeaveAsWritten<T(==)>(chats: seq<T>, archive: seq<T>, c: T): (r: (seq<T>, seq<T>))
    ensures c !in r.0 && c !in r.1
    ensures forall i :: 0 <= i < |r.0| ==> r.0[i] in chats
    ensures forall i :: 0 <= i < |chats| && chats[i] != c ==> chats[i] in r.0
    ensures c !in archive ==> r.1 == archive
    ensures c in archive ==> forall i :: 0 <= i < |r.1| ==> r.1[i] in chats
    ensures c in archive ==> forall i :: 0 <= i < |chats| && chats[i] != c ==> chats[i] in r.1
  {
    OthersMembers(chats, c);
    OthersMembers(Others(chats, c), c);
    OthersFrom(chats, c);
    OthersFrom(Others(chats, c), c);
    var chats' := if c in chats then Others(chats, c) else chats;
    var archive' := if c in archive then Others(chats', c) else archive;
    (chats', archive')
  }

  /**
   * Leaving an archived chat as written replaces the archive by the chat list: with chats
   * `[c1, c2]` and archive `[c3, c4]`, leaving `c3` loses `c4` and puts `c1` and `c2` in both
   * lists.
   */
  lemma LeaveAsWrittenLosesArchive<T>(c1: T, c2: T, c3: T, c4: T)
    requires c1 != c2 && c1 != c3 && c1 != c4 && c2 != c3 && c2 != c4 && c3 != c4
    ensures var (chats, archive) := LeaveAsWritten([c1, c2], [c3, c4], c3);
      chats == [c1, c2] && archive == [c1, c2] && c4 !in archive && !Buckets(chats, archive)
  {
    assert c3 !in [c1, c2];
    NoOthers([c1, c2], c3);
    assert c3 in [c3, c4];
    var (chats, archive) := LeaveAsWritten([c1, c2], [c3, c4], c3);
    assert chats == [c1, c2];
    assert archive == [c1, c2];
    assert c4 !in archive;
    assert chats[0] in archive;
  }

  /** `leaveChat(c)` as intended: the chat leaves both lists and nothing else changes. */
  function Left<T(==)>(chats: seq<T>, archive: seq<T>, c: T): (seq<T>, seq<T>) {
    (if c in chats then Others(chats, c) else chats, if c in archive then Others(archive, c) else archive)
  }

  /** After leaving, the chat is in neither list, every other chat stays where it was, and the invariant holds. */
  lemma LeftMeaning<T>(chats: seq<T>, archive: seq<T>, c: T)
    ensures var (chats', archive') := Left(chats, archive, c);
      && c !in chats' && c !in archive'
      && (forall x :: x != c ==> (x in chats' <==> x in chats) && (x in archive' <==> x in archive))
      && (Buckets(chats, archive) ==> Buckets(chats', archive'))
  {
    OthersMembers(chats, c);
    OthersMembers(archive, c);
    if c in chats && Distinct(chats) {
      OthersDistinct(chats, c);
    }
    if c in archive && Distinct(archive) {
      OthersDistinct(archive, c);
    }
  }

  // ---------------------------------------------------------------------------
  // lookups over chats

  /** The index of the first chat with room id `id`, or -1 (`find(Chat.byId(id))`). */
  function IndexById(s: seq<Chat>, id: string): (k: int)
    reads set i | 0 <= i < |s| :: s[i]
    ensures -1 <= k < |s|
    ensures k >= 0 ==> s[k].info.id == id
    ensures forall j :: 0 <= j < |s| && (k < 0 || j < k) ==> s[j].info.id != id
  {
    if s == [] then -1
    else if ChatModule.ById(id, s[0]) then 0
    else var k := IndexById(s[1..], id); if k < 0 then -1 else k + 1
  }

  /** `s.find(Chat.byId(id))`. */
  function FirstById(s: seq<Chat>, id: string): (r: Chat?)
    reads set i | 0 <= i < |s| :: s[i]
    ensures r == null <==> forall j :: 0 <= j < |s| ==> s[j].info.id != id
    ensures r != null ==> r in s && r.info.id == id
  {
    var k := IndexById(s, id);
    if k < 0 then null else s[k]
  }

  /** The chats `filter(Chat.byLastMessage)` keeps, in order. */
  function WithLastMessage(s: seq<Chat>): (r: seq<Chat>)
    reads set i | 0 <= i < |s| :: s[i], set i | 0 <= i < |s| :: s[i].info
    ensures forall i :: 0 <= i < |r| ==> r[i] in s && r[i].info.lastMessage.Some?
    ensures forall i :: 0 <= i < |s| && s[i].info.lastMessage.Some? ==> s[i] in r
  {
    if s == [] then [] else (if ByLastMessage(s[0]) then [s[0]] else []) + WithLastMessage(s[1..])
  }

  /** The index of the first saved-messages chat, or -1. */
  function IndexSaved(s: seq<Chat>): (k: int)
    reads set i | 0 <= i < |s| :: s[i], set i | 0 <= i < |s| :: s[i].info, set i | 0 <= i < |s| :: s[i].user
    ensures -1 <= k < |s|
    ensures k >= 0 ==> s[k].IsSaved()
    ensures forall j :: 0 <= j < |s| && (k < 0 || j < k) ==> !s[j].IsSaved()
  {
    if s == [] then -1
    else if s[0].IsSaved() then 0
    else var k := IndexSaved(s[1..]); if k < 0 then -1 else k + 1
  }

  // ---------------------------------------------------------------------------
  // counting an incoming message

  /** Whether `m` was sent by the user the chat belongs to. */
  predicate SentBySelf(m: Message, c: Chat)
    reads m, c.user
  {
    Some(m.fields.sender.id) == c.SelfId()
  }

  /**
   * The time `addMessageToChat` reports read, for a message created at `createdAt` arriving
   * in a chat that is `onScreen` or not, whose newer pages are missing (`moreAfter`) or not,
   * and that the user sent (`isSelf`) or not: the message's time when the chat is on screen
   * and its newest page is loaded or the message is the user's own; none otherwise.
   */
  function CountedRead(onScreen: bool, moreAfter: bool, isSelf: bool, createdAt: int): (r: Option<int>)
    ensures r.Some? <==> onScreen && (!moreAfter || isSelf)
    ensures r.Some? ==> r.value == createdAt
  {
    if onScreen && (!moreAfter || isSelf) then Some(createdAt) else None
  }

  /**
   * The unread count `addMessageToChat` leaves, from the stored count `unread` and the shown
   * count `shown`: zero when the message is reported read, the stored count for the user's
   * own message in a chat not on screen, and one more than the shown count otherwise.
   */
  function CountedUnread(onScreen: bool, moreAfter: bool, isSelf: bool, unread: int, shown: int): (n: int)
    ensures onScreen && (!moreAfter || isSelf) ==> n == 0
    ensures !onScreen && isSelf ==> n == unread
    ensures onScreen && moreAfter && !isSelf ==> n == shown + 1
    ensures !onScreen && !isSelf ==> n == shown + 1
  {
    if onScreen && (!moreAfter || isSelf) then 0
    else if !onScreen && isSelf then unread
    else shown + 1
  }

  // ---------------------------------------------------------------------------
  // the store

  class MessengerStore {
    const user: User
    var chats: seq<Chat>
    var bots: seq<Chat>
    var archive: seq<Chat>
    /** The chat on screen. */
    var active: Chat?
    /** `opened`: the chats whose messages were fetched since the last reset. */
    var openChats: set<Chat>

    /** The chat and archive lists keep no chat twice and share none. */
    predicate Valid()
      reads this
    {
      Buckets(chats, archive)
    }

    /** `new MessengerStore(user)`: no chats, nothing active or opened. */
    constructor (user: User)
      ensures this.user == user && Valid()
      ensures chats == [] && bots == [] && archive == [] && active == null && openChats == {}
    {
      this.user := user;
      chats, bots, archive := [], [], [];
      active := null;
      openChats := {};
    }

    /** The `allChats` getter. */
    function AllChats(): (r: seq<Chat>)
      reads this
      ensures |r| == |chats| + |archive| + |bots|
    {
      chats + archive + bots
    }

    /** The `selfChat` getter: the first saved-messages chat of the chat list. */
    function SelfChat(): (r: Chat?)
      reads this, set i | 0 <= i < |chats| :: chats[i], set i | 0 <= i < |chats| :: chats[i].info
      reads set i | 0 <= i < |chats| :: chats[i].user
      ensures r == null <==> forall j :: 0 <= j < |chats| ==> !chats[j].IsSaved()
      ensures r != null ==> r in chats && r.IsSaved()
    {
      var k := IndexSaved(chats);
      if k < 0 then null else chats[k]
    }

    /** `findChat(id)`: the chat list first, then the archive, then the bots. */
    function FindChat(id: string): (r: Chat?)
      reads this, set i | 0 <= i < |chats| :: chats[i], set i | 0 <= i < |archive| :: archive[i]
      reads set i | 0 <= i < |bots| :: bots[i]
      ensures FirstById(chats, id) != null ==> r == FirstById(chats, id)
      ensures FirstById(chats, id) == null && FirstById(archive, id) != null ==> r == FirstById(archive, id)
      ensures FirstById(chats, id) == null && FirstById(archive, id) == null ==> r == FirstById(bots, id)
      ensures r == null <==> forall c :: c in AllChats() ==> c.info.id != id
    {
      var c := FirstById(chats, id);
      if c != null then c
      else
        var a := FirstById(archive, id);
        if a != null then a else FirstById(bots, id)
    }

    // -------------------------------------------------------------------------
    // archive

    /** `moveToArchive(chat)`. */
    method MoveToArchive(c: Chat)
      modifies this
      ensures chats == Spliced(old(chats), c) && archive == Front(old(archive), c)
      ensures old(Valid()) ==> Valid() && c in archive && c !in chats
      ensures bots == old(bots) && active == old(active) && openChats == old(openChats)
    {
      var index := IndexOf(chats, c);
      if index != -1 {
        chats := chats[..index] + chats[index + 1..];
      }
      if c !in archive {
        archive := [c] + archive;
      }
      assert chats == Spliced(old(chats), c) && archive == Front(old(archive), c);
      if old(Valid()) {
        MoveKeepsBuckets(old(chats), old(archive), c);
      }
    }

    /** `moveToChats(chat)`, the mirror of `moveToArchive`. */
    method MoveToChats(c: Chat)
      modifies this
      ensures archive == Spliced(old(archive), c) && chats == Front(old(chats), c)
      ensures old(Valid()) ==> Valid() && c in chats && c !in archive
      ensures bots == old(bots) && active == old(active) && openChats == old(openChats)
    {
      var index := IndexOf(archive, c);
      if index != -1 {
        archive := archive[..index] + archive[index + 1..];
      }
      if c !in chats {
        chats := [c] + chats;
      }
      assert archive == Spliced(old(archive), c) && chats == Front(old(chats), c);
      if old(Valid()) {
        MoveKeepsBuckets(old(archive), old(chats), c);
      }
    }

    /**
     * `archiveChat(chat)`, given the server's `rejection`: the chat moves to the archive and,
     * when the server rejects, is moved back to the chat list; the rejection is passed on.
     * For a chat of the chat list under the invariant, a rollback leaves the archive as it was
     * and puts the chat at the front of the chat list, not at its old index.
     */
    method ArchiveChat(c: Chat, rejection: Option<Failure>) returns (failure: Option<Failure>)
      modifies this
      ensures failure == rejection
      ensures rejection.None? ==> chats == Spliced(old(chats), c) && archive == Front(old(archive), c)
      ensures rejection.Some? ==> archive == Spliced(Front(old(archive), c), c) && chats == Front(Spliced(old(chats), c), c)
      ensures old(Valid()) ==> Valid()
      ensures old(Valid()) && c in old(chats) && rejection.None? ==> archive == [c] + old(archive)
      ensures old(Valid()) && c in old(chats) && rejection.Some? ==> chats == [c] + Others(old(chats), c) && archive == old(archive)
      ensures bots == old(bots) && active == old(active) && openChats == old(openChats)
    {
      if Valid() && c in chats {
        RollbackToFront(chats, archive, c);
      }
      MoveToArchive(c);
      if rejection.Some? {
        MoveToChats(c);
      }
      failure := rejection;
    }

    /** `unarchiveChat(chat)`, the mirror of `archiveChat`. */
    method UnarchiveChat(c: Chat, rejection: Option<Failure>) returns (failure: Option<Failure>)
      modifies this
      ensures failure == rejection
      ensures rejection.None? ==> archive == Spliced(old(archive), c) && chats == Front(old(chats), c)
      ensures rejection.Some? ==> chats == Spliced(Front(old(chats), c), c) && archive == Front(Spliced(old(archive), c), c)
      ensures old(Valid()) ==> Valid()
      ensures old(Valid()) && c in old(archive) && rejection.None? ==> chats == [c] + old(chats)
      ensures old(Valid()) && c in old(archive) && rejection.Some? ==> archive == [c] + Others(old(archive), c) && chats == old(chats)
      ensures bots == old(bots) && active == old(active) && openChats == old(openChats)
    {
      if Valid() && c in archive {
        RollbackToFront(archive, chats, c);
      }
      MoveToChats(c);
      if rejection.Some? {
        MoveToArchive(c);
      }
      failure := rejection;
    }

    // -------------------------------------------------------------------------
    // ordering and lookup

    /** `reorderBy(chat)`. */
    method ReorderBy(c: Chat)
      modifies this
      ensures chats == Reordered(old(chats), c)
      ensures old(Valid()) ==> Valid()
      ensures archive == old(archive) && bots == old(bots) && active == old(active) && openChats == old(openChats)
    {
      ReorderedMeaning(chats, c);
      var index := IndexOf(chats, c);
      if index >= 1 {
        chats := [c] + Others(chats, c);
      }
    }

    /**
     * `loadChat(roomId)`, given the record `info` the server sends: a chat with that id found
     * by then takes the record; otherwise a new chat for it goes to the front of the chat list.
     */
    method LoadChat(roomId: string, info: ConversationInfo) returns (c: Chat)
      modifies this, FindChat(roomId)
      ensures old(FindChat(roomId)) != null ==> c == old(FindChat(roomId)) && chats == old(chats)
      ensures old(FindChat(roomId)) == null ==> (fresh(c) && chats == [c] + old(chats)
        && fresh(c.messages) && fresh(c.messages.messagesChain) && c.settings.chatInfo == info
        && c.user == user && c.messages.Valid() && c.messages.Chain() == [] && !c.messages.moreAfter)
      ensures c.info == info
      ensures archive == old(archive) && bots == old(bots) && active == old(active) && openChats == old(openChats)
      ensures old(FindChat(roomId)) == null && old(Valid()) ==> Valid()
    {
      var equal := FindChat(roomId);
      if equal != null {
        equal.SetInfo(info);
        return equal;
      }
      c := new Chat(info, user);
      chats := [c] + chats;
      assert forall i :: 0 < i < |chats| ==> chats[i] == old(chats)[i - 1];
    }

    /**
     * `leaveChat(chat)`, once the server has let the user leave: the chat leaves the chat
     * list, and when it was archived the archive is rebuilt from the chat list (Findings).
     */
    method LeaveChat(c: Chat)
      modifies this
      ensures (chats, archive) == LeaveAsWritten(old(chats), old(archive), c)
      ensures c !in chats && c !in archive
      ensures c !in old(archive) && old(Valid()) ==> Valid()
      ensures bots == old(bots) && active == old(active) && openChats == old(openChats)
    {
      LeftMeaning(chats, archive, c);
      if c in chats {
        chats := Others(chats, c);
      }
      if c in archive {
        archive := Others(chats, c);
      }
    }

    /** Where the own saved chat sits among the chats with a last message, or -1. */
    function SavedIndex(): (k: int)
      reads this, set i | 0 <= i < |chats| :: chats[i], set i | 0 <= i < |chats| :: chats[i].info
      reads set i | 0 <= i < |chats| :: chats[i].user
      ensures -1 <= k < |WithLastMessage(chats)|
      ensures k >= 0 ==> WithLastMessage(chats)[k] == SelfChat()
      ensures k < 0 <==> SelfChat() == null || SelfChat() !in WithLastMessage(chats)
    {
      var s := SelfChat();
      if s == null then -1 else IndexOf(WithLastMessage(chats), s)
    }

    /**
     * The `entities` getter: the own saved chat first when it has a last message, otherwise
     * a fresh placeholder; then all bots; then the other chats with a last message, in order.
     */
    method Entities(now: string) returns (es: seq<Chat>)
      requires user.info.Some?
      ensures |es| == 1 + |bots| + |WithLastMessage(chats)| - (if SavedIndex() >= 0 then 1 else 0)
      ensures es[1..1 + |bots|] == bots
      ensures var f, k := WithLastMessage(chats), SavedIndex();
        k >= 0 ==> es[0] == f[k] && es[1 + |bots|..] == f[..k] + f[k + 1..]
      ensures SavedIndex() < 0 ==> (es[1 + |bots|..] == WithLastMessage(chats)
        && fresh(es[0]) && es[0].info.id == FakeSavedId && es[0].IsSaved() && es[0].user == user)
    {
      var filtred := WithLastMessage(chats);
      var indexSaved := SavedIndex();
      if indexSaved != -1 {
        es := [filtred[indexSaved]] + bots + (filtred[..indexSaved] + filtred[indexSaved + 1..]);
      } else {
        var fake := CreateFakeSaved(user, now);
        es := [fake] + bots + filtred;
      }
    }

    // -------------------------------------------------------------------------
    // the active chat

    /** `clearOpened()`. */
    method ClearOpened()
      modifies this
      ensures openChats == {}
      ensures chats == old(chats) && archive == old(archive) && bots == old(bots) && active == old(active)
    {
      openChats := {};
    }

    /**
     * `setActive(chat)`, with `lastSeen` the chat record's time as a number: a chat not yet
     * opened fetches its messages and is marked opened; a chat given is read; it becomes the
     * active one either way. Returns the fetch issued and the read time reported.
     */
    method SetActive(c: Chat?, lastSeen: int) returns (r: Chat?, fetch: Option<PageRequest>, read: Option<int>)
      modifies this, if c == null then {} else {c.messages}
      ensures r == c && active == c
      ensures c == null ==> openChats == old(openChats) && fetch.None? && read.None?
      ensures c != null ==> openChats == old(openChats) + {c} && read == c.messages.ReadTarget()
      ensures c != null && c in old(openChats) ==> fetch.None? && c.messages.loadingGet == old(c.messages.loadingGet)
      ensures c != null && c !in old(openChats) ==> (fetch == (if old(c.messages.loadingGet) then None else Some(PageRequest(lastSeen, 40)))
        && c.messages.loadingGet)
      ensures c != null ==> (c.messages.moreAfter == old(c.messages.moreAfter) && c.messages.divider == old(c.messages.divider)
        && c.messages.moreBefore == old(c.messages.moreBefore))
      ensures chats == old(chats) && archive == old(archive) && bots == old(bots)
    {
      fetch, read := None, None;
      if c != null {
        fetch := Open(c, lastSeen);
        read := c.messages.ReadTarget();
      }
      active := c;
      r := c;
    }

    /** The first opening of `c`: its messages are fetched and it is marked opened. */
    method Open(c: Chat, lastSeen: int) returns (fetch: Option<PageRequest>)
      modifies this, c.messages
      ensures openChats == old(openChats) + {c}
      ensures c in old(openChats) ==> fetch.None? && c.messages.loadingGet == old(c.messages.loadingGet)
      ensures c !in old(openChats) ==> (fetch == (if old(c.messages.loadingGet) then None else Some(PageRequest(lastSeen, 40)))
        && c.messages.loadingGet)
      ensures c.messages.moreAfter == old(c.messages.moreAfter) && c.messages.divider == old(c.messages.divider)
      ensures c.messages.moreBefore == old(c.messages.moreBefore)
      ensures active == old(active) && chats == old(chats) && archive == old(archive) && bots == old(bots)
    {
      fetch := None;
      if c !in openChats {
        fetch := c.messages.BeginGet(lastSeen);
        openChats := openChats + {c};
      }
    }

    /** `refreshActive()`: the active chat refetches, and counts as opened, unless newer pages are missing. */
    method RefreshActive(lastSeen: int) returns (fetch: Option<PageRequest>)
      modifies this, if active == null then {} else {active.messages}
      ensures old(active == null || active.messages.moreAfter) ==> fetch.None? && openChats == old(openChats)
      ensures old(active != null && !active.messages.moreAfter) ==> (openChats == old(openChats) + {active}
        && fetch == (if old(active.messages.loadingGet) then None else Some(PageRequest(lastSeen, 40))))
      ensures active == old(active) && chats == old(chats) && archive == old(archive) && bots == old(bots)
    {
      fetch := None;
      if active != null && !active.messages.moreAfter {
        fetch := active.messages.BeginGet(lastSeen);
        openChats := openChats + {active};
      }
    }

    // -------------------------------------------------------------------------
    // incoming messages

    /**
     * What `addMessageToChat` does to the chat itself once it is in front, with `onScreen`
     * telling whether it is the active chat: the summary becomes the message's, the unread
     * count is set as `CountedUnread` says, and the message is added to the history. The
     * summary and the sender test are taken before adding, as in the original; the counting
     * touches only the chat's record, so it is done after the adding.
     */
    static method Receive(m: Message, updated: Chat, onScreen: bool) returns (added: bool, read: Option<int>)
      requires m.Valid() && updated.messages.Valid()
      modifies updated.info, updated.messages, updated.messages.messagesChain
      modifies updated.messages.Raw(), updated.messages.Chain()
      ensures updated.info.lastMessage == Some(old(ParseMessage(m))) && updated.info.members == old(updated.info.members)
      ensures var moreAfter, isSelf := old(updated.messages.moreAfter), old(SentBySelf(m, updated));
        && read == CountedRead(onScreen, moreAfter, isSelf, old(m.fields.createdAt))
        && updated.info.unread == CountedUnread(onScreen, moreAfter, isSelf, old(updated.info.unread), old(updated.Unread()))
      ensures updated.messages.Valid() && updated.messages.moreAfter == old(updated.messages.moreAfter)
      ensures added <==> !old(updated.messages.moreAfter) && old(ScanFrom(updated.messages.Raw(), m, 0)).Insert?
      ensures added ==> (|updated.messages.Chain()| == |old(updated.messages.Chain())| + 1
        && updated.messages.Chain()[1..] == old(updated.messages.Chain())
        && fresh(updated.messages.Chain()[0]) && updated.messages.Chain()[0].message == m)
      ensures !added ==> updated.messages.Chain() == old(updated.messages.Chain())
      ensures !old(updated.messages.moreAfter) ==>
        Merged(old(updated.messages.Raw()), old(ScanFrom(updated.messages.Raw(), m, 0)), old(m.fields.id))
      ensures old(updated.messages.moreAfter) ==> Merged(old(updated.messages.Raw()), Insert, old(m.fields.id))
    {
      var summary, isSelf, createdAt := ParseMessage(m), SentBySelf(m, updated), m.fields.createdAt;
      added := updated.messages.Add(m, updated.SelfId());
      read := Count(updated, onScreen, summary, isSelf, createdAt);
    }

    /**
     * The counting `addMessageToChat` does on the chat's record: the summary becomes
     * `summary`, and the unread count is set as `CountedUnread` says.
     */
    static method Count(updated: Chat, onScreen: bool, summary: LastMessage, isSelf: bool, createdAt: int)
      returns (read: Option<int>)
      modifies updated.info
      ensures updated.info.lastMessage == Some(summary) && updated.info.members == old(updated.info.members)
      ensures read == CountedRead(onScreen, updated.messages.moreAfter, isSelf, createdAt)
      ensures updated.info.unread ==
        CountedUnread(onScreen, updated.messages.moreAfter, isSelf, old(updated.info.unread), old(updated.Unread()))
    {
      updated.info.lastMessage := Some(summary);
      read := None;
      if onScreen {
        if !updated.messages.moreAfter || isSelf {
          read := Some(createdAt);
          updated.SetUnread(0);
        } else {
          updated.SetUnread(updated.Unread() + 1);
        }
      } else if !isSelf {
        updated.SetUnread(updated.Unread() + 1);
      }
    }

    /**
     * `addMessageToChat(message, updated)`: the chat receives the message as `Receive` says
     * and moves to the front. The original moves it first; moving touches only the store's
     * lists, so the order does not show. Returns whether the message was inserted, and the
     * time reported read.
     */
    method AddMessageToChat(m: Message, updated: Chat) returns (added: bool, read: Option<int>)
      requires m.Valid() && updated.messages.Valid()
      modifies this, updated.info, updated.messages, updated.messages.messagesChain
      modifies updated.messages.Raw(), updated.messages.Chain()
      ensures chats == Reordered(old(chats), updated) && (old(Valid()) ==> Valid())
      ensures archive == old(archive) && bots == old(bots) && active == old(active) && openChats == old(openChats)
      ensures updated.info.lastMessage == Some(old(ParseMessage(m))) && updated.info.members == old(updated.info.members)
      ensures var onScreen, moreAfter, isSelf := old(active) == updated, old(updated.messages.moreAfter), old(SentBySelf(m, updated));
        && read == CountedRead(onScreen, moreAfter, isSelf, old(m.fields.createdAt))
        && updated.info.unread == CountedUnread(onScreen, moreAfter, isSelf, old(updated.info.unread), old(updated.Unread()))
      ensures updated.messages.Valid() && updated.messages.moreAfter == old(updated.messages.moreAfter)
      ensures added <==> !old(updated.messages.moreAfter) && old(ScanFrom(updated.messages.Raw(), m, 0)).Insert?
      ensures added ==> (|updated.messages.Chain()| == |old(updated.messages.Chain())| + 1
        && updated.messages.Chain()[1..] == old(updated.messages.Chain())
        && fresh(updated.messages.Chain()[0]) && updated.messages.Chain()[0].message == m)
      ensures !added ==> updated.messages.Chain() == old(updated.messages.Chain())
      ensures !old(updated.messages.moreAfter) ==>
        Merged(old(updated.messages.Raw()), old(ScanFrom(updated.messages.Raw(), m, 0)), old(m.fields.id))
      ensures old(updated.messages.moreAfter) ==> Merged(old(updated.messages.Raw()), Insert, old(m.fields.id))
    {
      added, read := Receive(m, updated, active == updated);
      assert unchanged(this);
      ReorderBy(updated);
    }

    // -------------------------------------------------------------------------
    // pushed events

    /** An archived chat a message was `inserted` into moves to the chat list unless it is muted. */
    method Promote(c: Chat, inserted: bool)
      modifies this
      ensures if inserted && !c.settings.IsMute() then chats == Front(old(chats), c) && archive == Spliced(old(archive), c)
        else chats == old(chats) && archive == old(archive)
      ensures old(Valid()) ==> Valid()
      ensures bots == old(bots) && active == old(active) && openChats == old(openChats)
    {
      if inserted && !c.settings.IsMute() {
        MoveToChats(c);
      }
    }

    /**
     * The archive arm of `handleRoomUpdate`: the message is added to the archived chat as
     * `addMessageToChat` does, whose move to the front of the chat list does nothing for a chat
     * not in it, and the chat then moves to the chat list if the message was inserted and the
     * chat is not muted.
     */
    method ArriveInArchive(m: Message, c: Chat) returns (added: bool, read: Option<int>)
      requires m.Valid() && c.messages.Valid() && c !in chats
      modifies this, c.info, c.messages, c.messages.messagesChain, c.messages.Raw(), c.messages.Chain()
      ensures if added && !c.settings.IsMute() then chats == [c] + old(chats) && archive == Spliced(old(archive), c)
        else chats == old(chats) && archive == old(archive)
      ensures old(Valid()) ==> Valid()
      ensures bots == old(bots) && active == old(active) && openChats == old(openChats)
      ensures c.info.lastMessage == Some(old(ParseMessage(m)))
      ensures var onScreen, moreAfter, isSelf := old(active) == c, old(c.messages.moreAfter), old(SentBySelf(m, c));
        && read == CountedRead(onScreen, moreAfter, isSelf, old(m.fields.createdAt))
        && c.info.unread == CountedUnread(onScreen, moreAfter, isSelf, old(c.info.unread), old(c.Unread()))
      ensures c.messages.Valid()
      ensures added <==> !old(c.messages.moreAfter) && old(ScanFrom(c.messages.Raw(), m, 0)).Insert?
      ensures added ==> |c.messages.Chain()| > 0 && c.messages.Chain()[0].message == m
      ensures !added ==> c.messages.Chain() == old(c.messages.Chain())
      ensures !old(c.messages.moreAfter) ==> Merged(old(c.messages.Raw()), old(ScanFrom(c.messages.Raw(), m, 0)), old(m.fields.id))
      ensures old(c.messages.moreAfter) ==> Merged(old(c.messages.Raw()), Insert, old(m.fields.id))
    {
      added, read := Receive(m, c, active == c);
      assert unchanged(this);
      label received:
      Promote(c, added);
      assert unchanged@received(c, c.info, c.messages, c.messages.messagesChain);
    }

    /**
     * The arms of `handleRoomUpdate` for a room some chat already has: the message goes to
     * the first chat with that id in the chat list, the archive or the bots, in that order,
     * as `AddMessageToChat` says, and an archived chat moves on as `ArriveInArchive` says.
     */
    method RouteKnown(roomId: string, m: Message) returns (updated: Chat, added: bool, read: Option<int>)
      requires m.Valid() && FindChat(roomId) != null && FindChat(roomId).messages.Valid()
      modifies this, FindChat(roomId).info, FindChat(roomId).messages, FindChat(roomId).messages.messagesChain
      modifies FindChat(roomId).messages.Raw(), FindChat(roomId).messages.Chain()
      ensures updated == old(FindChat(roomId))
      ensures updated.info.lastMessage == Some(old(ParseMessage(m)))
      ensures var onScreen, moreAfter, isSelf := old(active) == updated, old(updated.messages.moreAfter), old(SentBySelf(m, updated));
        && read == CountedRead(onScreen, moreAfter, isSelf, old(m.fields.createdAt))
        && updated.info.unread == CountedUnread(onScreen, moreAfter, isSelf, old(updated.info.unread), old(updated.Unread()))
      ensures updated.messages.Valid()
      ensures added <==> !old(updated.messages.moreAfter) && old(ScanFrom(updated.messages.Raw(), m, 0)).Insert?
      ensures added ==> |updated.messages.Chain()| > 0 && updated.messages.Chain()[0].message == m
      ensures !added ==> updated.messages.Chain() == old(updated.messages.Chain())
      ensures !old(FindChat(roomId).messages.moreAfter) ==>
        Merged(old(FindChat(roomId).messages.Raw()), old(ScanFrom(FindChat(roomId).messages.Raw(), m, 0)), old(m.fields.id))
      ensures old(FindChat(roomId).messages.moreAfter) ==>
        Merged(old(FindChat(roomId).messages.Raw()), Insert, old(m.fields.id))
      ensures old(FirstById(chats, roomId)) != null ==> chats == Reordered(old(chats), updated) && archive == old(archive)
      ensures old(FirstById(chats, roomId)) == null && old(FirstById(archive, roomId)) != null ==>
        if added && !updated.settings.IsMute() then chats == [updated] + old(chats) && archive == Spliced(old(archive), updated)
        else chats == old(chats) && archive == old(archive)
      ensures old(FirstById(chats, roomId)) == null && old(FirstById(archive, roomId)) == null ==>
        chats == old(chats) && archive == old(archive)
      ensures old(Valid()) ==> Valid()
      ensures bots == old(bots) && active == old(active) && openChats == old(openChats)
    {
      var c := FirstById(chats, roomId);
      if c != null {
        updated := c;
        added, read := AddMessageToChat(m, c);
        return;
      }
      c := FirstById(archive, roomId);
      if c != null {
        updated := c;
        added, read := ArriveInArchive(m, c);
        return;
      }
      updated := FirstById(bots, roomId);
      ReorderedMeaning(chats, updated);
      added, read := AddMessageToChat(m, updated);
    }

    /**
     * `handleRoomUpdate(data)` up to its `await`, for the room `roomId` and the message `m`
     * built from the pushed data: a chat that has the room takes it as `RouteKnown` says, and
     * is returned. When no chat has the room, nothing changes and `null` is returned: the
     * source then awaits the room's record, and `FinishRoomUpdate` takes the message.
     * Returns also whether the message was inserted, and the time reported read.
     */
    method BeginRoomUpdate(roomId: string, m: Message) returns (updated: Chat?, added: bool, read: Option<int>)
      requires m.Valid()
      requires FindChat(roomId) != null ==> FindChat(roomId).messages.Valid()
      modifies this
      modifies if FindChat(roomId) == null then {} else
        {FindChat(roomId).info, FindChat(roomId).messages, FindChat(roomId).messages.messagesChain}
      modifies if FindChat(roomId) == null then [] else FindChat(roomId).messages.Raw()
      modifies if FindChat(roomId) == null then [] else FindChat(roomId).messages.Chain()
      ensures updated == old(FindChat(roomId))
      ensures updated != null ==> updated.info.lastMessage == Some(old(ParseMessage(m)))
      ensures updated != null ==>
        var onScreen, moreAfter, isSelf := old(active) == updated, old(updated.messages.moreAfter), old(SentBySelf(m, updated));
        && read == CountedRead(onScreen, moreAfter, isSelf, old(m.fields.createdAt))
        && updated.info.unread == CountedUnread(onScreen, moreAfter, isSelf, old(updated.info.unread), old(updated.Unread()))
      ensures updated != null ==> updated.messages.Valid()
      ensures updated != null ==> (added <==> !old(updated.messages.moreAfter) && old(ScanFrom(updated.messages.Raw(), m, 0)).Insert?)
      ensures updated != null && added ==> |updated.messages.Chain()| > 0 && updated.messages.Chain()[0].message == m
      ensures updated != null && !added ==> updated.messages.Chain() == old(updated.messages.Chain())
      ensures updated != null && !old(updated.messages.moreAfter) ==>
        Merged(old(updated.messages.Raw()), old(ScanFrom(updated.messages.Raw(), m, 0)), old(m.fields.id))
      ensures updated != null && old(updated.messages.moreAfter) ==> Merged(old(updated.messages.Raw()), Insert, old(m.fields.id))
      ensures old(FirstById(chats, roomId)) != null ==> chats == Reordered<Chat>(old(chats), updated) && archive == old(archive)
      ensures old(FirstById(chats, roomId)) == null && old(FirstById(archive, roomId)) != null ==>
        if added && !updated.settings.IsMute() then chats == [updated as Chat] + old(chats) && archive == Spliced<Chat>(old(archive), updated)
        else chats == old(chats) && archive == old(archive)
      ensures old(FirstById(chats, roomId)) == null && old(FirstById(archive, roomId)) == null ==>
        chats == old(chats) && archive == old(archive)
      ensures updated == null ==> !added && read.None?
      ensures old(Valid()) ==> Valid()
      ensures bots == old(bots) && active == old(active) && openChats == old(openChats)
    {
      if FindChat(roomId) != null {
        updated, added, read := RouteKnown(roomId, m);
      } else {
        updated, added, read := null, false, None;
      }
    }

    /**
     * The rest of `handleRoomUpdate` once the record `fetched` of the room has arrived:
     * `loadChat` looks the room up again, since its chat may have arrived meanwhile. A chat
     * found takes the record, and the message as `addMessageToChat` says, moving to the front
     * of the chat list (`FinishKnown`); otherwise a new chat for the record heads the chat list
     * and takes the message as its only one (`FinishFresh`). There is no move out of the
     * archive on this path.
     */
    method FinishRoomUpdate(roomId: string, m: Message, fetched: ConversationInfo) returns (updated: Chat, added: bool, read: Option<int>)
      requires m.Valid()
      requires FindChat(roomId) != null ==> FindChat(roomId).messages.Valid()
      modifies this, fetched
      modifies if FindChat(roomId) == null then {} else
        {FindChat(roomId), FindChat(roomId).messages, FindChat(roomId).messages.messagesChain}
      modifies if FindChat(roomId) == null then [] else FindChat(roomId).messages.Raw()
      modifies if FindChat(roomId) == null then [] else FindChat(roomId).messages.Chain()
      ensures updated.info == fetched && updated.info.lastMessage == Some(old(ParseMessage(m)))
      ensures old(FindChat(roomId)) != null ==> updated == old(FindChat(roomId)) && chats == Reordered(old(chats), updated)
      ensures old(FindChat(roomId)) != null ==> var onScreen, isSelf := old(active) == updated, old(SentBySelf(m, updated));
        && read == CountedRead(onScreen, old(updated.messages.moreAfter), isSelf, old(m.fields.createdAt))
        && updated.info.unread == CountedUnread(onScreen, old(updated.messages.moreAfter), isSelf, old(fetched.unread), if updated.IsSaved() then 0 else old(fetched.unread))
      ensures old(FindChat(roomId)) != null ==>
        (added <==> !old(FindChat(roomId).messages.moreAfter) && old(ScanFrom(FindChat(roomId).messages.Raw(), m, 0)).Insert?)
      ensures old(FindChat(roomId)) != null && !old(FindChat(roomId).messages.moreAfter) ==>
        Merged(old(FindChat(roomId).messages.Raw()), old(ScanFrom(FindChat(roomId).messages.Raw(), m, 0)), old(m.fields.id))
      ensures old(FindChat(roomId)) != null && old(FindChat(roomId).messages.moreAfter) ==>
        Merged(old(FindChat(roomId).messages.Raw()), Insert, old(m.fields.id))
      ensures old(FindChat(roomId)) == null ==> (fresh(updated) && updated.user == user && chats == [updated] + old(chats)
        && added && read.None? && |updated.messages.Chain()| == 1 && updated.messages.Chain()[0].message == m)
      ensures old(Valid()) ==> Valid()
      ensures archive == old(archive) && bots == old(bots) && active == old(active) && openChats == old(openChats)
    {
      if FindChat(roomId) != null {
        updated := FindChat(roomId);
        added, read := FinishKnown(updated, m, fetched);
      } else {
        updated, added, read := FinishFresh(roomId, m, fetched);
      }
    }

    /**
     * `FinishRoomUpdate` when the chat `c` has the room by the time its record arrives:
     * `loadChat` gives it the record, and `addMessageToChat` the message. The record is
     * swapped after the message is added to the history, which reads only the chat's user;
     * the counting then works on the new record, as in the original.
     */
    method FinishKnown(c: Chat, m: Message, fetched: ConversationInfo) returns (added: bool, read: Option<int>)
      requires m.Valid() && c.messages.Valid()
      modifies this, fetched, c, c.messages, c.messages.messagesChain, c.messages.Raw(), c.messages.Chain()
      ensures c.info == fetched && c.info.lastMessage == Some(old(ParseMessage(m)))
      ensures chats == Reordered(old(chats), c)
      ensures var onScreen, isSelf := old(active) == c, old(SentBySelf(m, c));
        && read == CountedRead(onScreen, old(c.messages.moreAfter), isSelf, old(m.fields.createdAt))
        && c.info.unread == CountedUnread(onScreen, old(c.messages.moreAfter), isSelf, old(fetched.unread), if c.IsSaved() then 0 else old(fetched.unread))
      ensures added <==> !old(c.messages.moreAfter) && old(ScanFrom(c.messages.Raw(), m, 0)).Insert?
      ensures !old(c.messages.moreAfter) ==> Merged(old(c.messages.Raw()), old(ScanFrom(c.messages.Raw(), m, 0)), old(m.fields.id))
      ensures old(c.messages.moreAfter) ==> Merged(old(c.messages.Raw()), Insert, old(m.fields.id))
      ensures old(Valid()) ==> Valid()
      ensures archive == old(archive) && bots == old(bots) && active == old(active) && openChats == old(openChats)
    {
      var summary, isSelf, createdAt := ParseMessage(m), SentBySelf(m, c), m.fields.createdAt;
      added := c.messages.Add(m, c.SelfId());
      read := Retake(c, fetched, summary, isSelf, createdAt);
    }

    /**
     * The rest of `FinishKnown` once the message is in the history: the chat takes the record
     * `fetched`, which is counted as `Count` says, and moves to the front of the chat list.
     */
    method Retake(c: Chat, fetched: ConversationInfo, summary: LastMessage, isSelf: bool, createdAt: int) returns (read: Option<int>)
      modifies this, c, fetched
      ensures c.info == fetched && fetched.lastMessage == Some(summary) && fetched.members == old(fetched.members)
      ensures read == CountedRead(old(active) == c, c.messages.moreAfter, isSelf, createdAt)
      ensures fetched.unread == CountedUnread(old(active) == c, c.messages.moreAfter, isSelf, old(fetched.unread),
        if c.IsSaved() then 0 else old(fetched.unread))
      ensures chats == Reordered(old(chats), c) && (old(Valid()) ==> Valid())
      ensures archive == old(archive) && bots == old(bots) && active == old(active) && openChats == old(openChats)
    {
      c.SetInfo(fetched);
      read := Count(c, active == c, summary, isSelf, createdAt);
      ReorderBy(c);
    }

    /** `FinishRoomUpdate` when still no chat has the room. */
    method FinishFresh(roomId: string, m: Message, fetched: ConversationInfo) returns (updated: Chat, added: bool, read: Option<int>)
      requires m.Valid() && FindChat(roomId) == null
      modifies this, fetched
      ensures fresh(updated) && updated.user == user && updated.info == fetched && chats == [updated] + old(chats)
      ensures updated.info.lastMessage == Some(old(ParseMessage(m)))
      ensures added && read.None? && |updated.messages.Chain()| == 1 && updated.messages.Chain()[0].message == m
      ensures old(Valid()) ==> Valid()
      ensures archive == old(archive) && bots == old(bots) && active == old(active) && openChats == old(openChats)
    {
      updated := LoadChat(roomId, fetched);
      added, read := AddMessageToChat(m, updated);
    }

    /** `handleMessageRead(event)`: the chat with the room, if any, takes the read as `readFrom` says. */
    method HandleMessageRead(roomId: string, userId: string, lastSeen: string) returns (c: Chat?)
      modifies if FindChat(roomId) == null then {} else {FindChat(roomId).info}
      modifies if FindChat(roomId) == null then [] else FindChat(roomId).messages.Raw()
      ensures c == old(FindChat(roomId))
      ensures c != null ==> c.info.lastSeen == lastSeen
      ensures c != null && Some(userId) != c.SelfId() ==> (c.info.unread == old(c.info.unread)
        && forall j :: 0 <= j < |c.messages.Raw()| ==> c.messages.Raw()[j].State() == Readed(old(c.messages.Raw()[j].State()), c.SelfId()))
      ensures c != null && Some(userId) == c.SelfId() ==> (c.info.unread == 0
        && forall j :: 0 <= j < |c.messages.Raw()| ==> c.messages.Raw()[j].State() == old(c.messages.Raw()[j].State()))
    {
      c := FindChat(roomId);
      if c != null {
        c.ReadFrom(userId, lastSeen);
      }
    }

    /** `handleMessageEdit(event)`: the chat with the room, if any, takes the edit as `updateMessage` says. */
    method HandleMessageEdit(roomId: string, d: MessageData) returns (c: Chat?)
      requires Complete(d)
      modifies if FindChat(roomId) == null then {} else {FindChat(roomId).Located(d.id)}
      ensures c == old(FindChat(roomId))
      ensures c != null ==> var m := old(c.Located(d.id));
        m != null ==> (m.Valid() && m.Data() == Normalize(d) && m.sending == old(m.sending) && m.error == old(m.error))
    {
      c := FindChat(roomId);
      if c != null {
        c.UpdateMessage(d);
      }
    }

    /** `handleMessageDelete(event)`: the chat with the room, if any, marks the message deleted. */
    method HandleMessageDelete(roomId: string, id: string) returns (c: Chat?)
      modifies if FindChat(roomId) == null then {} else {FindChat(roomId).Located(id)}
      ensures c == old(FindChat(roomId))
      ensures c != null ==> var m := old(c.Located(id));
        m != null ==> m.State() == old(m.State()).(fields := old(m.fields).(deleted := true, body := DeletedText))
    {
      c := FindChat(roomId);
      if c != null {
        c.MarkDelete(id);
      }
    }

    /** `handleMessageEmotion(event)`: the chat with the room, if any, toggles user `u`'s emotion `e` on the message. */
    method HandleMessageEmotion(roomId: string, id: string, u: string, e: string) returns (c: Chat?)
      requires FindChat(roomId) != null && FindChat(roomId).Located(id) != null ==> FindChat(roomId).Located(id).Valid()
      modifies if FindChat(roomId) == null then {} else {FindChat(roomId).Located(id)}
      modifies if FindChat(roomId) == null || FindChat(roomId).Located(id) == null then [] else FindChat(roomId).Located(id).emotions
      ensures c == old(FindChat(roomId))
      ensures c != null ==> var m := old(c.Located(id));
        m != null ==> m.Valid() && m.State() == old(m.State()).(reactions := Agg.Toggle(old(m.Reactions()), u, e))
    {
      c := FindChat(roomId);
      if c != null {
        c.ToggleReactions(id, u, e);
      }
    }
  }
}
