/**
 * One conversation as the client holds it: its record, its message list, the selection, the
 * quote and forward state, and the send, resend, cancel and delete decisions
 * (messenger/classes/Chat/Chat.ts).
 */
module ChatModule {
  import opened Wrappers
  import Text
  import opened Attachments
  import opened Users
  import opened Messages
  import opened MessageLinks
  import opened MessagesChains
  import opened ChatMessagesModule
  import opened LastMessages
  import opened Conversations
  import opened ChatSettingsModule
  import opened MessageEditors
  import opened MessageFinders
  import Agg = Reactions

  /** `MAX_MESSAGE_LENGTH`. */
  const MaxMessageLength := 2048

  /** The title of the saved-messages dialog. */
  const SavedTitle := "Избранное"

  /** The id of the fake saved-messages chat. */
  const FakeSavedId := "fake_saved"

  // ---------------------------------------------------------------------------
  // members and title

  /** The index of the first member who is not the current user, or -1. */
  function OtherIndex(members: seq<Person>, selfId: Option<string>): (k: int)
    ensures -1 <= k < |members|
    ensures k >= 0 ==> Some(members[k].id) != selfId
    ensures forall j :: 0 <= j < |members| && (k < 0 || j < k) ==> Some(members[j].id) == selfId
  {
    if members == [] then -1
    else if Some(members[0].id) != selfId then 0
    else var k := OtherIndex(members[1..], selfId); if k < 0 then -1 else k + 1
  }

  /** `members.find(({ _id }) => _id !== user.info?._id)`. */
  function OtherMember(members: seq<Person>, selfId: Option<string>): Option<Person> {
    var k := OtherIndex(members, selfId);
    if k < 0 then None else Some(members[k])
  }

  // ---------------------------------------------------------------------------
  // the bot keyboard

  /** A message with a keyboard that has buttons. */
  predicate HasButtons(f: MessageFields) {
    f.keyboard.Some? && |f.keyboard.value.buttons| > 0
  }

  /** The index of the newest message with buttons, or -1. */
  function KeyboardIndex(fs: seq<MessageFields>): (r: int)
    ensures -1 <= r < |fs|
    ensures r >= 0 ==> HasButtons(fs[r])
    ensures forall j :: 0 <= j < |fs| && (r < 0 || j < r) ==> !HasButtons(fs[j])
  {
    if fs == [] then -1
    else if HasButtons(fs[0]) then 0
    else var k := KeyboardIndex(fs[1..]); if k < 0 then -1 else k + 1
  }

  /** What the `keyboard` getter returns: the message that offers the buttons, and the buttons. */
  datatype ChatKeyboard = ChatKeyboard(messageId: string, buttons: seq<Button>)

  /**
   * The keyboard shown for messages `fs`, newest first: the newest message with buttons
   * decides; it is hidden when that keyboard says so, or when it is one-time and a newer
   * message came after it.
   */
  function KeyboardOf(fs: seq<MessageFields>): (r: Option<ChatKeyboard>)
    ensures r.Some? ==> exists k :: (0 <= k < |fs| && HasButtons(fs[k]) && r.value.messageId == fs[k].id
      && r.value.buttons == fs[k].keyboard.value.buttons && !fs[k].keyboard.value.hide
      && (fs[k].keyboard.value.oneTime ==> k == 0)
      && forall j :: 0 <= j < k ==> !HasButtons(fs[j]))
    ensures (forall j :: 0 <= j < |fs| ==> !HasButtons(fs[j])) ==> r.None?
    ensures forall k :: (0 <= k < |fs| && HasButtons(fs[k]) && (forall j :: 0 <= j < k ==> !HasButtons(fs[j]))
      && !fs[k].keyboard.value.hide && (fs[k].keyboard.value.oneTime ==> k == 0)) ==>
      r == Some(ChatKeyboard(fs[k].id, fs[k].keyboard.value.buttons))
  {
    var k := KeyboardIndex(fs);
    if k < 0 then None
    else
      var kb := fs[k].keyboard.value;
      if kb.hide || (kb.oneTime && k != 0) then None else Some(ChatKeyboard(fs[k].id, kb.buttons))
  }

  // ---------------------------------------------------------------------------
  // selection

  /** `selectedIDs.includes(id)`. */
  predicate HasId(s: set<Message>, id: string)
    reads s
  {
    exists x :: x in s && x.fields.id == id
  }

  /**
   * `toggleSelect(m)` as written: the test is by id but the removal is by identity, so a
   * selected message with the same id that is another object stays selected.
   */
  function ToggleSelectAsWritten(s: set<Message>, m: Message): (r: set<Message>)
    reads s, m
    ensures m in r <==> !HasId(s, m.fields.id)
    ensures r - {m} == s - {m}
  {
    if HasId(s, m.fields.id) then s - {m} else s + {m}
  }

  /** `toggleSelect(m)` as intended: the message with that id is deselected, or `m` selected. */
  function ToggleSelected(s: set<Message>, m: Message): (r: set<Message>)
    reads s, m
    ensures HasId(s, m.fields.id) ==> r == set x | x in s && x.fields.id != m.fields.id
    ensures !HasId(s, m.fields.id) ==> r == s + {m}
  {
    if HasId(s, m.fields.id) then set x | x in s && x.fields.id != m.fields.id else s + {m}
  }

  /**
   * A message reloaded from the server is a new object with the id of the selected one:
   * toggling it as written leaves the selection, and `checkSelected` for it, unchanged.
   */
  lemma ToggleSelectAsWrittenKeeps(a: Message, b: Message)
    requires a != b && a.fields.id == b.fields.id
    ensures ToggleSelectAsWritten({a}, b) == {a}
    ensures HasId(ToggleSelectAsWritten({a}, b), b.fields.id)
  {
    assert a in {a};
  }

  /** As intended, toggling flips whether the message's id is selected, and touches no other id. */
  lemma ToggleSelectedFlips(s: set<Message>, m: Message, id: string)
    ensures HasId(ToggleSelected(s, m), m.fields.id) <==> !HasId(s, m.fields.id)
    ensures id != m.fields.id ==> (HasId(ToggleSelected(s, m), id) <==> HasId(s, id))
  {
    var r := ToggleSelected(s, m);
    if !HasId(s, m.fields.id) {
      assert m in r;
    }
    if id != m.fields.id && HasId(s, id) {
      var x :| x in s && x.fields.id == id;
      assert x in r;
    }
  }

  // ---------------------------------------------------------------------------
  // sending

  /** A file picked for sending (`IDocument | FileIDocument`); only its identity matters here. */
  datatype Document = Document(name: string)

  /** One message `send` creates: its text, the files it uploads, and the message it quotes. */
  datatype Draft = Draft(body: string, files: seq<Document>, quote: Message?)

  /** The files of a list of drafts, in order. */
  function FilesOf(ds: seq<Draft>): seq<Document> {
    if ds == [] then [] else ds[0].files + FilesOf(ds[1..])
  }

  /**
   * `send(text, files, quote)`: without files, one message with the text and the quote; with
   * files, one message per chunk of ten files, the first also carrying the text and the quote.
   */
  function Outgoing(text: string, files: seq<Document>, quote: Message?): seq<Draft> {
    if files == [] then [Draft(text, [], quote)]
    else
      var chunks := Chunks(files, 10);
      seq(|chunks|, i requires 0 <= i < |chunks| =>
        if i == 0 then Draft(text, chunks[0], quote) else Draft("", chunks[i], null))
  }

  lemma {:induction false} FilesOfChunks(xss: seq<seq<Document>>, ds: seq<Draft>)
    requires |ds| == |xss| && forall i :: 0 <= i < |ds| ==> ds[i].files == xss[i]
    ensures FilesOf(ds) == Flatten(xss)
  {
    if ds != [] {
      FilesOfChunks(xss[1..], ds[1..]);
    }
  }

  /**
   * The messages `send` creates carry every file once and in order, at most ten to a message;
   * only the first carries the text and the quote, and with no files there is exactly one.
   */
  lemma OutgoingShape(text: string, files: seq<Document>, quote: Message?)
    ensures var ds := Outgoing(text, files, quote);
      && |ds| >= 1 && FilesOf(ds) == files
      && ds[0].body == text && ds[0].quote == quote
      && (forall i :: 1 <= i < |ds| ==> ds[i].body == "" && ds[i].quote == null)
      && (forall i :: 0 <= i < |ds| ==> |ds[i].files| <= 10)
      && (files != [] ==> forall i :: 0 <= i < |ds| ==> ds[i].files != [])
      && (files == [] ==> |ds| == 1)
  {
    var ds := Outgoing(text, files, quote);
    if files != [] {
      var chunks := Chunks(files, 10);
      assert |ds| == |chunks| && forall i :: 0 <= i < |ds| ==> ds[i].files == chunks[i];
      assert FilesOf(ds) == files by {
        ChunksFlatten(files, 10);
        FilesOfChunks(chunks, ds);
      }
      assert |ds| >= 1 && forall i :: 0 <= i < |ds| ==> 1 <= |ds[i].files| <= 10 by {
        ChunksSizes(files, 10);
        forall i | 0 <= i < |ds|
          ensures 1 <= |ds[i].files| <= 10
        {
          if i < |chunks| - 1 {
            assert |chunks[i]| == 10;
          } else {
            assert 1 <= |chunks[|chunks| - 1]| <= 10;
          }
        }
      }
    }
  }

  // ---------------------------------------------------------------------------
  // the states a send leaves

  /** What `sendMessage` and `resend` carry across their await: the message, and whether its uploads started. */
  datatype SendTicket = SendTicket(message: Message, uploading: bool)

  /** The state `startUploads` leaves once the upload loop has given `o`. */
  function Uploaded(st: MessageState, o: Result<seq<Attachment>>): MessageState {
    match o
    case Ok(atts) => st.(fields := st.fields.(attachments := atts), uploads := [], isLoading := false)
    case Err(f) => st.(isLoading := false, error := Raised(f))
  }

  /** The state `Message.send` leaves when it answers `sent`: the server id, or the error. */
  function Delivered(st: MessageState, sent: Result<string>): MessageState {
    match sent
    case Ok(id) => st.(sending := false, error := NoError, fields := st.fields.(id := id))
    case Err(f) => st.(error := Raised(f))
  }

  /** The state after the awaited part of a send: a failed upload means nothing is sent. */
  function SendOutcome(st: MessageState, uploading: bool, o: Result<seq<Attachment>>, sent: Result<string>): MessageState {
    if uploading && o.Err? then Uploaded(st, o)
    else Delivered(if uploading then Uploaded(st, o) else st, sent)
  }

  /** The error a send ends with: the upload's, else the send's. */
  function SendFailure(uploading: bool, o: Result<seq<Attachment>>, sent: Result<string>): Option<Failure> {
    if uploading && o.Err? then Some(o.error)
    else if sent.Err? then Some(sent.error)
    else None
  }

  /**
   * A send succeeds exactly when its uploads, if any, and the send itself do; the message
   * then is settled under the server id. A failed one keeps its `sending` mark and its id and
   * records the error. Body, sender and reactions never change, and the loading mark is off
   * once uploads were started.
   */
  lemma SendOutcomeMeaning(st: MessageState, uploading: bool, o: Result<seq<Attachment>>, sent: Result<string>)
    ensures var r, f := SendOutcome(st, uploading, o, sent), SendFailure(uploading, o, sent);
      && (f.None? <==> (!uploading || o.Ok?) && sent.Ok?)
      && (f.None? ==> !r.sending && r.error == NoError && r.fields.id == sent.value)
      && (f.Some? ==> r.error == Raised(f.value) && r.sending == st.sending && r.fields.id == st.fields.id)
      && (uploading && o.Ok? ==> r.fields.attachments == o.value && r.uploads == [])
      && (!uploading ==> r.fields.attachments == st.fields.attachments && r.uploads == st.uploads && r.isLoading == st.isLoading)
      && (uploading ==> !r.isLoading)
      && r.fields.body == st.fields.body && r.fields.sender == st.fields.sender && r.reactions == st.reactions
  {
  }

  // ---------------------------------------------------------------------------
  // the chat

  class Chat {
    const user: User
    /** The conversation record; `setInfo` replaces it, the settings keep the one they were made with. */
    var info: ConversationInfo
    const settings: ChatSettings
    const messages: ChatMessages
    const finder: MessageFinder
    const messageEditor: MessageEditor
    /** The quoted message. */
    var quote: Message?
    /** The messages chosen for forwarding. */
    var forwarded: Option<seq<Message>>
    var selected: set<Message>
    var prepareText: string
    var prepareFiles: seq<Document>
    /** `loadings.resend`. */
    var resending: bool

    /** `new Chat(info, user)`: nothing selected, quoted, forwarded or typed, and an empty message list. */
    constructor (info: ConversationInfo, user: User)
      ensures this.info == info && this.user == user && settings.chatInfo == info
      ensures messages.Valid() && messages.Chain() == [] && messages.divider == null && !messages.moreAfter
      ensures fresh(messages) && fresh(messages.messagesChain) && fresh(settings) && fresh(finder) && fresh(messageEditor)
      ensures finder.messages == messages && finder.link == null
      ensures messageEditor.user == user && messageEditor.message == null
      ensures quote == null && forwarded.None? && selected == {} && prepareText == "" && prepareFiles == []
      ensures !resending
    {
      this.info := info;
      this.user := user;
      settings := new ChatSettings(info);
      var ms := new ChatMessages();
      messages := ms;
      finder := new MessageFinder(ms);
      messageEditor := new MessageEditor(user);
      quote := null;
      forwarded := None;
      selected := {};
      prepareText := "";
      prepareFiles := [];
      resending := false;
    }

    /** `user.info?._id`. */
    function SelfId(): Option<string>
      reads user
    {
      if user.info.Some? then Some(user.info.value.id) else None
    }

    /** The `member` getter: in a dialog, the first member who is not the current user. */
    function Member(): (r: Option<Person>)
      reads this, info, user
      ensures info.kind == ChatRoom ==> r.None?
      ensures r.Some? ==> r.value in info.members && Some(r.value.id) != SelfId()
      ensures info.kind == DialogRoom ==> (r.None? <==> forall j :: 0 <= j < |info.members| ==> Some(info.members[j].id) == SelfId())
    {
      if info.kind == DialogRoom then OtherMember(info.members, SelfId()) else None
    }

    /** The `isSaved` getter: a dialog with nobody but the current user, the saved-messages chat. */
    function IsSaved(): (r: bool)
      reads this, info, user
      ensures r <==> info.kind == DialogRoom && forall j :: 0 <= j < |info.members| ==> Some(info.members[j].id) == SelfId()
    {
      info.kind == DialogRoom && Member().None?
    }

    /** The `unread` getter: the saved-messages chat never counts as unread. */
    function Unread(): (n: int)
      reads this, info, user
      ensures IsSaved() ==> n == 0
      ensures !IsSaved() ==> n == info.unread
    {
      if !IsSaved() then info.unread else 0
    }

    /** The `unread` setter. */
    method SetUnread(value: int)
      modifies info
      ensures info.unread == value && info.members == old(info.members) && info.lastSeen == old(info.lastSeen)
      ensures info.lastMessage == old(info.lastMessage) && info.notifications == old(info.notifications)
      ensures info.name == old(info.name) && info.botChat == old(info.botChat)
    {
      info.unread := value;
    }

    /**
     * The `title` getter: for a dialog, the other member's "first last" when either name is
     * set, otherwise their username, otherwise the saved-messages title; for a group chat, its
     * name.
     */
    function Title(): (r: Option<string>)
      reads this, info, user
      ensures info.kind == ChatRoom ==> r == info.name
      ensures info.kind == DialogRoom && Member().Some? && (Truthy(Member().value.firstName) || Truthy(Member().value.lastName)) ==>
        r == Some(Text.Trim(Render(Member().value.firstName) + " " + Render(Member().value.lastName)))
      ensures info.kind == DialogRoom && Member().Some? && !Truthy(Member().value.firstName) && !Truthy(Member().value.lastName) ==>
        r == Some(if Truthy(Member().value.username) then Member().value.username.value else SavedTitle)
      ensures info.kind == DialogRoom && Member().None? ==> r == Some(SavedTitle)
    {
      match info.kind
      case ChatRoom => info.name
      case DialogRoom =>
        var m := Member();
        if m.Some? && (Truthy(m.value.firstName) || Truthy(m.value.lastName)) then
          Some(Text.Trim(Render(m.value.firstName) + " " + Render(m.value.lastName)))
        else if m.Some? && Truthy(m.value.username) then m.value.username
        else Some(SavedTitle)
    }

    /** The `keyboard` getter: a scan of the chain from the newest node. */
    method Keyboard() returns (r: Option<ChatKeyboard>)
      ensures r == KeyboardOf(FieldsList(messages.Raw()))
    {
      var chain := messages.messagesChain.chain;
      ghost var fs := FieldsList(messages.Raw());
      var i := 0;
      while i < |chain|
        invariant 0 <= i <= |chain|
        invariant forall j :: 0 <= j < i ==> !HasButtons(fs[j])
      {
        var keyboard := chain[i].message.fields.keyboard;
        if keyboard.Some? && |keyboard.value.buttons| > 0 {
          assert HasButtons(fs[i]);
          if keyboard.value.hide || (keyboard.value.oneTime && i != 0) {
            return None;
          }
          return Some(ChatKeyboard(chain[i].message.fields.id, keyboard.value.buttons));
        }
        i := i + 1;
      }
      return None;
    }

    /** `toggleSelect(message)`: tested by id, removed by identity. */
    method ToggleSelect(m: Message)
      modifies this
      ensures selected == ToggleSelectAsWritten(old(selected), m)
      ensures quote == old(quote) && forwarded == old(forwarded) && info == old(info)
      ensures prepareText == old(prepareText) && prepareFiles == old(prepareFiles) && resending == old(resending)
    {
      selected := ToggleSelectAsWritten(selected, m);
    }

    /** `checkSelected({ _id })`. */
    function CheckSelected(id: string): (r: bool)
      reads this, selected
      ensures r <==> exists m :: m in selected && m.fields.id == id
    {
      HasId(selected, id)
    }

    /** `setSelected(messages)`: exactly the given messages are selected. */
    method SetSelected(ms: seq<Message>)
      modifies this
      ensures forall x :: x in selected <==> x in ms
      ensures quote == old(quote) && forwarded == old(forwarded) && info == old(info)
      ensures prepareText == old(prepareText) && prepareFiles == old(prepareFiles) && resending == old(resending)
    {
      selected := set x | x in ms;
    }

    /** `setQuote(message)`: quoting cancels a pending forward. */
    method SetQuote(m: Message)
      modifies this
      ensures quote == m && forwarded.None? && QuoteOrForward()
      ensures selected == old(selected) && info == old(info)
      ensures prepareText == old(prepareText) && prepareFiles == old(prepareFiles) && resending == old(resending)
    {
      forwarded := None;
      quote := m;
    }

    /** `setForwarded(messages)`: choosing messages to forward drops the quote. */
    method SetForwarded(ms: Option<seq<Message>>)
      modifies this
      ensures forwarded == ms && quote == (if ms.Some? then null else old(quote))
      ensures old(QuoteOrForward()) ==> QuoteOrForward()
      ensures ms.Some? ==> QuoteOrForward()
      ensures selected == old(selected) && info == old(info)
      ensures prepareText == old(prepareText) && prepareFiles == old(prepareFiles) && resending == old(resending)
    {
      forwarded := ms;
      if ms.Some? {
        DelQuote();
      }
    }

    /** `delQuote()`. */
    method DelQuote()
      modifies this
      ensures quote == null && QuoteOrForward()
      ensures forwarded == old(forwarded) && selected == old(selected) && info == old(info)
      ensures prepareText == old(prepareText) && prepareFiles == old(prepareFiles) && resending == old(resending)
    {
      quote := null;
    }

    /** A quote and a forward are never pending together. */
    predicate QuoteOrForward()
      reads this
    {
      quote == null || forwarded.None?
    }
  
    // -------------------------------------------------------------------------
    // changes pushed for single messages

    /** The message of the first node with `id`: `chain.find(MessageLink.byId(id))?.message`. */
    function Located(id: string): (r: Message?)
      reads messages.messagesChain, messages.Raw()
      ensures r == null <==> forall j :: 0 <= j < |messages.Raw()| ==> messages.Raw()[j].fields.id != id
      ensures r != null ==> r in messages.Raw() && r.fields.id == id
    {
      var k := FindById(FieldsList(messages.Raw()), id);
      if k < 0 then null else messages.Raw()[k]
    }

    /** `updateLastMessage(message)`: the record's summary becomes that of the message. */
    method UpdateLastMessage(m: Message)
      requires m.Valid()
      modifies info
      ensures info.lastMessage == Some(ParseMessage(m))
      ensures info.unread == old(info.unread) && info.members == old(info.members) && info.lastSeen == old(info.lastSeen)
      ensures info.notifications == old(info.notifications) && info.name == old(info.name) && info.botChat == old(info.botChat)
    {
      info.lastMessage := Some(ParseMessage(m));
    }

    /** `updateLastSeen(lastSeen)`. */
    method UpdateLastSeen(lastSeen: string)
      modifies info
      ensures info.lastSeen == lastSeen && info.unread == old(info.unread) && info.members == old(info.members)
      ensures info.lastMessage == old(info.lastMessage) && info.notifications == old(info.notifications)
      ensures info.name == old(info.name) && info.botChat == old(info.botChat)
    {
      info.lastSeen := lastSeen;
    }

    /** `updateMessage(message)`: the first message with that id takes over the server copy. */
    method UpdateMessage(d: MessageData)
      requires Complete(d)
      modifies Located(d.id)
      ensures var m := old(Located(d.id));
        m != null ==> (m.Valid() && m.Data() == Normalize(d) && m.sending == old(m.sending) && m.error == old(m.error)
        && m.uploads == old(m.uploads) && m.isLoading == old(m.isLoading))
    {
      var m := Located(d.id);
      if m != null {
        m.Update(d);
      }
    }

    /** `toggleReactions(message, { user, emotion })` on the first message with that id. */
    method ToggleReactions(id: string, u: string, e: string)
      requires Located(id) != null ==> Located(id).Valid()
      modifies Located(id), if Located(id) == null then {} else set i | 0 <= i < |Located(id).emotions| :: Located(id).emotions[i]
      ensures var m := old(Located(id));
        m != null ==> m.Valid() && m.State() == old(m.State()).(reactions := Agg.Toggle(old(m.Reactions()), u, e))
    {
      var m := Located(id);
      if m != null {
        m.ToggleReactions(u, e);
      }
    }

    /** `markDelete(message)`: the first message with that id is marked deleted. */
    method MarkDelete(id: string)
      modifies Located(id)
      ensures var m := old(Located(id));
        m != null ==> m.State() == old(m.State()).(fields := old(m.fields).(deleted := true, body := DeletedText))
    {
      var m := Located(id);
      if m != null {
        m.SetDeleted();
      }
    }

    /**
     * `readFrom(user, lastSeen)`: the time is recorded; another user's read marks the current
     * user's messages read, the current user's own read clears the unread count.
     */
    method ReadFrom(userId: string, lastSeen: string)
      modifies info, messages.Raw()
      ensures info.lastSeen == lastSeen
      ensures Some(userId) != SelfId() ==> (info.unread == old(info.unread)
        && forall j :: 0 <= j < |messages.Raw()| ==> messages.Raw()[j].State() == Readed(old(messages.Raw()[j].State()), SelfId()))
      ensures Some(userId) == SelfId() ==> (info.unread == 0
        && forall j :: 0 <= j < |messages.Raw()| ==> messages.Raw()[j].State() == old(messages.Raw()[j].State()))
      ensures info.members == old(info.members) && info.lastMessage == old(info.lastMessage)
      ensures info.notifications == old(info.notifications) && info.name == old(info.name) && info.botChat == old(info.botChat)
    {
      ghost var raw := messages.Raw();
      UpdateLastSeen(lastSeen);
      forall j | 0 <= j < |raw|
        ensures raw[j].State() == old(raw[j].State())
      {
      }
      if Some(userId) != SelfId() {
        messages.MarkReaded(SelfId());
      } else {
        SetUnread(0);
      }
    }

    // -------------------------------------------------------------------------
    // send, resend, cancel, delete

    /**
     * The synchronous part of `sendMessage(message)`: the message is marked sending, its
     * uploads are started, and it becomes the newest node before anything is awaited.
     */
    method BeginSend(m: Message) returns (ticket: SendTicket)
      requires messages.Valid()
      modifies m, set i | 0 <= i < |m.uploads| :: m.uploads[i].loader
      modifies messages, messages.messagesChain, messages.messagesChain.Last()
      ensures ticket == SendTicket(m, old(|m.uploads|) > 0)
      ensures m.State() == old(m.State()).(sending := true, isLoading := old(m.isLoading) || ticket.uploading)
      ensures forall i :: 0 <= i < |m.uploads| ==> !m.uploads[i].loader.StopActs()
      ensures messages.Valid() && |messages.Chain()| == |old(messages.Chain())| + 1
      ensures messages.Chain()[1..] == old(messages.Chain())
      ensures fresh(messages.Chain()[0]) && messages.Chain()[0].message == m
      ensures messages.divider == NextDivider(old(messages.divider), messages.Chain()[0], SelfId())
      ensures messages.moreAfter == old(messages.moreAfter) && messages.moreBefore == old(messages.moreBefore)
    {
      var started := MarkOutgoing(m);
      ticket := SendTicket(m, started);
      messages.AddHard(m, SelfId());
    }

    /** The message's part of `sendMessage`'s first step: marked sending, uploads started. */
    static method MarkOutgoing(m: Message) returns (started: bool)
      modifies m, set i | 0 <= i < |m.uploads| :: m.uploads[i].loader
      ensures started <==> old(|m.uploads|) > 0
      ensures m.State() == old(m.State()).(sending := true, isLoading := old(m.isLoading) || started)
      ensures forall i :: 0 <= i < |m.uploads| ==> !m.uploads[i].loader.StopActs()
    {
      m.MarkSending(true);
      started := m.BeginUploads();
    }

    /**
     * The awaited part of `sendMessage`, given `answer(i)`, what starting upload `i` gives, and
     * `sent`, what `Message.send` answers.
     */
    method FinishSend(ticket: SendTicket, answer: nat -> Result<Attachment>, sent: Result<string>) returns (failure: Option<Failure>)
      requires ticket.uploading ==> ticket.message.UploadsDistinct()
      modifies ticket.message, ticket.message.uploads
      ensures var o := Loads(Resolve(old(ticket.message.Cached()), answer));
        ticket.message.State() == SendOutcome(old(ticket.message.State()), ticket.uploading, o, sent)
        && failure == SendFailure(ticket.uploading, o, sent)
    {
      var m := ticket.message;
      failure := None;
      if ticket.uploading {
        failure := m.FinishUploads(answer);
        if failure.Some? {
          m.MarkError(Raised(failure.value));
          return;
        }
      }
      match sent
      case Ok(id) =>
        m.MarkSending(false);
        m.MarkError(NoError);
        m.SetId(id);
      case Err(f) =>
        m.MarkError(Raised(f));
        failure := Some(f);
    }

    /** `resend` acts on a failed message of the current user's, one resend at a time. */
    predicate MayResend(link: MessageLink)
      reads this, user, link.message
    {
      link.message.error != NoError && IsSelf(link, SelfId()) == Some(true) && !resending
    }

    /**
     * The synchronous part of `resend(link)`: when it may act, the resend is marked in flight,
     * the error cleared and the uploads restarted; otherwise nothing changes.
     */
    method BeginResend(link: MessageLink) returns (ticket: Option<SendTicket>)
      modifies this, link.message, set i | 0 <= i < |link.message.uploads| :: link.message.uploads[i].loader
      ensures old(MayResend(link)) ==> (resending && ticket == Some(SendTicket(link.message, old(|link.message.uploads|) > 0))
        && link.message.State() == old(link.message.State()).(error := NoError, isLoading := old(link.message.isLoading) || ticket.value.uploading))
      ensures !old(MayResend(link)) ==> ticket.None? && resending == old(resending) && link.message.State() == old(link.message.State())
      ensures quote == old(quote) && forwarded == old(forwarded) && selected == old(selected) && info == old(info)
      ensures prepareText == old(prepareText) && prepareFiles == old(prepareFiles)
    {
      ticket := None;
      var m := link.message;
      if m.error != NoError && IsSelf(link, SelfId()) == Some(true) && !resending {
        resending := true;
        m.MarkError(NoError);
        var started := m.BeginUploads();
        ticket := Some(SendTicket(m, started));
      }
    }

    /**
     * The awaited part of `resend`: the flag in flight is cleared; on success the message is
     * settled under the server id, its old node removed and a new newest node made for it; on
     * failure the error is recorded and the chain stays.
     */
    method FinishResend(link: MessageLink, ticket: SendTicket, answer: nat -> Result<Attachment>, sent: Result<string>)
      returns (failure: Option<Failure>)
      requires ticket.message == link.message
      requires ticket.uploading ==> link.message.UploadsDistinct()
      requires messages.Valid() && link in messages.Chain()
      modifies this, link.message, link.message.uploads
      modifies messages, messages.messagesChain, link.prev, link.next, messages.messagesChain.Last()
      ensures !resending
      ensures var o := Loads(Resolve(old(link.message.Cached()), answer));
        link.message.State() == SendOutcome(old(link.message.State()), ticket.uploading, o, sent)
        && failure == SendFailure(ticket.uploading, o, sent)
      ensures failure.Some? ==> messages.Chain() == old(messages.Chain()) && messages.Valid()
      ensures failure.None? ==> (messages.Valid() && |messages.Chain()| >= 1
        && messages.Chain()[1..] == Without(old(messages.Chain()), link)
        && fresh(messages.Chain()[0]) && messages.Chain()[0].message == link.message
        && messages.divider == NextDivider(old(messages.divider), messages.Chain()[0], SelfId()))
      ensures quote == old(quote) && forwarded == old(forwarded) && selected == old(selected) && info == old(info)
      ensures prepareText == old(prepareText) && prepareFiles == old(prepareFiles)
    {
      failure := Settle(ticket, answer, sent);
      if failure.None? {
        Requeue(link);
      }
    }

    /** The message's part of `resend` after the await: the flag in flight is cleared and the send settled. */
    method Settle(ticket: SendTicket, answer: nat -> Result<Attachment>, sent: Result<string>) returns (failure: Option<Failure>)
      requires ticket.uploading ==> ticket.message.UploadsDistinct()
      modifies this, ticket.message, ticket.message.uploads
      ensures !resending
      ensures var o := Loads(Resolve(old(ticket.message.Cached()), answer));
        ticket.message.State() == SendOutcome(old(ticket.message.State()), ticket.uploading, o, sent)
        && failure == SendFailure(ticket.uploading, o, sent)
      ensures messages.Chain() == old(messages.Chain()) && (old(messages.Valid()) ==> messages.Valid())
      ensures quote == old(quote) && forwarded == old(forwarded) && selected == old(selected) && info == old(info)
      ensures prepareText == old(prepareText) && prepareFiles == old(prepareFiles)
    {
      resending := false;
      ghost var chain := messages.Chain();
      failure := FinishSend(ticket, answer, sent);
      assert messages.Chain() == chain;
    }

    /** The chain's part of a successful `resend`: the old node goes and a newest one comes. */
    method Requeue(link: MessageLink)
      requires messages.Valid() && link in messages.Chain()
      modifies messages, messages.messagesChain, link.prev, link.next, messages.messagesChain.Last()
      ensures messages.Valid() && |messages.Chain()| >= 1
      ensures messages.Chain()[1..] == Without(old(messages.Chain()), link)
      ensures fresh(messages.Chain()[0]) && messages.Chain()[0].message == link.message
      ensures messages.divider == NextDivider(old(messages.divider), messages.Chain()[0], SelfId())
    {
      NewestAfterCut(messages.Chain(), link);
      messages.Remove(link);
      messages.AddHard(link.message, SelfId());
    }

    /** `cancel(link)`: while the message is uploading, its uploads stop and its node is removed. */
    method Cancel(link: MessageLink)
      modifies set i | 0 <= i < |link.message.uploads| :: link.message.uploads[i].loader
      modifies messages.messagesChain, link.prev, link.next
      ensures old(link.message.isLoading) ==> (messages.Chain() == Without(old(messages.Chain()), link)
        && forall i :: 0 <= i < |link.message.uploads| ==> !link.message.uploads[i].loader.StopActs())
      ensures !old(link.message.isLoading) ==> messages.Chain() == old(messages.Chain())
      ensures old(messages.Valid()) && link in old(messages.Chain()) ==> messages.Valid()
    {
      var m := link.message;
      if m.isLoading {
        m.StopUploads();
        messages.Remove(link);
      }
    }

    /**
     * The decision of `delete(link)`: a failed message is only removed locally; one still
     * sending and uploading has its uploads stopped and is removed; anything else is marked
     * deleted, through the first message with its id, and the id returned for the server's
     * delete.
     */
    method Discard(link: MessageLink) returns (request: Option<string>)
      modifies set i | 0 <= i < |link.message.uploads| :: link.message.uploads[i].loader
      modifies messages.messagesChain, link.prev, link.next, Located(link.message.fields.id)
      ensures var m := link.message;
        old(m.error != NoError || (m.sending && m.isLoading)) ==> (request.None?
        && messages.Chain() == Without(old(messages.Chain()), link)
        && (old(messages.Valid()) && link in old(messages.Chain()) ==> messages.Valid()))
      ensures var m := link.message;
        old(m.error == NoError && m.sending && m.isLoading) ==>
        forall i :: 0 <= i < |m.uploads| ==> !m.uploads[i].loader.StopActs()
      ensures var m, d := link.message, old(Located(link.message.fields.id));
        old(m.error == NoError && !(m.sending && m.isLoading)) ==> (request == Some(old(m.fields.id))
        && messages.Chain() == old(messages.Chain())
        && (link in old(messages.Chain()) ==> d != null)
        && (d != null ==> d.State() == old(d.State()).(fields := old(d.fields).(deleted := true, body := DeletedText))))
    {
      var m := link.message;
      request := None;
      if m.error != NoError {
        messages.Remove(link);
      } else if m.sending && m.isLoading {
        Cancel(link);
      } else {
        request := Some(m.fields.id);
        MarkDelete(m.fields.id);
      }
    }

    /** The clean-up after `delete`: the message leaves the selection, the editor and the quote. */
    method Forget(m: Message)
      modifies this, messageEditor
      ensures selected == old(selected) - {m}
      ensures quote == if old(quote) == m then null else old(quote)
      ensures messageEditor.message == if old(messageEditor.message) == m then null else old(messageEditor.message)
      ensures messageEditor.input == old(messageEditor.input)
      ensures forwarded == old(forwarded) && info == old(info) && resending == old(resending)
      ensures prepareText == old(prepareText) && prepareFiles == old(prepareFiles)
    {
      selected := selected - {m};
      if messageEditor.message == m {
        messageEditor.SetMessage(null);
      }
      if quote == m {
        DelQuote();
      }
    }

    /** `delete(link)`: the decision, then the clean-up. */
    method Delete(link: MessageLink) returns (request: Option<string>)
      modifies this, messageEditor, set i | 0 <= i < |link.message.uploads| :: link.message.uploads[i].loader
      modifies messages.messagesChain, link.prev, link.next, Located(link.message.fields.id)
      ensures var m := link.message;
        old(m.error != NoError || (m.sending && m.isLoading)) ==> (request.None?
        && messages.Chain() == Without(old(messages.Chain()), link)
        && (old(messages.Valid()) && link in old(messages.Chain()) ==> messages.Valid()))
      ensures var m, d := link.message, old(Located(link.message.fields.id));
        old(m.error == NoError && !(m.sending && m.isLoading)) ==> (request == Some(old(m.fields.id))
        && messages.Chain() == old(messages.Chain())
        && (link in old(messages.Chain()) ==> d != null)
        && (d != null ==> d.State() == old(d.State()).(fields := old(d.fields).(deleted := true, body := DeletedText))))
      ensures link.message !in selected && selected == old(selected) - {link.message}
      ensures quote != link.message && messageEditor.message != link.message
      ensures old(quote) != link.message ==> quote == old(quote)
      ensures old(messageEditor.message) != link.message ==> messageEditor.message == old(messageEditor.message)
    {
      request := Discard(link);
      Forget(link.message);
    }

    /**
     * `sendNewMessage()`: nothing happens while the text is blank and no file is picked;
     * otherwise text, files and quote are cleared and the messages `send` makes of them are
     * returned.
     */
    method SendNewMessage() returns (drafts: Option<seq<Draft>>)
      modifies this
      ensures drafts.None? <==> (forall i :: 0 <= i < |old(prepareText)| ==> Text.IsWhitespace(old(prepareText)[i])) && old(prepareFiles) == []
      ensures drafts.None? ==> prepareText == old(prepareText) && prepareFiles == old(prepareFiles) && quote == old(quote)
      ensures drafts.Some? ==> (drafts.value == Outgoing(Text.Trim(old(prepareText)), old(prepareFiles), old(quote))
        && prepareText == "" && prepareFiles == [] && quote == null)
      ensures forwarded == old(forwarded) && selected == old(selected) && info == old(info) && resending == old(resending)
    {
      var sendingText := Text.Trim(prepareText);
      Text.TrimBlank(prepareText);
      if sendingText != "" || |prepareFiles| > 0 {
        drafts := Some(Outgoing(sendingText, prepareFiles, quote));
        prepareText := "";
        prepareFiles := [];
        quote := null;
      } else {
        drafts := None;
      }
    }

    /** `setInfo(info)`: the chat takes another record; its settings keep the old one. */
    method SetInfo(info: ConversationInfo)
      modifies this
      ensures this.info == info
      ensures quote == old(quote) && forwarded == old(forwarded) && selected == old(selected) && resending == old(resending)
      ensures prepareText == old(prepareText) && prepareFiles == old(prepareFiles)
    {
      this.info := info;
    }

    /** The `isHaveUnread` getter. */
    function HasUnread(): (r: bool)
      reads this, info, user
      ensures r <==> !IsSaved() && info.unread != 0
    {
      Unread() != 0
    }
  }

  // ---------------------------------------------------------------------------
  // the static predicates

  /** `Chat.byLastMessage`. */
  function ByLastMessage(c: Chat): (r: bool)
    reads c, c.info
    ensures r <==> c.info.lastMessage.Some?
  {
    c.info.lastMessage.Some?
  }

  /** `Chat.byId(id)`. */
  function ById(id: string, c: Chat): (r: bool)
    reads c
    ensures r <==> c.info.id == id
  {
    c.info.id == id
  }

  /** `Chat.byIds(ids)`: the chat's id is one of `ids`. */
  function ByIds(ids: seq<string>, c: Chat): (r: bool)
    reads c
    ensures r <==> exists k :: 0 <= k < |ids| && ids[k] == c.info.id
  {
    c.info.id in ids
  }

  /** `Chat.equal(chat1, flag)`: identity, or its negation. */
  function Equal(c1: Chat, flag: bool, c2: Chat): (r: bool)
    ensures r <==> if flag then c1 == c2 else c1 != c2
  {
    (c1 == c2) == flag
  }

  /**
   * `Chat.byUnread(flag)`: whether the chat counts as unread, a chat other than the saved
   * messages with a non-zero count, is `flag`.
   */
  function ByUnread(flag: bool, c: Chat): (r: bool)
    reads c, c.info, c.user
    ensures r <==> (flag <==> !c.IsSaved() && c.info.unread != 0)
  {
    c.HasUnread() == flag
  }

  /**
   * `Chat.createFakeSaved(user)`: the placeholder saved-messages chat, a dialog of the
   * current user with themself, with notifications on and nothing unread; `now` is the clock.
   */
  method CreateFakeSaved(user: User, now: string) returns (c: Chat)
    requires user.info.Some?
    ensures fresh(c) && fresh(c.info) && c.user == user
    ensures c.info.id == FakeSavedId && c.info.kind == DialogRoom && c.info.members == [user.info.value, user.info.value]
    ensures c.info.unread == 0 && c.info.lastSeen == now && c.info.lastMessage.None?
    ensures c.info.notifications == Some(Notifications(true, true, true)) && !c.settings.IsMute()
    ensures c.IsSaved() && c.Unread() == 0 && c.Title() == Some(SavedTitle)
  {
    var p := user.info.value;
    var info := new ConversationInfo(FakeSavedId, DialogRoom, [p, p], 0, now, None,
      Some(Notifications(true, true, true)), None, false);
    c := new Chat(info, user);
  }
}
