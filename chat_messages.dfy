/**
 * The message list of one chat: paging flags, the "new messages" divider and the matching
 * of pushed messages against pending ones (ChatMessages.ts).
 */
module ChatMessagesModule {
  import opened Wrappers
  import opened Messages
  import opened MessageLinks
  import opened MessagesChains

  // ---------------------------------------------------------------------------
  // the divider

  /**
   * `setNew(link)`: what the divider becomes. A missing link clears it; a link is taken only
   * while there is no divider and the link is not known to be the user's own.
   */
  function NextDivider(current: MessageLink?, link: MessageLink?, selfId: Option<string>): (r: MessageLink?)
    reads if link == null then {} else {link.message}
    ensures link == null ==> r == null
    ensures current != null ==> r == current || r == null
    ensures current == null && link != null ==> (r == link <==> IsSelf(link, selfId) != Some(true))
    ensures r == null || r == current || r == link
  {
    if link == null || (current == null && IsSelf(link, selfId) != Some(true)) then link else current
  }

  /** The fields of the messages, in order. */
  function FieldsList(ms: seq<Message>): (fs: seq<MessageFields>)
    reads ms
    ensures |fs| == |ms| && forall i :: 0 <= i < |ms| ==> fs[i] == ms[i].fields
  {
    seq(|ms|, i requires 0 <= i < |ms| reads ms => ms[i].fields)
  }

  /** The ids, in order. */
  function IdsOf(fs: seq<MessageFields>): (ids: seq<string>)
    ensures |ids| == |fs| && forall i :: 0 <= i < |fs| ==> ids[i] == fs[i].id
  {
    seq(|fs|, i requires 0 <= i < |fs| => fs[i].id)
  }

  /** Length of the longest prefix of `fetched` whose ids are not among `known`. */
  function FreshPrefix(fetched: seq<string>, known: seq<string>): (n: nat)
    ensures n <= |fetched|
    ensures forall j :: 0 <= j < n ==> fetched[j] !in known
    ensures n < |fetched| ==> fetched[n] in known
  {
    if fetched == [] || fetched[0] in known then 0 else 1 + FreshPrefix(fetched[1..], known)
  }

  /** A prefix length with the characterising properties is the one `FreshPrefix` gives. */
  lemma {:induction false} FreshPrefixUnique(fetched: seq<string>, known: seq<string>, n: nat)
    requires n <= |fetched|
    requires forall j :: 0 <= j < n ==> fetched[j] !in known
    requires n < |fetched| ==> fetched[n] in known
    ensures FreshPrefix(fetched, known) == n
  {
    if n > 0 {
      assert fetched[0] !in known;
      FreshPrefixUnique(fetched[1..], known, n - 1);
    }
  }

  /**
   * `links.reverse().find(MessageLink.isSelf(false))` over the fields of the nodes' messages:
   * the index of the oldest message from another user, or -1 when there is none.
   */
  function OldestFromOther(fs: seq<MessageFields>, selfId: Option<string>): (r: int)
    ensures -1 <= r < |fs|
    ensures r >= 0 ==> SelfOf(fs[r], selfId) == Some(false)
    ensures forall k :: r < k < |fs| ==> SelfOf(fs[k], selfId) != Some(false)
  {
    if fs == [] then -1
    else if SelfOf(fs[|fs| - 1], selfId) == Some(false) then |fs| - 1
    else OldestFromOther(fs[..|fs| - 1], selfId)
  }

  /** `links.find(MessageLink.byId(id))` over the fields of the nodes' messages: the first index with `id`, or -1. */
  function FindById(fs: seq<MessageFields>, id: string): (r: int)
    ensures -1 <= r < |fs|
    ensures r >= 0 ==> fs[r].id == id
    ensures forall j :: 0 <= j < |fs| && (r < 0 || j < r) ==> fs[j].id != id
  {
    if fs == [] then -1
    else if fs[0].id == id then 0
    else var k := FindById(fs[1..], id); if k < 0 then -1 else k + 1
  }

  /**
   * The node `updateChain` hands to `setNew`, given the new nodes `links` whose messages have
   * fields `fs`, the ids `known` the chain held before, and the id of the current divider.
   * Without a divider: the oldest node from another user within the leading run of nodes
   * whose ids were not known. With one: the first new node with the divider's id.
   */
  function Candidate(current: Option<string>, links: seq<MessageLink>, fs: seq<MessageFields>, known: seq<string>,
                     selfId: Option<string>): (r: MessageLink?)
    requires |fs| == |links|
    ensures r == null || r in links
  {
    var k := if current.None? then OldestFromOther(fs[..FreshPrefix(IdsOf(fs), known)], selfId)
             else FindById(fs, current.value);
    if k < 0 then null else links[k]
  }

  /**
   * What `updateChain` does to the divider, given new nodes whose messages have fields `fs`:
   * without a divider, it becomes the oldest node from another user within the leading run of
   * nodes whose ids were not known (none when there is no such node); an existing divider is
   * kept, as the same node, while some new node has its id, and is cleared otherwise.
   */
  lemma RenewedDivider(current: MessageLink?, links: seq<MessageLink>, fs: seq<MessageFields>, known: seq<string>,
                       selfId: Option<string>)
    requires |fs| == |links| && forall i :: 0 <= i < |links| ==> links[i].message.fields == fs[i]
    ensures var id := if current == null then None else Some(current.message.fields.id);
      var d := NextDivider(current, Candidate(id, links, fs, known, selfId), selfId);
      var n := FreshPrefix(IdsOf(fs), known);
      var k := OldestFromOther(fs[..n], selfId);
      (current == null ==> d == if k < 0 then null else links[k])
      && (current == null && k >= 0 ==> forall j :: 0 <= j <= k ==> fs[j].id !in known)
      && (current != null ==> d == if FindById(fs, current.message.fields.id) < 0 then null else current)
  {
    if current == null {
      var n := FreshPrefix(IdsOf(fs), known);
      var k := OldestFromOther(fs[..n], selfId);
      if k >= 0 {
        assert links[k].message.fields == fs[..n][k];
      }
    }
  }

  // ---------------------------------------------------------------------------
  // reconciliation of a pushed message

  /** What `check` decides: insert the message, it is already there, or it confirms node `index`. */
  datatype Verdict = Insert | Known | Confirm(index: nat)

  /** A pending node that a pushed message confirms: same text, attachments and sender. */
  predicate Pending(m: Message, nm: Message)
    reads m, nm
  {
    m.sending && CompareBody(m, nm) && SameAttachments(m.fields.attachments, nm.fields.attachments)
    && CompareSender(m, nm)
  }

  /** Whether node `m` stops the scan for `nm`. */
  predicate Stops(m: Message, nm: Message)
    reads m, nm
  {
    if nm.LayoutType() == Forward then CompareForwarded(m, nm)
    else m.fields.id == nm.fields.id || Pending(m, nm)
  }

  /** A message confirmed with the id `id`: it takes the id and loses its sending and error marks. */
  function Confirmed(s: Snapshot, id: string): (r: Snapshot)
    ensures r.fields.id == id && !r.sending && r.error == NoError
    ensures r.(fields := s.fields, sending := s.sending, error := s.error) == s
    ensures r.fields.(id := s.fields.id) == s.fields
  {
    s.(fields := s.fields.(id := id), sending := false, error := NoError)
  }

  /**
   * What reconciling a pushed message with id `id` did to the messages `ms` of the chain, for
   * the verdict `v` of the scan: a confirmed message is as `Confirmed` says, and every other
   * message stayed as it was.
   */
  twostate predicate Merged(ms: seq<Message>, v: Verdict, id: string)
    reads ms
  {
    forall j {:trigger ms[j].Snap()} :: 0 <= j < |ms| ==>
      ms[j].Snap() == if v.Confirm? && v.index < |ms| && ms[j] == ms[v.index] then Confirmed(old(ms[j].Snap()), id) else old(ms[j].Snap())
  }

  /** The verdict of `check` for `nm` over the messages from index `i` on, newest first. */
  function ScanFrom(ms: seq<Message>, nm: Message, i: nat): (v: Verdict)
    requires i <= |ms|
    reads ms, nm
    ensures v.Confirm? ==> i <= v.index < |ms|
    decreases |ms| - i
  {
    if i == |ms| then Insert
    else if !Stops(ms[i], nm) then ScanFrom(ms, nm, i + 1)
    else if nm.LayoutType() == Default && ms[i].fields.id == nm.fields.id then Known
    else Confirm(i)
  }

  /**
   * The scan stops at the first (newest) node that stops it: a forward confirms the first node
   * forwarding the same message, whether or not that node is pending; any other message is
   * known when that node has its id and confirms that node otherwise; with no such node the
   * message is inserted.
   */
  lemma {:induction false} ScanMeaning(ms: seq<Message>, nm: Message, i: nat)
    requires i <= |ms|
    ensures ScanFrom(ms, nm, i).Insert? <==> forall j :: i <= j < |ms| ==> !Stops(ms[j], nm)
    ensures ScanFrom(ms, nm, i).Confirm? ==>
      var k := ScanFrom(ms, nm, i).index;
      i <= k < |ms| && (forall j :: i <= j < k ==> !Stops(ms[j], nm))
      && (if nm.LayoutType() == Forward then CompareForwarded(ms[k], nm)
          else ms[k].fields.id != nm.fields.id && Pending(ms[k], nm))
    ensures ScanFrom(ms, nm, i).Known? ==>
      nm.LayoutType() == Default
      && exists k :: i <= k < |ms| && ms[k].fields.id == nm.fields.id && forall j :: i <= j < k ==> !Stops(ms[j], nm)
    decreases |ms| - i
  {
    if i < |ms| && !Stops(ms[i], nm) {
      ScanMeaning(ms, nm, i + 1);
    }
  }

  /** `Array.prototype.reverse` on a list of messages. */
  function Reverse(ms: seq<Message>): (r: seq<Message>)
    ensures |r| == |ms| && forall i :: 0 <= i < |ms| ==> r[i] == ms[|ms| - 1 - i]
  {
    if ms == [] then [] else Reverse(ms[1..]) + [ms[0]]
  }

  /** What `getSurrounding` resolves to. */
  datatype Surrounding = Surrounding(messages: seq<Message>, moreAfter: bool, moreBefore: bool)

  /** `messages.shift(); messages.reverse()` on what `getNext` resolves to. */
  function NextPage(ms: seq<Message>): (r: seq<Message>)
    ensures |r| == if ms == [] then 0 else |ms| - 1
    ensures forall i :: 0 <= i < |r| ==> r[i] == ms[|ms| - 1 - i]
  {
    if ms == [] then [] else Reverse(ms[1..])
  }

  /** A request for one page of the chat's history: the timestamp it is anchored at and its size. */
  datatype PageRequest = PageRequest(timestamp: int, limit: nat)

  /** A message that is neither being sent nor failed. */
  predicate Settled(m: Message)
    reads m
  {
    !m.sending && m.error == NoError
  }

  /** The state `markReaded` leaves a message in, given the state before. */
  function Readed(st: MessageState, selfId: Option<string>): MessageState {
    if SelfOf(st.fields, selfId) == Some(true) then st.(fields := st.fields.(unread := Some(false))) else st
  }

  /** The first node whose message is neither being sent nor failed. */
  function FirstSettled(chain: seq<MessageLink>): (r: Option<nat>)
    reads set i | 0 <= i < |chain| :: chain[i].message
    ensures r.None? <==> forall j :: 0 <= j < |chain| ==> !Settled(chain[j].message)
    ensures r.Some? ==> r.value < |chain| && Settled(chain[r.value].message)
    ensures r.Some? ==> forall j :: 0 <= j < r.value ==> !Settled(chain[j].message)
  {
    if chain == [] then None
    else if Settled(chain[0].message) then Some(0)
    else match FirstSettled(chain[1..])
      case None => None
      case Some(k) => Some(k + 1)
  }

  /** The loop of `markReaded` over the messages of the chain's nodes. */
  method MarkEach(ms: seq<Message>, selfId: Option<string>)
    modifies ms
    ensures forall j :: 0 <= j < |ms| ==> ms[j].State() == Readed(old(ms[j].State()), selfId)
  {
    var i := 0;
    while i < |ms|
      invariant 0 <= i <= |ms|
      invariant forall j :: 0 <= j < |ms| ==>
        ms[j].State() == Readed(old(ms[j].State()), selfId) || (i <= j && ms[j].State() == old(ms[j].State()))
    {
      label Step:
      MarkAt(ms, i, selfId);
      forall j | 0 <= j < |ms|
        ensures ms[j].State() == Readed(old(ms[j].State()), selfId) || (i < j && ms[j].State() == old(ms[j].State()))
      {
        if ms[j] == ms[i] {
          ReadedTwice(old(ms[j].State()), selfId);
          assert ms[j].State() == Readed(old@Step(ms[j].State()), selfId);
        } else {
          assert ms[j].State() == old@Step(ms[j].State());
        }
      }
      i := i + 1;
    }
  }

  /** Marking read twice is marking read once. */
  lemma ReadedTwice(st: MessageState, selfId: Option<string>)
    ensures Readed(Readed(st, selfId), selfId) == Readed(st, selfId)
  {
  }

  /** One pass of the loop of `markReaded`: message `i` is marked read when it is the user's own (`isSelf` is true). */
  method MarkAt(ms: seq<Message>, i: nat, selfId: Option<string>)
    requires i < |ms|
    modifies ms[i]
    ensures ms[i].State() == Readed(old(ms[i].State()), selfId)
    ensures forall j :: 0 <= j < |ms| && ms[j] != ms[i] ==> ms[j].State() == old(ms[j].State())
  {
    var m := ms[i];
    if SelfOf(m.fields, selfId) == Some(true) {
      m.SetReaded();
    }
  }

  class ChatMessages {
    const messagesChain: MessagesChain
    var moreAfter: bool
    var moreBefore: bool
    /** `new`: the node from which messages count as new. */
    var divider: MessageLink?
    var loadingGet: bool
    var loadingPrev: bool
    var loadingNext: bool

    predicate Valid()
      reads messagesChain, messagesChain.chain
    {
      messagesChain.Valid()
    }

    function Chain(): seq<MessageLink>
      reads messagesChain
    {
      messagesChain.chain
    }

    /** `raw`: the messages of the chain, newest first. */
    function Raw(): (ms: seq<Message>)
      reads messagesChain
      ensures |ms| == |Chain()| && forall i :: 0 <= i < |ms| ==> ms[i] == Chain()[i].message
    {
      MessagesOf(messagesChain.chain)
    }

    /** `new ChatMessages(chat)`: an empty chain, no divider, nothing loading. */
    constructor ()
      ensures Valid() && Chain() == [] && divider == null && fresh(messagesChain)
      ensures !moreAfter && !moreBefore && !loadingGet && !loadingPrev && !loadingNext
    {
      messagesChain := new MessagesChain([]);
      moreAfter, moreBefore := false, false;
      divider := null;
      loadingGet, loadingPrev, loadingNext := false, false, false;
    }

    /** `setNew(link)`. */
    method SetNew(link: MessageLink?, selfId: Option<string>)
      modifies this
      ensures Chain() == old(Chain()) && (old(Valid()) ==> Valid())
      ensures divider == NextDivider(old(divider), link, selfId)
      ensures moreAfter == old(moreAfter) && moreBefore == old(moreBefore)
      ensures loadingGet == old(loadingGet) && loadingPrev == old(loadingPrev) && loadingNext == old(loadingNext)
    {
      if link == null || (divider == null && IsSelf(link, selfId) != Some(true)) {
        divider := link;
      }
    }

    /**
     * `updateChain(messages)`: the chain is rebuilt from the pending messages and `ms`, and the
     * divider is renewed with `setNew` on the node `Candidate` picks among the new nodes.
     */
    method UpdateChain(ms: seq<Message>, selfId: Option<string>)
      requires Valid()
      modifies this, messagesChain
      ensures Valid() && |Chain()| >= |ms|
      ensures MessagesOf(Chain()[..|Chain()| - |ms|]) == old(SendingOf(Raw()))
      ensures MessagesOf(Chain()[|Chain()| - |ms|..]) == ms
      ensures divider == NextDivider(old(divider),
        Candidate(old(DividerId()), Chain()[|Chain()| - |ms|..], old(FieldsList(ms)), old(IdsOf(FieldsList(Raw()))), selfId),
        selfId)
      ensures moreAfter == old(moreAfter) && moreBefore == old(moreBefore)
      ensures loadingGet == old(loadingGet) && loadingPrev == old(loadingPrev) && loadingNext == old(loadingNext)
    {
      var known := IdsOf(FieldsList(Raw()));
      var fs := FieldsList(ms);
      var id := DividerId();
      var pending, links := messagesChain.Update(ms);
      assert Chain()[|Chain()| - |ms|..] == links;
      SetNew(Candidate(id, links, fs, known, selfId), selfId);
    }

    /** The id of the divider's message, if there is a divider. */
    function DividerId(): Option<string>
      reads this, if divider == null then {} else {divider.message}
    {
      if divider == null then None else Some(divider.message.fields.id)
    }

    /**
     * `check(newMessage)`: scans the chain newest first. A confirmed node loses its `sending`
     * and `error` marks and takes the pushed message's id. Returns whether the message is to be
     * inserted.
     */
    method Check(nm: Message) returns (insert: bool)
      modifies Raw()
      ensures var v := old(ScanFrom(Raw(), nm, 0));
        insert == v.Insert?
        && (v.Confirm? ==>
          var m := Raw()[v.index];
          m.State() == old(m.State()).(fields := old(m.fields).(id := old(nm.fields.id)), sending := false, error := NoError))
      ensures var v := old(ScanFrom(Raw(), nm, 0));
        forall j :: 0 <= j < |Raw()| && (v.Confirm? ==> Raw()[j] != Raw()[v.index]) ==> unchanged(Raw()[j])
      ensures Merged(old(Raw()), old(ScanFrom(Raw(), nm, 0)), old(nm.fields.id))
    {
      var v := Scan(nm);
      if v.Confirm? {
        Confirm(messagesChain.chain[v.index].message, nm.fields.id);
      }
      return v.Insert?;
    }

    /** The loops of `check` up to the point where they stop, which change nothing. */
    method Scan(nm: Message) returns (v: Verdict)
      ensures v == ScanFrom(Raw(), nm, 0)
    {
      var chain := messagesChain.chain;
      ghost var ms := Raw();
      var i := 0;
      if nm.LayoutType() == Forward {
        while i < |chain|
          invariant 0 <= i <= |chain|
          invariant ScanFrom(ms, nm, i) == ScanFrom(ms, nm, 0)
        {
          if CompareForwarded(chain[i].message, nm) {
            return Verdict.Confirm(i);
          }
          i := i + 1;
        }
      } else {
        while i < |chain|
          invariant 0 <= i <= |chain|
          invariant ScanFrom(ms, nm, i) == ScanFrom(ms, nm, 0)
        {
          var m := chain[i].message;
          if m.fields.id == nm.fields.id {
            return Known;
          }
          var sameAttachments := CompareAttachment(m, nm);
          if m.sending && CompareBody(m, nm) && sameAttachments && CompareSender(m, nm) {
            return Verdict.Confirm(i);
          }
          i := i + 1;
        }
      }
      return Insert;
    }

    /**
     * `add(message)` for a message pushed by the server. With the newest page loaded, a message
     * that `check` does not settle becomes the new newest node and is offered to `setNew`, and
     * true is returned. Otherwise the chain does not change and false is returned; when newer
     * pages are not loaded, the message is only offered to `setNew` in a node of its own that
     * no chain holds.
     */
    method Add(nm: Message, selfId: Option<string>) returns (inserted: bool)
      requires Valid()
      modifies this, messagesChain, Raw(), Chain()
      ensures Valid()
      ensures inserted <==> !old(moreAfter) && old(ScanFrom(Raw(), nm, 0)).Insert?
      ensures inserted ==> |Chain()| == |old(Chain())| + 1 && Chain()[1..] == old(Chain())
      ensures inserted ==> fresh(Chain()[0]) && Chain()[0].message == nm && divider == NextDivider(old(divider), Chain()[0], selfId)
      ensures !inserted ==> Chain() == old(Chain())
      ensures !old(moreAfter) && !inserted ==> divider == old(divider)
      ensures old(moreAfter) ==>
        (divider != old(divider) <==> old(divider) == null && old(SelfOf(nm.fields, selfId)) != Some(true))
      ensures divider != old(divider) && old(moreAfter) ==>
        fresh(divider) && divider.message == nm && divider.prev == null && divider.next == null
      ensures !old(moreAfter) ==> Merged(old(Raw()), old(ScanFrom(Raw(), nm, 0)), old(nm.fields.id))
      ensures old(moreAfter) ==> Merged(old(Raw()), Insert, old(nm.fields.id))
      ensures moreAfter == old(moreAfter) && moreBefore == old(moreBefore)
      ensures loadingGet == old(loadingGet) && loadingPrev == old(loadingPrev) && loadingNext == old(loadingNext)
    {
      if !moreAfter {
        var insert := Check(nm);
        if insert {
          AddHard(nm, selfId);
          return true;
        }
      } else {
        Offer(nm, selfId);
      }
      return false;
    }

    /** The arm of `add` while newer pages are not loaded: `nm` is offered to `setNew` in a node of its own. */
    method Offer(nm: Message, selfId: Option<string>)
      requires Valid()
      modifies this
      ensures Valid() && Chain() == old(Chain())
      ensures divider != old(divider) <==> old(divider) == null && old(SelfOf(nm.fields, selfId)) != Some(true)
      ensures divider != old(divider) ==> fresh(divider) && divider.message == nm && divider.prev == null && divider.next == null
      ensures moreAfter == old(moreAfter) && moreBefore == old(moreBefore)
      ensures loadingGet == old(loadingGet) && loadingPrev == old(loadingPrev) && loadingNext == old(loadingNext)
    {
      var link := new MessageLink(nm, null, null);
      SetNew(link, selfId);
    }

    /** `addHard(message)`: the message becomes the new newest node and is offered to `setNew`. */
    method AddHard(nm: Message, selfId: Option<string>)
      requires Valid()
      modifies this, messagesChain, messagesChain.Last()
      ensures Valid()
      ensures |Chain()| == |old(Chain())| + 1 && Chain()[1..] == old(Chain())
      ensures fresh(Chain()[0]) && Chain()[0].message == nm && divider == NextDivider(old(divider), Chain()[0], selfId)
      ensures moreAfter == old(moreAfter) && moreBefore == old(moreBefore)
      ensures loadingGet == old(loadingGet) && loadingPrev == old(loadingPrev) && loadingNext == old(loadingNext)
    {
      var link := messagesChain.Add(nm);
      SetNew(link, selfId);
    }

    /** `addNext(messages)`: fresh nodes for `ms`, newest first, in front of the chain. */
    method AddNext(ms: seq<Message>)
      requires Valid()
      modifies messagesChain, messagesChain.Last()
      ensures Valid() && |Chain()| == |ms| + |old(Chain())|
      ensures MessagesOf(Chain()[..|ms|]) == ms && Chain()[|ms|..] == old(Chain())
      ensures forall i :: 0 <= i < |ms| ==> fresh(Chain()[i])
    {
      var links := messagesChain.AddNextMessages(ms);
      assert Chain()[..|ms|] == links;
    }

    /** `remove(link)`: the node is cut out and its neighbours joined. */
    method Remove(link: MessageLink)
      modifies messagesChain, link.prev, link.next
      ensures Chain() == Without(old(Chain()), link)
      ensures old(Valid()) && link in old(Chain()) ==> Valid()
    {
      messagesChain.Delete(link);
    }

    /** `init(messages)`: a fresh chain for `ms`; the divider and the flags stay. */
    method Init(ms: seq<Message>)
      modifies messagesChain
      ensures Valid() && Raw() == ms
      ensures forall i :: 0 <= i < |Chain()| ==> fresh(Chain()[i])
    {
      messagesChain.Init(ms);
    }

    /**
     * The timestamp `read()` reports as read: nothing while newer pages are not loaded;
     * otherwise that of the newest node whose message is neither being sent nor failed, if any.
     */
    function ReadTarget(): (r: Option<int>)
      reads this, messagesChain, set i | 0 <= i < |Chain()| :: Chain()[i].message
      ensures moreAfter ==> r.None?
      ensures r.Some? ==> exists k :: (0 <= k < |Raw()| && Settled(Raw()[k]) && r.value == Raw()[k].fields.createdAt
        && forall j :: 0 <= j < k ==> !Settled(Raw()[j]))
      ensures !moreAfter && (exists i :: 0 <= i < |Raw()| && Settled(Raw()[i])) ==> r.Some?
    {
      if moreAfter then None
      else match FirstSettled(Chain())
        case None => None
        case Some(k) => assert Raw()[k] == Chain()[k].message; Some(Chain()[k].message.fields.createdAt)
    }

    /**
     * `markReaded()`: every message of a node whose `isSelf` is true gets `unread` false; no
     * other message changes.
     */
    method MarkReaded(selfId: Option<string>)
      modifies Raw()
      ensures forall j :: 0 <= j < |Raw()| ==> Raw()[j].State() == Readed(old(Raw()[j].State()), selfId)
    {
      MarkEach(Raw(), selfId);
    }

    /** `loadings.get` off, `get`: starts a load of the page around `lastSeen` unless one is under way. */
    method BeginGet(lastSeen: int) returns (request: Option<PageRequest>)
      modifies this
      ensures request == if old(loadingGet) then None else Some(PageRequest(lastSeen, 40))
      ensures loadingGet && divider == old(divider)
      ensures moreAfter == old(moreAfter) && moreBefore == old(moreBefore)
      ensures loadingPrev == old(loadingPrev) && loadingNext == old(loadingNext)
    {
      if loadingGet {
        return None;
      }
      loadingGet := true;
      return Some(PageRequest(lastSeen, 40));
    }

    /**
     * The rest of `get`, given what the request gave: on success the flags are taken over and
     * the chain is rebuilt with `updateChain`; either way the load is over. A failure is
     * returned, to be raised again.
     */
    method FinishGet(answer: Result<Surrounding>, selfId: Option<string>) returns (failure: Option<Failure>)
      requires Valid()
      modifies this, messagesChain
      ensures Valid() && !loadingGet
      ensures answer.Err? ==> failure == Some(answer.error) && divider == old(divider) && Chain() == old(Chain())
      ensures answer.Err? ==> moreAfter == old(moreAfter) && moreBefore == old(moreBefore)
      ensures answer.Ok? ==> failure == None && moreAfter == answer.value.moreAfter && moreBefore == answer.value.moreBefore
      ensures answer.Ok? ==> var ms := answer.value.messages;
        |Chain()| >= |ms| && MessagesOf(Chain()[..|Chain()| - |ms|]) == old(SendingOf(Raw()))
        && MessagesOf(Chain()[|Chain()| - |ms|..]) == ms
        && divider == NextDivider(old(divider),
          Candidate(old(DividerId()), Chain()[|Chain()| - |ms|..], old(FieldsList(ms)), old(IdsOf(FieldsList(Raw()))), selfId),
          selfId)
      ensures loadingPrev == old(loadingPrev) && loadingNext == old(loadingNext)
    {
      match answer
      case Err(e) =>
        SetLoaded(moreAfter, moreBefore);
        return Some(e);
      case Ok(page) =>
        UpdateChain(page.messages, selfId);
        ghost var chain, d := Chain(), divider;
        SetLoaded(page.moreAfter, page.moreBefore);
        assert Chain() == chain && divider == d;
        return None;
    }

    /** The flags the end of `get` writes: the page's `moreAfter`/`moreBefore`, and the load over. */
    method SetLoaded(after: bool, before: bool)
      modifies this
      ensures Chain() == old(Chain()) && (old(Valid()) ==> Valid()) && divider == old(divider)
      ensures moreAfter == after && moreBefore == before && !loadingGet
      ensures loadingPrev == old(loadingPrev) && loadingNext == old(loadingNext)
    {
      moreAfter, moreBefore, loadingGet := after, before, false;
    }

    /** The rest of `surround(timestamp)`, given the page: the flags are taken over and the chain rebuilt from it. */
    method FinishSurround(page: Surrounding)
      modifies this, messagesChain
      ensures Valid() && Raw() == page.messages
      ensures moreAfter == page.moreAfter && moreBefore == page.moreBefore && divider == old(divider)
      ensures loadingGet == old(loadingGet) && loadingPrev == old(loadingPrev) && loadingNext == old(loadingNext)
    {
      moreAfter := page.moreAfter;
      moreBefore := page.moreBefore;
      Init(page.messages);
    }

    /**
     * `prev()` up to its await: with older pages left, a non-empty chain and no such load under
     * way, a load of the page before the oldest node starts.
     */
    method BeginPrev() returns (request: Option<PageRequest>)
      requires Valid()
      modifies this
      ensures var go := !old(loadingPrev) && old(moreBefore) && old(Chain()) != [];
        request == (if go then Some(PageRequest(Chain()[|Chain()| - 1].message.fields.createdAt, 20)) else None)
        && loadingPrev == (old(loadingPrev) || go)
      ensures Valid() && Chain() == old(Chain()) && divider == old(divider)
      ensures moreAfter == old(moreAfter) && moreBefore == old(moreBefore)
      ensures loadingGet == old(loadingGet) && loadingNext == old(loadingNext)
    {
      var first := messagesChain.First();
      if !loadingPrev && moreBefore && first != null {
        loadingPrev := true;
        return Some(PageRequest(first.message.fields.createdAt, 20));
      }
      return None;
    }

    /** The rest of `prev()`, given the older messages: they go after the oldest node. */
    method FinishPrev(ms: seq<Message>)
      requires Valid()
      modifies this, messagesChain, messagesChain.First()
      ensures Valid() && !loadingPrev && moreBefore == (|ms| > 0)
      ensures |Chain()| == |old(Chain())| + |ms| && Chain()[..|old(Chain())|] == old(Chain())
      ensures MessagesOf(Chain()[|old(Chain())|..]) == ms
      ensures forall i :: |old(Chain())| <= i < |Chain()| ==> fresh(Chain()[i])
      ensures divider == old(divider) && moreAfter == old(moreAfter)
      ensures loadingGet == old(loadingGet) && loadingNext == old(loadingNext)
    {
      moreBefore := |ms| > 0;
      loadingPrev := false;
      var links := messagesChain.AddPrevMessages(ms);
      assert Chain()[|old(Chain())|..] == links;
    }

    /**
     * `next()` up to its await: with newer pages left, a non-empty chain and no such load under
     * way, a load of the page after the newest node starts.
     */
    method BeginNext() returns (request: Option<PageRequest>)
      requires Valid()
      modifies this
      ensures var go := !old(loadingNext) && old(moreAfter) && old(Chain()) != [];
        request == (if go then Some(PageRequest(Chain()[0].message.fields.createdAt, 20)) else None)
        && loadingNext == (old(loadingNext) || go)
      ensures Valid() && Chain() == old(Chain()) && divider == old(divider)
      ensures moreAfter == old(moreAfter) && moreBefore == old(moreBefore)
      ensures loadingGet == old(loadingGet) && loadingPrev == old(loadingPrev)
    {
      var last := messagesChain.Last();
      if !loadingNext && moreAfter && last != null {
        loadingNext := true;
        return Some(PageRequest(last.message.fields.createdAt, 20));
      }
      return None;
    }

    /**
     * The rest of `next()`, given what the request resolved to: its first message is dropped
     * and the rest, reversed into newest-first order, go in front of the newest node.
     */
    method FinishNext(fetched: seq<Message>)
      requires Valid()
      modifies this, messagesChain, messagesChain.Last()
      ensures var ms := NextPage(fetched);
        Valid() && !loadingNext && moreAfter == (|ms| > 0)
        && |Chain()| == |ms| + |old(Chain())| && MessagesOf(Chain()[..|ms|]) == ms && Chain()[|ms|..] == old(Chain())
      ensures forall i :: 0 <= i < |Chain()| - |old(Chain())| ==> fresh(Chain()[i])
      ensures divider == old(divider) && moreBefore == old(moreBefore)
      ensures loadingGet == old(loadingGet) && loadingPrev == old(loadingPrev)
    {
      var ms := NextPage(fetched);
      moreAfter := |ms| > 0;
      loadingNext := false;
      var links := messagesChain.AddNextMessages(ms);
      assert Chain()[..|ms|] == links;
    }

    /** The `for ... break` loop of `updateChain` that measures the run of new nodes. */
    static method FreshPrefixLength(fetched: seq<string>, known: seq<string>) returns (n: nat)
      ensures n == FreshPrefix(fetched, known)
    {
      n := 0;
      while n < |fetched| && fetched[n] !in known
        invariant n <= |fetched|
        invariant forall j :: 0 <= j < n ==> fetched[j] !in known
      {
        n := n + 1;
      }
      FreshPrefixUnique(fetched, known, n);
    }

    /** `markError(false)`, `markSending(false)`, `setID(id)` on a confirmed message. */
    static method Confirm(m: Message, id: string)
      modifies m
      ensures m.State() == old(m.State()).(fields := old(m.fields).(id := id), sending := false, error := NoError)
      ensures m.emotions == old(m.emotions)
    {
      m.MarkError(NoError);
      m.MarkSending(false);
      m.SetId(id);
    }
  }
}
