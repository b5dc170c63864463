/** A node of the message chain and what it derives from its neighbours (MessageLink.ts). */
module MessageLinks {
  import opened Wrappers
  import opened Messages

  /**
   * A chain node. `prev` is the older neighbour and `next` the newer one. The back-reference
   * to the chain is not kept: what the getters read through it (the current user's id, the
   * divider) is passed to them.
   */
  class MessageLink {
    const message: Message
    var prev: MessageLink?
    var next: MessageLink?

    constructor (message: Message, prev: MessageLink?, next: MessageLink?)
      ensures this.message == message && this.prev == prev && this.next == next
    {
      this.message := message;
      this.prev := prev;
      this.next := next;
    }

    /** `setPrev(link)`; a missing argument is `null`. */
    method SetPrev(link: MessageLink?)
      modifies this
      ensures prev == link && next == old(next)
    {
      prev := link;
    }

    /** `setNext(link)`; a missing argument is `null`. */
    method SetNext(link: MessageLink?)
      modifies this
      ensures next == link && prev == old(prev)
    {
      next := link;
    }

    /** `id`: the id of the message the node holds. */
    function Id(): (id: string)
      reads message
      ensures id == message.fields.id
    {
      message.fields.id
    }
  }

  /**
   * `isSelf`: nothing for a system message; otherwise whether the sender is the current user,
   * whose id is `selfId` (`None` when no user is signed in).
   */
  function IsSelf(link: MessageLink, selfId: Option<string>): (r: Option<bool>)
    reads link.message
    ensures r.None? <==> link.message.fields.system
    ensures r == Some(true) <==> !link.message.fields.system && selfId == Some(link.message.fields.sender.id)
  {
    SelfOf(link.message.fields, selfId)
  }

  /** `isSelf` of a node whose message has fields `f`: it depends on those fields alone. */
  function SelfOf(f: MessageFields, selfId: Option<string>): Option<bool>
  {
    if f.system then None else Some(selfId == Some(f.sender.id))
  }

  /** `layoutMessage`: the forwarded message for a pure forward (`Some`), else the node's own (`None`). */
  function LayoutMessage(link: MessageLink): (r: Option<MessageData>)
    reads link.message
    ensures r.Some? <==> link.message.LayoutType() == Forward
    ensures r.Some? ==> link.message.fields.forwarded == r
  {
    if link.message.LayoutType() == Forward then link.message.fields.forwarded else None
  }

  // ---------------------------------------------------------------------------
  // static predicates

  /** `MessageLink.byId(id)`. */
  function ById(id: string, link: MessageLink): (r: bool)
    reads link.message
    ensures r <==> link.message.fields.id == id
  {
    link.message.fields.id == id
  }

  /** `MessageLink.equalMessage(message, flag)`: the node holds that very message object, or not. */
  function EqualMessage(m: Message, flag: bool, link: MessageLink): (r: bool)
    ensures flag ==> (r <==> m == link.message)
    ensures !flag ==> (r <==> m != link.message)
  {
    (m == link.message) == flag
  }

  /** `MessageLink.equal(link, flag)`: the very same node, or not. */
  function Equal(link1: MessageLink, flag: bool, link2: MessageLink): (r: bool)
    ensures flag ==> (r <==> link1 == link2)
    ensures !flag ==> (r <==> link1 != link2)
  {
    (link1 == link2) == flag
  }

  /** `MessageLink.bySenderID(senderID, flag)`. */
  function BySenderId(senderId: string, flag: bool, link: MessageLink): (r: bool)
    reads link.message
    ensures flag ==> (r <==> link.message.fields.sender.id == senderId)
    ensures !flag ==> (r <==> link.message.fields.sender.id != senderId)
  {
    (link.message.fields.sender.id == senderId) == flag
  }

  /** `MessageLink.isSending(flag)`. */
  function IsSending(flag: bool, link: MessageLink): (r: bool)
    reads link.message
    ensures flag ==> (r <==> link.message.sending)
    ensures !flag ==> (r <==> !link.message.sending)
  {
    link.message.sending == flag
  }

  /** `forDB`: the message is settled: neither sending nor failed. */
  function ForDb(link: MessageLink): (r: bool)
    reads link.message
    ensures r <==> !link.message.sending && link.message.error == NoError
  {
    !link.message.sending && link.message.error == NoError
  }

  /** `MessageLink.isSelf(flag)`: `isSelf === flag`, so a system message matches neither flag. */
  function IsSelfIs(flag: bool, link: MessageLink, selfId: Option<string>): (r: bool)
    reads link.message
    ensures r ==> !link.message.fields.system
    ensures !link.message.fields.system ==> (r <==> (selfId == Some(link.message.fields.sender.id)) == flag)
  {
    IsSelf(link, selfId) == Some(flag)
  }

  // ---------------------------------------------------------------------------
  // getters derived from the neighbours

  /**
   * What the derived getters read of one node. `day` is the day key of the creation time
   * (moment's "L" format), given by the caller's `dayOf`.
   */
  datatype LinkView = LinkView(id: string, senderId: string, system: bool, day: int, audio: bool)

  function ViewOf(link: MessageLink, dayOf: int -> int): (v: LinkView)
    reads link.message
    ensures v.id == link.message.fields.id && v.system == link.message.fields.system
  {
    var f := link.message.fields;
    LinkView(f.id, f.sender.id, f.system, dayOf(f.createdAt), link.message.IsAudio())
  }

  /**
   * The derived getters read a snapshot `vs` of the chain, newest first: the `prev` of the
   * node at `i` is the node at `i + 1` and its `next` the node at `i - 1`. `divider` is the id
   * of the message the "new messages" divider points at, if there is one.
   */
  predicate InChain(vs: seq<LinkView>, i: int) {
    0 <= i < |vs|
  }

  /** `isStartOfNewMessages`. */
  function IsStartOfNew(vs: seq<LinkView>, i: int, divider: Option<string>): (r: bool)
    requires InChain(vs, i)
    ensures r <==> divider.Some? && divider.value == vs[i].id
  {
    divider == Some(vs[i].id)
  }

  /** `isFirst`: the oldest node, or the first node of a day. */
  function IsFirst(vs: seq<LinkView>, i: int): (r: bool)
    requires InChain(vs, i)
    ensures r <==> i + 1 == |vs| || vs[i + 1].day != vs[i].day
  {
    i == |vs| - 1 || vs[i].day != vs[i + 1].day
  }

  /** `startOfDay`: the first node of the day, following `prev`. */
  function StartOfDay(vs: seq<LinkView>, i: int): (s: int)
    requires InChain(vs, i)
    ensures i <= s < |vs| && IsFirst(vs, s)
    ensures forall k :: i <= k < s ==> !IsFirst(vs, k)
    decreases |vs| - i
  {
    if IsFirst(vs, i) then i else StartOfDay(vs, i + 1)
  }

  /** All nodes from `i` back to the start of its day share one day key. */
  lemma {:induction false} StartOfDaySameDay(vs: seq<LinkView>, i: int)
    requires InChain(vs, i)
    ensures forall k :: i <= k <= StartOfDay(vs, i) ==> vs[k].day == vs[i].day
    decreases |vs| - i
  {
    if !IsFirst(vs, i) {
      StartOfDaySameDay(vs, i + 1);
    }
  }

  /**
   * `isStart`: nothing for a system message; otherwise true at the divider, at the start of a
   * day, at the oldest node, after a change of sender, or right after a system message.
   */
  function IsStart(vs: seq<LinkView>, i: int, divider: Option<string>): (r: Option<bool>)
    requires InChain(vs, i)
    ensures r.None? <==> vs[i].system
    ensures r == Some(false) ==>
      i + 1 < |vs| && vs[i + 1].senderId == vs[i].senderId && !vs[i + 1].system
      && vs[i + 1].day == vs[i].day && !IsStartOfNew(vs, i, divider)
  {
    if vs[i].system then None
    else Some(IsStartOfNew(vs, i, divider) || IsFirst(vs, i) || i == |vs| - 1
      || vs[i + 1].senderId != vs[i].senderId || vs[i + 1].system)
  }

  /**
   * `isFinish`: nothing for a system message; otherwise true at the newest node, when the next
   * node is the divider or starts a day, after which the sender changes, or before a system message.
   */
  function IsFinish(vs: seq<LinkView>, i: int, divider: Option<string>): (r: Option<bool>)
    requires InChain(vs, i)
    ensures r.None? <==> vs[i].system
    ensures r == Some(false) ==>
      i > 0 && vs[i - 1].senderId == vs[i].senderId && !vs[i - 1].system
      && vs[i - 1].day == vs[i].day && !IsStartOfNew(vs, i - 1, divider)
  {
    if vs[i].system then None
    else Some(i == 0 || IsStartOfNew(vs, i - 1, divider) || IsFirst(vs, i - 1)
      || vs[i - 1].senderId != vs[i].senderId || vs[i - 1].system)
  }

  /** Blocks tile the chain: a non-system node ends its block exactly when its newer neighbour starts one. */
  lemma FinishMeetsStart(vs: seq<LinkView>, i: int, divider: Option<string>)
    requires InChain(vs, i) && i > 0
    requires !vs[i].system && !vs[i - 1].system
    ensures IsFinish(vs, i, divider) == IsStart(vs, i - 1, divider)
  {
  }

  /** `endOfBlock`: nothing for a system message, the node itself when it finishes its block, else that of `next`. */
  function EndOfBlock(vs: seq<LinkView>, i: int, divider: Option<string>): (r: Option<int>)
    requires InChain(vs, i)
    ensures r.None? <==> vs[i].system
    ensures r.Some? ==> 0 <= r.value <= i && IsFinish(vs, r.value, divider) == Some(true)
    ensures r.Some? ==> forall k :: r.value < k <= i ==> IsFinish(vs, k, divider) == Some(false)
    decreases i
  {
    var f := IsFinish(vs, i, divider);
    if f.None? then None
    else if f.value then Some(i)
    else EndOfBlock(vs, i - 1, divider)
  }

  /** `startOfBlock`: the mirror of `endOfBlock`, following `prev`. */
  function StartOfBlock(vs: seq<LinkView>, i: int, divider: Option<string>): (r: Option<int>)
    requires InChain(vs, i)
    ensures r.None? <==> vs[i].system
    ensures r.Some? ==> i <= r.value < |vs| && IsStart(vs, r.value, divider) == Some(true)
    ensures r.Some? ==> forall k :: i <= k < r.value ==> IsStart(vs, k, divider) == Some(false)
    decreases |vs| - i
  {
    var s := IsStart(vs, i, divider);
    if s.None? then None
    else if s.value then Some(i)
    else StartOfBlock(vs, i + 1, divider)
  }

  /** A block has one sender and one day: every node from the start of a block to `i` agrees with `i`. */
  lemma {:induction false} BlockSameSender(vs: seq<LinkView>, i: int, divider: Option<string>)
    requires InChain(vs, i) && !vs[i].system
    ensures var s := StartOfBlock(vs, i, divider).value;
      forall k :: i <= k <= s ==> vs[k].senderId == vs[i].senderId && vs[k].day == vs[i].day && !vs[k].system
    decreases |vs| - i
  {
    if IsStart(vs, i, divider) == Some(false) {
      BlockSameSender(vs, i + 1, divider);
    }
  }

  /** `nextAudioLink`: the nearest newer node holding an audio message. */
  function NextAudioLink(vs: seq<LinkView>, i: int): (r: Option<int>)
    requires InChain(vs, i)
    ensures r.Some? ==> 0 <= r.value < i && vs[r.value].audio
    ensures r.Some? ==> forall k :: r.value < k < i ==> !vs[k].audio
    ensures r.None? ==> forall k :: 0 <= k < i ==> !vs[k].audio
    decreases i
  {
    if i == 0 then None
    else if vs[i - 1].audio then Some(i - 1)
    else NextAudioLink(vs, i - 1)
  }
}
