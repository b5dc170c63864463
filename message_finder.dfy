/** Locating a message in the loaded chain, reloading around it when needed (messenger/classes/Chat/MessageFinder.ts). */
module MessageFinders {
  import opened Wrappers
  import opened Messages
  import opened MessageLinks
  import opened MessagesChains
  import opened ChatMessagesModule

  /**
   * How `find` ends with the pages the reloads resolved to: the node it settled on, the
   * failure of a reload, or, once the given pages are used up, the reload it would issue next.
   */
  datatype FindOutcome = Found(link: MessageLink) | Failed(failure: Failure) | Pending(request: PageRequest)

  class MessageFinder {
    const messages: ChatMessages
    /** The node last found. */
    var link: MessageLink?

    constructor (messages: ChatMessages)
      ensures this.messages == messages && link == null
    {
      this.messages := messages;
      link := null;
    }

    /** `set(link)`: stores the node and returns it. */
    method Set(l: MessageLink) returns (r: MessageLink)
      modifies this
      ensures link == l && r == l
    {
      link := l;
      return l;
    }

    /** `remove()`. */
    method Remove()
      modifies this
      ensures link == null
    {
      link := null;
    }

    /** `checkIsFinded(l)`: `l` is the stored node itself. */
    function CheckIsFinded(l: MessageLink): (r: bool)
      reads this
      ensures r <==> link == l
    {
      link == l
    }

    /**
     * `find(message)`, where `pages[i]` is what the `i`-th reload around the message's time
     * resolves to. The first node holding the message's id is stored and returned; while there
     * is none, the window around `createdAt` is reloaded and the search repeated. Nothing
     * bounds the repetition: when the pages run out, the outcome is the reload still to come.
     */
    method Find(id: string, createdAt: int, pages: seq<Result<Surrounding>>) returns (outcome: FindOutcome)
      requires messages.Valid()
      modifies this, messages, messages.messagesChain
      ensures messages.Valid()
      ensures outcome.Found? ==> var k := FindById(FieldsList(messages.Raw()), id);
        k >= 0 && outcome.link == messages.Chain()[k] && link == outcome.link
      ensures outcome.Pending? ==> FindById(FieldsList(messages.Raw()), id) < 0 && outcome.request == PageRequest(createdAt, 20)
      ensures outcome.Failed? ==> exists i :: 0 <= i < |pages| && pages[i] == Err(outcome.failure)
      ensures !outcome.Found? ==> link == old(link)
      ensures old(FindById(FieldsList(messages.Raw()), id)) >= 0 ==>
        outcome == Found(old(messages.Chain()[FindById(FieldsList(messages.Raw()), id)]))
        && messages.Chain() == old(messages.Chain())
    {
      ghost var before := FieldsList(messages.Raw());
      ghost var chain := messages.Chain();
      var found := Lookup(id);
      assert before == FieldsList(messages.Raw()) && chain == messages.Chain();
      if found.Some? {
        return Found(found.value);
      }
      var i := 0;
      while i < |pages|
        invariant 0 <= i <= |pages|
        invariant messages.Valid() && link == old(link)
        invariant FindById(before, id) < 0 && FindById(FieldsList(messages.Raw()), id) < 0
      {
        match pages[i]
        case Err(f) =>
          return Failed(f);
        case Ok(p) =>
          messages.FinishSurround(p);
        found := Lookup(id);
        if found.Some? {
          return Found(found.value);
        }
        i := i + 1;
      }
      return Pending(PageRequest(createdAt, 20));
    }

    /** One search of `find` without reloading: the first node with `id`, which is then stored. */
    method Lookup(id: string) returns (found: Option<MessageLink>)
      modifies this
      ensures var k := FindById(FieldsList(messages.Raw()), id);
        && (found.Some? <==> k >= 0)
        && (found.Some? ==> found.value == messages.Chain()[k] && link == found.value)
      ensures found.None? ==> link == old(link)
    {
      var k := FindById(FieldsList(messages.Raw()), id);
      if k >= 0 {
        var l := Set(messages.Chain()[k]);
        return Some(l);
      }
      return None;
    }
  }
}
