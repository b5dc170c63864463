/** The chain of message nodes, newest first (MessagesChain.ts). */
module MessagesChains {
  import opened Wrappers
  import opened Messages
  import opened MessageLinks

  /** No node occurs twice. */
  predicate Distinct(chain: seq<MessageLink>) {
    forall i, j :: 0 <= i < j < |chain| ==> chain[i] != chain[j]
  }

  /** Each node and the one after it (the older one) point at each other. */
  predicate Adjacent(chain: seq<MessageLink>)
    reads chain
  {
    forall i :: 0 < i < |chain| ==> chain[i].next == chain[i - 1] && chain[i - 1].prev == chain[i]
  }

  /**
   * The adjacency invariant: the nodes are distinct, each node's `next` is the node before it
   * in the array (the newer one) and its `prev` the node after it (the older one), and the
   * newest node has no `next` and the oldest no `prev`.
   */
  predicate Linked(chain: seq<MessageLink>)
    reads chain
  {
    Distinct(chain) && Adjacent(chain)
    && (chain != [] ==> chain[0].next == null && chain[|chain| - 1].prev == null)
  }

  /** The messages the nodes hold, in chain order. */
  function MessagesOf(chain: seq<MessageLink>): (ms: seq<Message>)
    ensures |ms| == |chain|
    ensures forall i :: 0 <= i < |chain| ==> ms[i] == chain[i].message
  {
    seq(|chain|, i requires 0 <= i < |chain| => chain[i].message)
  }

  /** The snapshot of the chain that the derived getters read, node by node in chain order. */
  function Views(chain: seq<MessageLink>, dayOf: int -> int): (vs: seq<LinkView>)
    reads set l | l in chain :: l.message
    ensures |vs| == |chain|
    ensures forall i :: 0 <= i < |chain| ==> vs[i] == ViewOf(chain[i], dayOf)
  {
    seq(|chain|, i requires 0 <= i < |chain| reads set l | l in chain :: l.message => ViewOf(chain[i], dayOf))
  }

  /**
   * In a linked chain the snapshot's neighbours are the node's own: the `prev` of the node at
   * `i` is missing exactly for the oldest node and otherwise shows as the view at `i + 1`, and
   * its `next` is missing exactly for the newest node and otherwise shows as the view at
   * `i - 1`. So `isFirst` read through `prev` is `IsFirst` on the snapshot.
   */
  lemma ViewsNeighbours(chain: seq<MessageLink>, dayOf: int -> int, i: int)
    requires Linked(chain) && 0 <= i < |chain|
    ensures chain[i].prev == null <==> i == |chain| - 1
    ensures chain[i].prev != null ==> ViewOf(chain[i].prev, dayOf) == Views(chain, dayOf)[i + 1]
    ensures chain[i].next == null <==> i == 0
    ensures chain[i].next != null ==> ViewOf(chain[i].next, dayOf) == Views(chain, dayOf)[i - 1]
    ensures IsFirst(Views(chain, dayOf), i) <==>
      chain[i].prev == null || ViewOf(chain[i].prev, dayOf).day != ViewOf(chain[i], dayOf).day
  {
    if i < |chain| - 1 {
      assert chain[i + 1].next == chain[i] && chain[i].prev == chain[i + 1];
    }
    if 0 < i {
      assert chain[i].next == chain[i - 1];
    }
  }

  /**
   * The `factory` fold: one fresh node per message, in the same order, each linked to its
   * neighbours; the two ends point nowhere.
   */
  method Build(ms: seq<Message>) returns (links: seq<MessageLink>)
    ensures Linked(links)
    ensures MessagesOf(links) == ms
    ensures forall i :: 0 <= i < |links| ==> fresh(links[i])
  {
    links := [];
    var i := 0;
    while i < |ms|
      invariant 0 <= i <= |ms| && |links| == i
      invariant Linked(links)
      invariant forall k :: 0 <= k < i ==> links[k].message == ms[k] && fresh(links[k])
    {
      var next: MessageLink? := if i > 0 then links[i - 1] else null;
      var link := new MessageLink(ms[i], null, next);
      if next != null {
        next.SetPrev(link);
      }
      assert forall k :: 0 < k < i ==> links[k].next == links[k - 1] && links[k - 1].prev == links[k];
      LinkedJoin(links, [link]);
      links := links + [link];
      i := i + 1;
    }
  }

  /** Two linked runs whose facing ends point at each other make one linked chain. */
  lemma LinkedJoin(a: seq<MessageLink>, b: seq<MessageLink>)
    requires Distinct(a + b) && Adjacent(a) && Adjacent(b)
    requires a != [] ==> a[0].next == null
    requires b != [] ==> b[|b| - 1].prev == null
    requires a != [] ==> a[|a| - 1].prev == if b == [] then null else b[0]
    requires b != [] ==> b[0].next == if a == [] then null else a[|a| - 1]
    ensures Linked(a + b)
  {
    var c := a + b;
    forall i | 0 < i < |c|
      ensures c[i].next == c[i - 1] && c[i - 1].prev == c[i]
    {
      if i < |a| {
        assert c[i] == a[i] && c[i - 1] == a[i - 1];
      } else if i == |a| {
        assert c[i] == b[0] && c[i - 1] == a[|a| - 1];
      } else {
        assert c[i] == b[i - |a|] && c[i - 1] == b[i - |a| - 1];
      }
    }
  }

  /** Taking a prefix of the nodes takes the same prefix of their messages. */
  lemma MessagesOfPrefix(chain: seq<MessageLink>, n: nat)
    requires n <= |chain|
    ensures MessagesOf(chain[..n]) == MessagesOf(chain)[..n]
  {
    var a, b := MessagesOf(chain[..n]), MessagesOf(chain)[..n];
    assert |a| == |b|;
    forall i | 0 <= i < n
      ensures a[i] == b[i]
    {
      assert a[i] == chain[..n][i].message == chain[i].message;
    }
  }

  /** `splited.sending`: the messages still being sent, in chain order. */
  function SendingOf(ms: seq<Message>): (r: seq<Message>)
    reads ms
    ensures |r| <= |ms| && forall i :: 0 <= i < |r| ==> r[i].sending
  {
    if ms == [] then [] else (if ms[0].sending then [ms[0]] else []) + SendingOf(ms[1..])
  }

  /** `splited.sync`: the other messages, in chain order. */
  function SyncOf(ms: seq<Message>): (r: seq<Message>)
    reads ms
    ensures |r| <= |ms| && forall i :: 0 <= i < |r| ==> !r[i].sending
  {
    if ms == [] then [] else (if ms[0].sending then [] else [ms[0]]) + SyncOf(ms[1..])
  }

  /** `split` partitions the messages: together the two lists hold each message exactly once. */
  lemma {:induction false} SplitPartition(ms: seq<Message>)
    ensures multiset(SendingOf(ms)) + multiset(SyncOf(ms)) == multiset(ms)
    ensures |SendingOf(ms)| + |SyncOf(ms)| == |ms|
  {
    if ms != [] {
      SplitPartition(ms[1..]);
      assert ms == [ms[0]] + ms[1..];
    }
  }

  /** `chain.filter(MessageLink.equal(link, false))`. */
  function Without(chain: seq<MessageLink>, link: MessageLink): (r: seq<MessageLink>)
    ensures link !in r && |r| <= |chain|
  {
    if chain == [] then []
    else (if chain[0] == link then [] else [chain[0]]) + Without(chain[1..], link)
  }

  /** In a chain without repeated nodes, filtering out a member cuts it out at its index. */
  lemma {:induction false} WithoutAt(chain: seq<MessageLink>, k: int)
    requires 0 <= k < |chain|
    requires forall i, j :: 0 <= i < j < |chain| ==> chain[i] != chain[j]
    ensures Without(chain, chain[k]) == chain[..k] + chain[k + 1..]
  {
    if k == 0 {
      assert chain[0] !in chain[1..] by {
        forall i | 0 <= i < |chain[1..]|
          ensures chain[1..][i] != chain[0]
        {
          assert chain[1..][i] == chain[i + 1];
        }
      }
      NotIn(chain[1..], chain[0]);
    } else {
      assert chain[k] == chain[1..][k - 1];
      assert chain[0] != chain[k];
      WithoutAt(chain[1..], k - 1);
      assert chain[1..][..k - 1] == chain[1..k];
      assert chain[1..][k..] == chain[k + 1..];
      assert chain[..k] == [chain[0]] + chain[1..k];
    }
  }

  /** Removing a member of a linked chain leaves as newest node the old newest one or, when that was removed, its older neighbour. */
  lemma NewestAfterCut(chain: seq<MessageLink>, link: MessageLink)
    requires Linked(chain) && link in chain
    ensures var r := Without(chain, link); r == [] || r[0] == chain[0] || r[0] == link.prev
  {
    var k :| 0 <= k < |chain| && chain[k] == link;
    WithoutAt(chain, k);
    if k == 0 && |chain| > 1 {
      assert chain[0].prev == chain[1];
    }
  }

  /** Filtering out a node that is not there changes nothing. */
  lemma {:induction false} NotIn(chain: seq<MessageLink>, link: MessageLink)
    requires link !in chain
    ensures Without(chain, link) == chain
  {
    if chain != [] {
      NotIn(chain[1..], link);
      assert chain == [chain[0]] + chain[1..];
    }
  }

  /** Two runs without repeats and with no node in common make a run without repeats. */
  lemma FreshRunsDistinct(a: seq<MessageLink>, b: seq<MessageLink>)
    requires Distinct(a) && Distinct(b)
    requires forall i, j :: 0 <= i < |a| && 0 <= j < |b| ==> a[i] != b[j]
    ensures Distinct(a + b)
  {
    var c := a + b;
    forall i, j | 0 <= i < j < |c|
      ensures c[i] != c[j]
    {
      if j < |a| {
        assert c[i] == a[i] && c[j] == a[j];
      } else if i >= |a| {
        assert c[i] == b[i - |a|] && c[j] == b[j - |a|];
      } else {
        assert c[i] == a[i] && c[j] == b[j - |a|];
      }
    }
  }

  /**
   * The step `update`, `addNextMessages` and `addPrevMessages` share: the oldest node of the
   * newer run and the newest node of the older run are pointed at each other (at `null` when
   * the other run is empty).
   */
  method JoinRuns(newer: seq<MessageLink>, older: seq<MessageLink>)
    requires Linked(newer) && Linked(older) && Distinct(newer + older)
    modifies if newer == [] then {} else {newer[|newer| - 1]}
    modifies if older == [] then {} else {older[0]}
    ensures Linked(newer + older)
  {
    if newer != [] && older != [] {
      assert (newer + older)[|newer| - 1] == newer[|newer| - 1];
      assert (newer + older)[|newer|] == older[0];
      assert (newer + older)[0] == newer[0];
      assert (newer + older)[|newer| + |older| - 1] == older[|older| - 1];
    }
    if older != [] {
      older[0].SetNext(if newer != [] then newer[|newer| - 1] else null);
    }
    if newer != [] {
      newer[|newer| - 1].SetPrev(if older != [] then older[0] else null);
    }
    assert Adjacent(newer);
    assert Adjacent(older);
    assert newer != [] ==> newer[0].next == null;
    assert older != [] ==> older[|older| - 1].prev == null;
    LinkedJoin(newer, older);
  }

  /** Fresh linked nodes for `newer` followed by fresh linked nodes for `older`, the two runs joined. */
  method BuildJoined(newer: seq<Message>, older: seq<Message>) returns (newerLinks: seq<MessageLink>, links: seq<MessageLink>)
    ensures Linked(newerLinks + links)
    ensures MessagesOf(newerLinks) == newer && MessagesOf(links) == older
    ensures forall i :: 0 <= i < |newerLinks| ==> fresh(newerLinks[i])
    ensures forall i :: 0 <= i < |links| ==> fresh(links[i])
  {
    links := Build(older);
    label Built:
    newerLinks := Build(newer);
    forall i, j | 0 <= i < |newerLinks| && 0 <= j < |links|
      ensures newerLinks[i] != links[j]
    {
      assert !old@Built(allocated(newerLinks[i]));
    }
    FreshRunsDistinct(newerLinks, links);
    JoinRuns(newerLinks, links);
  }

  /**
   * Cutting node `k` out of a chain whose other nodes are still linked, and whose neighbours
   * of `k` now point at each other, leaves a linked chain.
   */
  lemma CutLinked(chain: seq<MessageLink>, k: int)
    requires 0 <= k < |chain| && Distinct(chain)
    requires forall i :: 0 < i < |chain| && i != k && i != k + 1 ==>
      chain[i].next == chain[i - 1] && chain[i - 1].prev == chain[i]
    requires k > 0 ==> chain[k - 1].prev == if k + 1 < |chain| then chain[k + 1] else null
    requires k + 1 < |chain| ==> chain[k + 1].next == if k > 0 then chain[k - 1] else null
    requires k != 0 ==> chain[0].next == null
    requires k != |chain| - 1 ==> chain[|chain| - 1].prev == null
    ensures Linked(chain[..k] + chain[k + 1..])
  {
    var a, b := chain[..k], chain[k + 1..];
    assert chain == a + [chain[k]] + b;
    assert Distinct(a + b) by {
      forall i, j | 0 <= i < j < |a + b|
        ensures (a + b)[i] != (a + b)[j]
      {
        var i' := if i < k then i else i + 1;
        var j' := if j < k then j else j + 1;
        assert (a + b)[i] == chain[i'] && (a + b)[j] == chain[j'];
      }
    }
    assert Adjacent(a) by {
      forall i | 0 < i < |a|
        ensures a[i].next == a[i - 1] && a[i - 1].prev == a[i]
      {
        assert a[i] == chain[i] && a[i - 1] == chain[i - 1];
      }
    }
    assert Adjacent(b) by {
      forall i | 0 < i < |b|
        ensures b[i].next == b[i - 1] && b[i - 1].prev == b[i]
      {
        assert b[i] == chain[k + 1 + i] && b[i - 1] == chain[k + i];
      }
    }
    LinkedJoin(a, b);
  }

  class MessagesChain {
    var chain: seq<MessageLink>

    predicate Valid()
      reads this, chain
    {
      Linked(chain)
    }

    /** `new MessagesChain(chat, messages)`. */
    constructor (ms: seq<Message>)
      ensures Valid() && MessagesOf(chain) == ms
      ensures forall i :: 0 <= i < |chain| ==> fresh(chain[i])
    {
      var links := Build(ms);
      chain := links;
    }

    /** `first`: the oldest node, if any. */
    function First(): (r: MessageLink?)
      reads this
      ensures r == null <==> |chain| == 0
      ensures r != null ==> r == chain[|chain| - 1]
    {
      if |chain| > 0 then chain[|chain| - 1] else null
    }

    /** `last`: the newest node, if any. */
    function Last(): (r: MessageLink?)
      reads this
      ensures r == null <==> |chain| == 0
      ensures r != null ==> r == chain[0]
    {
      if |chain| > 0 then chain[0] else null
    }

    /** `splited`: the messages being sent and the others, each in chain order. */
    function Splited(): (r: (seq<Message>, seq<Message>))
      reads this, MessagesOf(chain)
    {
      (SendingOf(MessagesOf(chain)), SyncOf(MessagesOf(chain)))
    }

    /** `init(messages)`: a fresh chain with one node per message, in order. */
    method Init(ms: seq<Message>)
      modifies this
      ensures Valid() && MessagesOf(chain) == ms
      ensures forall i :: 0 <= i < |chain| ==> fresh(chain[i])
    {
      chain := Build(ms);
    }

    /**
     * `update(messages)`: fresh nodes for the messages still being sent, newest first as they
     * were, followed by fresh nodes for `ms`; every other old node is dropped. The oldest
     * sending node is joined to the node of `ms[0]`. Returns the two runs of nodes.
     */
    method Update(ms: seq<Message>) returns (pending: seq<MessageLink>, links: seq<MessageLink>)
      requires Valid()
      modifies this
      ensures Valid() && chain == pending + links
      ensures MessagesOf(pending) == old(SendingOf(MessagesOf(chain))) && MessagesOf(links) == ms
      ensures forall i :: 0 <= i < |pending| ==> fresh(pending[i])
      ensures forall i :: 0 <= i < |links| ==> fresh(links[i])
    {
      var sending := SendingOf(MessagesOf(chain));
      pending, links := BuildJoined(sending, ms);
      chain := pending + links;
    }

    /**
     * `add(message)`: a new newest node whose `prev` is the old newest node, which now points
     * to it; no other node changes.
     */
    method Add(m: Message) returns (link: MessageLink)
      requires Valid()
      modifies this, Last()
      ensures Valid()
      ensures fresh(link) && link.message == m && link.prev == old(Last())
      ensures chain == [link] + old(chain)
    {
      var last := Last();
      link := new MessageLink(m, last, null);
      if last != null {
        last.SetNext(link);
      }
      chain := [link] + chain;
    }

    /**
     * `delete(link)`: the neighbours of `link` are joined to each other and `link` is filtered
     * out of the array. On a member of a linked chain this keeps the chain linked.
     */
    method Delete(link: MessageLink)
      modifies this, link.prev, link.next
      ensures chain == Without(old(chain), link)
      ensures old(link.prev) != null && old(link.prev) != old(link.next) ==> old(link.prev).next == old(link.next)
      ensures old(link.next) != null ==> old(link.next).prev == old(link.prev)
      ensures old(Valid()) && link in old(chain) ==> Valid()
    {
      ghost var before := chain;
      ghost var wasValid := Valid();
      var p, n := link.prev, link.next;
      chain := Without(chain, link);
      if p != null {
        p.SetNext(n);
      }
      if n != null {
        n.SetPrev(p);
      }
      if wasValid && link in before {
        assert Linked(chain) by {
          var k :| 0 <= k < |before| && before[k] == link;
          assert p == (if k + 1 < |before| then before[k + 1] else null);
          assert n == (if k > 0 then before[k - 1] else null);
          forall i | 0 < i < |before| && i != k && i != k + 1
            ensures before[i].next == before[i - 1] && before[i - 1].prev == before[i]
          {
            assert before[i] != link && before[i] != p;
            assert before[i - 1] != link && before[i - 1] != n;
            assert old(before[i].next) == before[i - 1] && old(before[i - 1].prev) == before[i];
          }
          CutLinked(before, k);
          WithoutAt(before, k);
        }
      }
    }

    /**
     * `addNextMessages(messages)`: fresh nodes for `ms` are put in front, the oldest of them
     * joined to the old newest node. Returns the new nodes.
     */
    method AddNextMessages(ms: seq<Message>) returns (links: seq<MessageLink>)
      requires Valid()
      modifies this, Last()
      ensures Valid()
      ensures MessagesOf(links) == ms && chain == links + old(chain)
      ensures forall i :: 0 <= i < |links| ==> fresh(links[i])
    {
      var older := chain;
      links := Build(ms);
      assert Distinct(links + older) by {
        forall i, j | 0 <= i < |links| && 0 <= j < |older|
          ensures links[i] != older[j]
        {
          assert old(allocated(older[j]));
        }
        FreshRunsDistinct(links, older);
      }
      JoinRuns(links, older);
      chain := links + older;
    }

    /**
     * `addPrevMessages(messages)`: fresh nodes for `ms` are put at the end, the first of them
     * joined to the old oldest node. Returns the new nodes.
     */
    method AddPrevMessages(ms: seq<Message>) returns (links: seq<MessageLink>)
      requires Valid()
      modifies this, First()
      ensures Valid()
      ensures MessagesOf(links) == ms && chain == old(chain) + links
      ensures forall i :: 0 <= i < |links| ==> fresh(links[i])
    {
      var newer := chain;
      links := Build(ms);
      assert Distinct(newer + links) by {
        forall i, j | 0 <= i < |newer| && 0 <= j < |links|
          ensures newer[i] != links[j]
        {
          assert old(allocated(newer[i]));
        }
        FreshRunsDistinct(newer, links);
      }
      JoinRuns(newer, links);
      chain := newer + links;
    }
  }
}
