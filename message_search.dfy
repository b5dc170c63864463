/** Server-side message search inside one chat and its result cursor (messenger/classes/Message/MessageSearch.ts). */
module MessageSearches {
  import opened Wrappers
  import opened Messages

  /** `LIMIT`: results per page. */
  const Limit := 100

  /** `ShortMessage` (messenger/classes/Message/types.ts); timestamps are integers. */
  datatype ShortForward = ShortForward(sender: Sender, body: string, createdAt: int)
  datatype ShortMessage = ShortMessage(
    id: string, roomId: string, sender: Sender, body: string, forwarded: Option<ShortForward>, createdAt: int)

  /** `meta: { total?: number; count?: number }`. */
  datatype Meta = Meta(total: Option<int>, count: Option<int>)

  /** What `Message.search` resolves to. */
  datatype SearchPage = SearchPage(data: seq<ShortMessage>, meta: Meta)

  /** The arguments `search` passes to `Message.search`. */
  datatype SearchRequest = SearchRequest(query: string, limit: nat, page: int, roomId: string)

  /** The cursor is unset or points at a result. */
  predicate InRange(index: Option<int>, n: int) {
    index.None? || 0 <= index.value < n
  }

  /** `isCanNext`: for a cursor on one of `n` results, a result follows it. */
  function CanNext(index: Option<int>, n: int): (r: bool)
    ensures InRange(index, n) ==> (r <==> index.Some? && InRange(Some(index.value + 1), n))
  {
    index.Some? && index.value < n - 1
  }

  /** `isCanPrev`: for a cursor on one of any number of results, a result precedes it. */
  function CanPrev(index: Option<int>): (r: bool)
    ensures forall n :: InRange(index, n) ==> (r <==> index.Some? && InRange(Some(index.value - 1), n))
  {
    index.Some? && index.value > 0
  }

  /** The cursor after `next`: one further when it can move, unchanged otherwise. */
  function NextIndex(index: Option<int>, n: int): (r: Option<int>)
    ensures InRange(index, n) ==> InRange(r, n)
    ensures r.None? <==> index.None?
  {
    if CanNext(index, n) then Some(index.value + 1) else index
  }

  /** The cursor after `prev`: one back when it can move, unchanged otherwise. */
  function PrevIndex(index: Option<int>): (r: Option<int>)
    ensures forall n :: InRange(index, n) ==> InRange(r, n)
    ensures r.None? <==> index.None?
  {
    if CanPrev(index) then Some(index.value - 1) else index
  }

  /** On a valid cursor, a step forward that was possible is undone by a step back, and the other way round. */
  lemma StepsUndo(index: Option<int>, n: int)
    ensures CanNext(index, n) && InRange(index, n) ==> PrevIndex(NextIndex(index, n)) == index
    ensures CanPrev(index) && InRange(index, n) ==> NextIndex(PrevIndex(index), n) == index
  {
  }

  /**
   * `debounceSearch` as written, on the loading flag: a non-empty input sets it and schedules
   * a search (the second component); an empty input cancels the scheduled search, and the
   * statement meant to clear the flag only compares it, so the flag is left as it was.
   */
  function DebounceAsWritten(input: string, loading: bool): (r: (bool, bool))
    ensures r.1 <==> input != ""
    ensures r.1 ==> r.0
    ensures !r.1 ==> r.0 == loading
  {
    if input != "" then (true, true) else (loading, false)
  }

  /** `debounceSearch` as intended: an empty input cancels the search and clears the flag. */
  function Debounce(input: string, loading: bool): (r: (bool, bool))
    ensures r.1 <==> input != ""
  {
    if input != "" then (true, true) else (false, false)
  }

  /**
   * Typing a character and deleting it within the debounce delay leaves the search loading
   * for good: the flag is set while no scheduled search remains to clear it.
   */
  lemma DebounceAsWrittenStuck()
    ensures var (l1, s1) := DebounceAsWritten("a", false); l1 && s1
    ensures var (l2, s2) := DebounceAsWritten("", DebounceAsWritten("a", false).0); l2 && !s2
  {
  }

  /** As intended, the search is loading after a keystroke exactly when a search is scheduled. */
  lemma DebounceLoadsWhileScheduled(input: string, loading: bool)
    ensures Debounce(input, loading).0 <==> Debounce(input, loading).1
    ensures DebounceAsWritten(input, loading).1 == Debounce(input, loading).1
    ensures input != "" ==> DebounceAsWritten(input, loading) == Debounce(input, loading)
  {
  }

  class MessageSearch {
    const roomId: string
    /** The value of the search input. */
    var input: string
    var data: seq<ShortMessage>
    var meta: Meta
    var loading: bool
    /** A debounced search is scheduled. */
    var scheduled: bool
    var isOpen: bool
    var index: Option<int>

    /** The cursor points at a result or nowhere. */
    predicate Valid()
      reads this
    {
      InRange(index, |data|)
    }

    constructor (roomId: string)
      ensures Valid() && this.roomId == roomId && input == "" && data == [] && meta == Meta(None, None)
      ensures !loading && !scheduled && !isOpen && index.None?
    {
      this.roomId := roomId;
      input := "";
      data := [];
      meta := Meta(None, None);
      loading := false;
      scheduled := false;
      isOpen := false;
      index := None;
    }

    /** `debounceSearch`, run on every change of the input: an empty input leaves the flag as it was. */
    method OnInput()
      modifies this
      ensures (loading, scheduled) == DebounceAsWritten(input, old(loading))
      ensures input == old(input) && data == old(data) && meta == old(meta)
      ensures isOpen == old(isOpen) && index == old(index)
    {
      loading, scheduled := DebounceAsWritten(input, loading).0, DebounceAsWritten(input, loading).1;
    }

    /**
     * The timer callback `debounceSearch` schedules, up to its `await`: the scheduled search
     * is no longer pending, and the first page is searched as `search(0)` does.
     */
    method FireTimer() returns (request: Option<SearchRequest>)
      requires scheduled
      modifies this
      ensures !scheduled
      ensures request.Some? <==> isOpen
      ensures request.Some? ==> request.value == SearchRequest(input, Limit, 0, roomId)
      ensures input == old(input) && data == old(data) && meta == old(meta) && loading == old(loading)
      ensures isOpen == old(isOpen) && index == old(index)
    {
      scheduled := false;
      request := BeginSearch(0);
    }

    /**
     * The timer callback after its `await`, with `answer` the response to the request
     * `FireTimer` made, if any: a search that settles commits as `CommitSearch` says and then
     * clears the flag; a rejected one is rethrown before the flag is cleared.
     */
    method FinishTimer(answer: Option<Result<SearchPage>>) returns (failure: Option<Failure>)
      modifies this
      ensures failure.Some? <==> answer.Some? && answer.value.Err?
      ensures failure.Some? ==> (failure.value == answer.value.error && loading == old(loading)
        && data == old(data) && meta == old(meta) && index == old(index))
      ensures failure.None? ==> !loading
      ensures answer.None? ==> data == old(data) && meta == old(meta) && index == old(index)
      ensures answer.Some? && answer.value.Ok? ==> (data == answer.value.value.data && meta == answer.value.value.meta
        && index == (if |data| > 0 then Some(0) else None))
      ensures old(Valid()) || (answer.Some? && answer.value.Ok?) ==> Valid()
      ensures input == old(input) && scheduled == old(scheduled) && isOpen == old(isOpen)
    {
      failure := None;
      if answer.Some? {
        failure := CommitSearch(0, answer.value);
      }
      if failure.None? {
        loading := false;
      }
    }

    /** The call `search(page)` makes: only while the search panel is open. */
    method BeginSearch(page: int) returns (request: Option<SearchRequest>)
      ensures request.Some? <==> isOpen
      ensures request.Some? ==> request.value == SearchRequest(input, Limit, page, roomId)
    {
      if isOpen {
        return Some(SearchRequest(input, Limit, page, roomId));
      }
      return None;
    }

    /**
     * The commit step of `search(page)`: a later page is appended, the first page replaces the
     * results; the meta is replaced and the cursor goes to the first result, or nowhere. A
     * rejected request changes nothing and is rethrown.
     */
    method CommitSearch(page: int, answer: Result<SearchPage>) returns (failure: Option<Failure>)
      modifies this
      ensures answer.Err? ==> failure == Some(answer.error) && data == old(data) && meta == old(meta) && index == old(index)
      ensures answer.Ok? ==> failure.None? && meta == answer.value.meta
      ensures answer.Ok? ==> data == if page > 0 then old(data) + answer.value.data else answer.value.data
      ensures answer.Ok? ==> index == if |data| > 0 then Some(0) else None
      ensures answer.Ok? || old(Valid()) ==> Valid()
      ensures input == old(input) && loading == old(loading) && scheduled == old(scheduled) && isOpen == old(isOpen)
    {
      match answer
      case Err(f) =>
        return Some(f);
      case Ok(p) =>
        if page > 0 {
          data := data + p.data;
        } else {
          data := p.data;
        }
        meta := p.meta;
        index := if |data| > 0 then Some(0) else None;
        return None;
    }

    method Open()
      modifies this
      ensures isOpen && data == old(data) && index == old(index) && meta == old(meta) && input == old(input)
      ensures loading == old(loading) && scheduled == old(scheduled)
    {
      isOpen := true;
    }

    method Close()
      modifies this
      ensures !isOpen && data == old(data) && index == old(index) && meta == old(meta) && input == old(input)
      ensures loading == old(loading) && scheduled == old(scheduled)
    {
      isOpen := false;
    }

    /** `setIndex(i)`: stores any value; the cursor stays valid when `i` is one. */
    method SetIndex(i: Option<int>)
      modifies this
      ensures index == i && data == old(data) && meta == old(meta) && input == old(input)
      ensures isOpen == old(isOpen) && loading == old(loading) && scheduled == old(scheduled)
      ensures Valid() <==> InRange(i, |data|)
    {
      index := i;
    }

    /** The `active` getter: the result under the cursor; an index past the results reads undefined. */
    function Active(): (r: Option<ShortMessage>)
      reads this
      ensures index.None? ==> r.None?
      ensures Valid() && index.Some? ==> r == Some(data[index.value])
      ensures !Valid() ==> r.None?
    {
      if index.Some? && 0 <= index.value < |data| then Some(data[index.value]) else None
    }

    /** `next`: the cursor moves one result further when there is one. */
    method Next()
      modifies this
      ensures index == NextIndex(old(index), |data|)
      ensures CanNext(old(index), |data|) ==> index == Some(old(index).value + 1)
      ensures old(Valid()) ==> Valid()
      ensures data == old(data) && meta == old(meta) && input == old(input)
      ensures isOpen == old(isOpen) && loading == old(loading) && scheduled == old(scheduled)
    {
      if CanNext(index, |data|) {
        SetIndex(Some(index.value + 1));
      }
    }

    /** `prev`: the cursor moves one result back when it is not at the first. */
    method Prev()
      modifies this
      ensures index == PrevIndex(old(index))
      ensures CanPrev(old(index)) ==> index == Some(old(index).value - 1)
      ensures old(Valid()) ==> Valid()
      ensures data == old(data) && meta == old(meta) && input == old(input)
      ensures isOpen == old(isOpen) && loading == old(loading) && scheduled == old(scheduled)
    {
      if CanPrev(index) {
        SetIndex(Some(index.value - 1));
      }
    }
  }
}
