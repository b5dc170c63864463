/** The signed-in user and the person helpers (core/user/User.ts). */
module Users {
  import opened Wrappers
  import Text
  import Apis

  datatype OnlineStatus = Online | Offline

  /**
   * The fields of `IPerson` the engine reads. The names are optional because `getFullName`
   * accepts a `Partial<IPerson>`.
   */
  datatype Person = Person(
    id: string,
    username: Option<string>,
    firstName: Option<string>,
    lastName: Option<string>,
    status: OnlineStatus)

  /** JavaScript truthiness of an optional string: defined and not empty. */
  predicate Truthy(s: Option<string>) {
    s.Some? && s.value != ""
  }

  /** How a template literal renders an optional string: `undefined` is spelled out. */
  function Render(s: Option<string>): string {
    match s
    case Some(v) => v
    case None => "undefined"
  }

  const BotUsername := "adapt_bot"
  const BotName := "Василиса"

  /**
   * `User.getFullName(person)`: nothing for no person; the trimmed "first last" when either
   * name is truthy; otherwise the username, with the assistant bot's login replaced by its name.
   */
  function GetFullName(person: Option<Person>): (name: Option<string>)
    ensures person.None? ==> name.None?
    ensures person.Some? && (Truthy(person.value.firstName) || Truthy(person.value.lastName)) ==>
      name == Some(Text.Trim(Render(person.value.firstName) + " " + Render(person.value.lastName)))
    ensures person.Some? && !Truthy(person.value.firstName) && !Truthy(person.value.lastName) ==>
      name == if person.value.username == Some(BotUsername) then Some(BotName) else person.value.username
  {
    match person
    case None => None
    case Some(p) =>
      if Truthy(p.lastName) || Truthy(p.firstName) then
        Some(Text.Trim(Render(p.firstName) + " " + Render(p.lastName)))
      else if p.username == Some(BotUsername) then Some(BotName)
      else p.username
  }

  /** A string that starts and ends with a visible character is its own trim. */
  lemma TrimPlain(s: string)
    requires s != [] && !Text.IsWhitespace(s[0]) && !Text.IsWhitespace(s[|s| - 1])
    ensures Text.Trim(s) == s
  {
    assert Text.TrimStart(s) == s;
    assert Text.TrimEnd(s) == s;
  }

  /** With both names given, the full name is exactly "first last". */
  lemma FullNameOfBothNames(p: Person)
    requires p.firstName.Some? && p.lastName.Some?
    requires var f, l := p.firstName.value, p.lastName.value;
      f != [] && l != [] && !Text.IsWhitespace(f[0]) && !Text.IsWhitespace(l[|l| - 1])
    ensures GetFullName(Some(p)) == Some(p.firstName.value + " " + p.lastName.value)
  {
    var s := p.firstName.value + " " + p.lastName.value;
    assert s[0] == p.firstName.value[0];
    assert s[|s| - 1] == p.lastName.value[|p.lastName.value| - 1];
    TrimPlain(s);
  }

  /** An empty last name leaves the first name alone: the separating space is trimmed away. */
  lemma FullNameOfFirstName(p: Person)
    requires p.firstName.Some? && p.lastName == Some("")
    requires var f := p.firstName.value; f != [] && !Text.IsWhitespace(f[0]) && !Text.IsWhitespace(f[|f| - 1])
    ensures GetFullName(Some(p)) == p.firstName
  {
    var f := p.firstName.value;
    var s := f + " " + "";
    assert Text.TrimStart(s) == s;
    assert s[..|f|] == f;
    assert Text.TrimEnd(s) == Text.TrimEnd(s[..|s| - 1]) == Text.TrimEnd(f) == f;
  }

  /** `User.byId(id)`: the person with that id. */
  function ById(id: string, p: Person): (r: bool)
    ensures r <==> p.id == id
  {
    p.id == id
  }

  /** `User.isOnline`: the person is online, that is, not offline. */
  function IsOnline(p: Person): (r: bool)
    ensures r <==> p.status != Offline
  {
    p.status == Online
  }

  /** What `toJSON` returns: an absent `info` is written as `null`. */
  datatype UserJson = UserJson(token: string, info: Option<Person>)

  class User {
    var token: string
    var info: Option<Person>

    constructor (token: string, info: Option<Person>)
      ensures this.token == token && this.info == info
    {
      this.token := token;
      this.info := info;
    }

    function ToJson(): (j: UserJson)
      reads this
      ensures j.token == token && j.info == info
    {
      UserJson(token, info)
    }

    /** `logout`: the object can no longer authenticate. */
    method Logout()
      modifies this
      ensures token == "" && info == None
    {
      token := "";
      info := None;
    }

    method SetInfo(i: Person)
      modifies this
      ensures info == Some(i) && token == old(token)
    {
      info := Some(i);
    }
  }

  // ---------------------------------------------------------------------------
  // the query string of `User.search`

  /** `UserSearchParams`; the page and count are integers here. */
  datatype SearchParams = SearchParams(
    query: string,
    page: int,
    filters: Apis.Options,
    fromRoom: Option<string>,
    count: Option<int>)

  /** The filters part: `key=value&` for each defined filter, built by a left fold. */
  function FilterPart(filters: Apis.Options): string
  {
    if filters == [] then ""
    else
      var last := filters[|filters| - 1];
      FilterPart(filters[..|filters| - 1]) + (if last.1.Some? then last.0 + "=" + last.1.value + "&" else "")
  }

  /** The same part written from the defined filters, which are neither escaped nor reordered. */
  function Pairs(ps: seq<(string, string)>): string {
    if ps == [] then "" else ps[0].0 + "=" + ps[0].1 + "&" + Pairs(ps[1..])
  }

  lemma {:induction false} PairsSnoc(ps: seq<(string, string)>, p: (string, string))
    ensures Pairs(ps + [p]) == Pairs(ps) + (p.0 + "=" + p.1 + "&")
    decreases |ps|
  {
    if ps == [] {
      assert ps + [p] == [p];
    } else {
      assert (ps + [p])[1..] == ps[1..] + [p];
      PairsSnoc(ps[1..], p);
    }
  }

  /** Filters with an undefined value are left out and the others are kept in order. */
  lemma {:induction false} FilterPartDefined(filters: Apis.Options)
    ensures FilterPart(filters) == Pairs(Apis.Defined(filters))
    decreases |filters|
  {
    if filters != [] {
      var init, last := filters[..|filters| - 1], filters[|filters| - 1];
      FilterPartDefined(init);
      Apis.DefinedSnoc(init, last);
      assert init + [last] == filters;
      if last.1.Some? {
        PairsSnoc(Apis.Defined(init), (last.0, last.1.value));
      } else {
        calc {
          FilterPart(filters);
          FilterPart(init) + "";
          Pairs(Apis.Defined(init));
          { assert Apis.Defined(init + [last]) == Apis.Defined(init) + [];
            assert Apis.Defined(init) + [] == Apis.Defined(init); }
          Pairs(Apis.Defined(filters));
        }
      }
    }
  }

  /**
   * The parameter string of `User.search`; `fromRoom` and `count` are present only when truthy.
   * It always opens with the query and the page.
   */
  function SearchQuery(p: SearchParams): (r: string)
    ensures Text.StartsWith(r, "query=" + p.query + "&page=" + Text.IntToString(p.page) + "&")
  {
    var query := "query=" + p.query + "&";
    var page := "page=" + Text.IntToString(p.page) + "&";
    var fromRoom := if Truthy(p.fromRoom) then "fromRoom=" + p.fromRoom.value + "&" else "";
    var count := if p.count.Some? && p.count.value != 0 then "count=" + Text.IntToString(p.count.value) else "";
    var r := query + page + fromRoom + FilterPart(p.filters) + count;
    assert query + page == "query=" + p.query + "&page=" + Text.IntToString(p.page) + "&";
    assert r == (query + page) + (fromRoom + FilterPart(p.filters) + count);
    r
  }

  /**
   * The parameters come in the order query, page, room, filters, count, and the filters part
   * lists exactly the defined filters.
   */
  lemma SearchQueryLayout(p: SearchParams)
    ensures SearchQuery(p) ==
      ("query=" + p.query + "&") + ("page=" + Text.IntToString(p.page) + "&")
      + (if Truthy(p.fromRoom) then "fromRoom=" + p.fromRoom.value + "&" else "")
      + Pairs(Apis.Defined(p.filters))
      + (if p.count.Some? && p.count.value != 0 then "count=" + Text.IntToString(p.count.value) else "")
  {
    FilterPartDefined(p.filters);
  }

  /** With no room, no count and only undefined filters, only the query and the page are sent. */
  lemma SearchQueryMinimal(p: SearchParams)
    requires !Truthy(p.fromRoom) && p.count.None?
    requires forall i :: 0 <= i < |p.filters| ==> p.filters[i].1.None?
    ensures SearchQuery(p) == "query=" + p.query + "&page=" + Text.IntToString(p.page) + "&"
  {
    var query, page := "query=" + p.query + "&", "page=" + Text.IntToString(p.page) + "&";
    assert FilterPart(p.filters) == "" by {
      FilterPartDefined(p.filters);
      Apis.DefinedEmpty(p.filters);
    }
    assert SearchQuery(p) == query + page + "" + "" + "";
    assert query + page == "query=" + p.query + "&page=" + Text.IntToString(p.page) + "&";
  }
}
