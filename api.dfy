/**
 * The HTTP client's pure parts (core/api/Api.ts): the base URL and default headers it keeps,
 * link normalisation and query-string building. The request itself is not modelled.
 */
module Apis {
  import opened Wrappers
  import Text

  const Legacy := "example://"
  const Prod := "example.ru/"
  const Dev := "test-example.ru/"
  const ContentType := "content-type"
  const Json := "application/json"

  // ---------------------------------------------------------------------------
  // encodeURIComponent

  /** The characters `encodeURIComponent` leaves alone. */
  predicate Unreserved(c: char) {
    ('A' <= c <= 'Z') || ('a' <= c <= 'z') || ('0' <= c <= '9')
    || c == '-' || c == '_' || c == '.' || c == '!' || c == '~' || c == '*' || c == '\'' || c == '(' || c == ')'
  }

  predicate UpperHex(c: char) {
    ('0' <= c <= '9') || ('A' <= c <= 'F')
  }

  /** A character that can appear in the output of `encodeURIComponent`. */
  predicate Encoded(c: char) {
    Unreserved(c) || c == '%' || UpperHex(c)
  }

  function HexDigit(d: nat): (c: char)
    requires d < 16
    ensures UpperHex(c)
  {
    "0123456789ABCDEF"[d]
  }

  function PercentByte(b: nat): (r: string)
    requires b < 256
    ensures |r| == 3 && r[0] == '%'
    ensures forall i :: 0 <= i < |r| ==> Encoded(r[i])
  {
    ['%', HexDigit(b / 16), HexDigit(b % 16)]
  }

  /** The UTF-8 encoding of a Unicode scalar value. */
  function Utf8(cp: nat): (bytes: seq<nat>)
    requires cp < 0x11_0000
    ensures 1 <= |bytes| <= 4
    ensures forall i :: 0 <= i < |bytes| ==> bytes[i] < 256
    ensures (|bytes| == 1) == (cp < 0x80)
  {
    if cp < 0x80 then [cp]
    else if cp < 0x800 then [0xC0 + cp / 0x40, 0x80 + cp % 0x40]
    else if cp < 0x1_0000 then [0xE0 + cp / 0x1000, 0x80 + (cp / 0x40) % 0x40, 0x80 + cp % 0x40]
    else [0xF0 + cp / 0x4_0000, 0x80 + (cp / 0x1000) % 0x40, 0x80 + (cp / 0x40) % 0x40, 0x80 + cp % 0x40]
  }

  function PercentBytes(bytes: seq<nat>): (r: string)
    requires forall i :: 0 <= i < |bytes| ==> bytes[i] < 256
    ensures |r| == 3 * |bytes|
    ensures forall i :: 0 <= i < |r| ==> Encoded(r[i])
  {
    if bytes == [] then [] else PercentByte(bytes[0]) + PercentBytes(bytes[1..])
  }

  function EncodeChar(c: char): (r: string)
    ensures Unreserved(c) ==> r == [c]
    ensures !Unreserved(c) ==> |r| >= 3 && r[0] == '%'
    ensures forall i :: 0 <= i < |r| ==> Encoded(r[i])
  {
    if Unreserved(c) then [c] else PercentBytes(Utf8(c as int))
  }

  /**
   * `encodeURIComponent(s)`: unreserved characters are kept, every other character becomes
   * the percent-escaped bytes of its UTF-8 encoding, so the result never holds a separator
   * of a query string.
   */
  function EncodeUriComponent(s: string): (r: string)
    ensures |r| >= |s|
  {
    if s == [] then [] else EncodeChar(s[0]) + EncodeUriComponent(s[1..])
  }

  /** Every character of an encoded component is unreserved, '%' or a hex digit. */
  lemma {:induction false} EncodeSafe(s: string)
    ensures forall i :: 0 <= i < |EncodeUriComponent(s)| ==> Encoded(EncodeUriComponent(s)[i])
    decreases |s|
  {
    if s != [] {
      EncodeSafe(s[1..]);
      var head, tail := EncodeChar(s[0]), EncodeUriComponent(s[1..]);
      var r := EncodeUriComponent(s);
      assert r == head + tail;
      forall i | 0 <= i < |r|
        ensures Encoded(r[i])
      {
        if i < |head| {
          assert r[i] == head[i];
        } else {
          assert r[i] == tail[i - |head|];
        }
      }
    }
  }

  /** A component made of unreserved characters only is not changed. */
  lemma {:induction false} EncodeUnreserved(s: string)
    requires forall i :: 0 <= i < |s| ==> Unreserved(s[i])
    ensures EncodeUriComponent(s) == s
    decreases |s|
  {
    if s != [] {
      EncodeUnreserved(s[1..]);
      assert [s[0]] + s[1..] == s;
    }
  }

  // ---------------------------------------------------------------------------
  // getQueryParameters

  /**
   * The options object, as its keys in `Object.keys` order with their values already turned
   * into strings by `String(value)`; `None` is an `undefined` value.
   */
  type Options = seq<(string, Option<string>)>

  /** The entries whose value is not `undefined`, in order. */
  function Defined(options: Options): (ps: seq<(string, string)>)
    ensures |ps| <= |options|
  {
    if options == [] then []
    else (if options[0].1.Some? then [(options[0].0, options[0].1.value)] else []) + Defined(options[1..])
  }

  /** `c` does not occur in `s`. */
  predicate Free(s: string, c: char) {
    forall i :: 0 <= i < |s| ==> s[i] != c
  }

  function Param(p: (string, string)): (r: string)
    ensures |r| > 0
  {
    EncodeUriComponent(p.0) + "=" + EncodeUriComponent(p.1)
  }

  /** An encoded pair never contains the pair separator. */
  lemma ParamFree(p: (string, string))
    ensures Free(Param(p), '&')
  {
    var k, v := EncodeUriComponent(p.0), EncodeUriComponent(p.1);
    EncodeSafe(p.0);
    EncodeSafe(p.1);
    assert Param(p) == k + "=" + v;
    forall i | 0 <= i < |Param(p)|
      ensures Param(p)[i] != '&'
    {
      if i < |k| {
        assert Param(p)[i] == k[i] && Encoded(k[i]);
      } else if i > |k| {
        assert Param(p)[i] == v[i - |k| - 1] && Encoded(v[i - |k| - 1]);
      } else {
        assert Param(p)[i] == '=';
      }
    }
  }

  function Params(ps: seq<(string, string)>): (r: seq<string>)
    ensures |r| == |ps|
  {
    if ps == [] then [] else [Param(ps[0])] + Params(ps[1..])
  }

  /** `xs[0] + sep + xs[1] + ... + sep + xs[n-1]`. */
  function JoinWith(xs: seq<string>, sep: char): string
  {
    if xs == [] then ""
    else if |xs| == 1 then xs[0]
    else xs[0] + [sep] + JoinWith(xs[1..], sep)
  }

  /** The query string the options describe: "?" and then the defined pairs joined by "&". */
  function QueryString(options: Options): string {
    Query(Params(Defined(options)))
  }

  /** "?" and then the encoded pairs joined by "&", or "" when there are none. */
  function Query(xs: seq<string>): (r: string)
    ensures r == [] <==> xs == []
  {
    if xs == [] then "" else "?" + JoinWith(xs, '&')
  }

  /** One more encoded pair extends the query by "?" or "&" and the pair. */
  lemma QuerySnoc(xs: seq<string>, x: string)
    ensures Query(xs + [x]) == Query(xs) + (if xs == [] then "?" else "&") + x
  {
    if xs == [] {
      assert xs + [x] == [x];
    } else {
      JoinSnoc(xs, x, '&');
      assert "?" + (JoinWith(xs, '&') + "&" + x) == ("?" + JoinWith(xs, '&')) + "&" + x;
    }
  }

  /**
   * `getQueryParameters(options)`: no options give ""; otherwise each defined pair is appended,
   * preceded by "?" while the query is still empty and by "&" after that.
   */
  method GetQueryParameters(options: Option<Options>) returns (query: string)
    ensures options.None? ==> query == ""
    ensures options.Some? ==> query == QueryString(options.value)
  {
    if options.None? {
      return "";
    }
    var keys := options.value;
    query := "";
    var i := 0;
    while i < |keys|
      invariant 0 <= i <= |keys|
      invariant query == QueryString(keys[..i])
    {
      var key, value := keys[i].0, keys[i].1;
      QueryStringPrefix(keys, i);
      if value.Some? {
        var symbol := if |query| == 0 then "?" else "&";
        query := query + symbol + Param((key, value.value));
      }
      i := i + 1;
    }
    assert keys[..i] == keys;
  }

  /** One more entry extends the query by its pair, or leaves it alone when its value is undefined. */
  lemma QueryStringSnoc(options: Options, entry: (string, Option<string>))
    ensures var q := QueryString(options);
      QueryString(options + [entry]) ==
        if entry.1.None? then q
        else q + (if |q| == 0 then "?" else "&") + Param((entry.0, entry.1.value))
  {
    var ps := Defined(options);
    DefinedSnoc(options, entry);
    if entry.1.Some? {
      var p := (entry.0, entry.1.value);
      ParamsSnoc(ps, p);
      QuerySnoc(Params(ps), Param(p));
    } else {
      assert Defined(options + [entry]) == ps;
    }
  }

  /** `QueryStringSnoc` for the prefixes of one list of options. */
  lemma QueryStringPrefix(options: Options, i: nat)
    requires i < |options|
    ensures var q, e := QueryString(options[..i]), options[i];
      QueryString(options[..i + 1]) ==
        if e.1.None? then q else q + (if |q| == 0 then "?" else "&") + Param((e.0, e.1.value))
  {
    assert options[..i + 1] == options[..i] + [options[i]];
    QueryStringSnoc(options[..i], options[i]);
  }

  lemma {:induction false} DefinedSnoc(options: Options, entry: (string, Option<string>))
    ensures Defined(options + [entry]) ==
      Defined(options) + (if entry.1.Some? then [(entry.0, entry.1.value)] else [])
    decreases |options|
  {
    var tail := if entry.1.Some? then [(entry.0, entry.1.value)] else [];
    if options == [] {
      assert options + [entry] == [entry];
    } else {
      var longer := options + [entry];
      var head := if options[0].1.Some? then [(options[0].0, options[0].1.value)] else [];
      assert longer[0] == options[0] && longer[1..] == options[1..] + [entry];
      calc {
        Defined(longer);
        head + Defined(options[1..] + [entry]);
        { DefinedSnoc(options[1..], entry); }
        head + (Defined(options[1..]) + tail);
        (head + Defined(options[1..])) + tail;
        Defined(options) + tail;
      }
    }
  }

  lemma {:induction false} ParamsSnoc(ps: seq<(string, string)>, p: (string, string))
    ensures Params(ps + [p]) == Params(ps) + [Param(p)]
    decreases |ps|
  {
    if ps == [] {
      assert ps + [p] == [p];
    } else {
      assert (ps + [p])[1..] == ps[1..] + [p];
      ParamsSnoc(ps[1..], p);
    }
  }

  lemma {:induction false} JoinSnoc(xs: seq<string>, x: string, sep: char)
    requires xs != []
    ensures JoinWith(xs + [x], sep) == JoinWith(xs, sep) + [sep] + x
    decreases |xs|
  {
    if |xs| == 1 {
      assert xs + [x] == [xs[0], x];
      assert [x][1..] == [];
    } else {
      assert (xs + [x])[1..] == xs[1..] + [x];
      JoinSnoc(xs[1..], x, sep);
    }
  }

  /** Splitting at every occurrence of `sep`, as `s.split(sep)` does. */
  function SplitOn(s: string, sep: char): (parts: seq<string>)
    ensures |parts| >= 1
  {
    if s == [] then [[]]
    else
      var rest := SplitOn(s[1..], sep);
      if s[0] == sep then [[]] + rest else [[s[0]] + rest[0]] + rest[1..]
  }

  lemma {:induction false} SplitOnPlain(a: string, sep: char)
    requires Free(a, sep)
    ensures SplitOn(a, sep) == [a]
    decreases |a|
  {
    if a != [] {
      SplitOnPlain(a[1..], sep);
      assert [a[0]] + a[1..] == a;
    }
  }

  lemma {:induction false} SplitOnSep(a: string, sep: char, b: string)
    requires Free(a, sep)
    ensures SplitOn(a + [sep] + b, sep) == [a] + SplitOn(b, sep)
    decreases |a|
  {
    if a == [] {
      assert a + [sep] + b == [sep] + b;
      assert ([sep] + b)[1..] == b;
    } else {
      assert (a + [sep] + b)[1..] == a[1..] + [sep] + b;
      SplitOnSep(a[1..], sep, b);
      assert [a[0]] + a[1..] == a;
    }
  }

  /** Joining pieces that do not contain the separator can be undone by splitting. */
  lemma {:induction false} SplitJoin(xs: seq<string>, sep: char)
    requires xs != []
    requires forall i :: 0 <= i < |xs| ==> Free(xs[i], sep)
    ensures SplitOn(JoinWith(xs, sep), sep) == xs
    decreases |xs|
  {
    if |xs| == 1 {
      SplitOnPlain(xs[0], sep);
    } else {
      SplitJoin(xs[1..], sep);
      SplitOnSep(xs[0], sep, JoinWith(xs[1..], sep));
      assert [xs[0]] + xs[1..] == xs;
    }
  }

  /** The "&"-separated parts of a built query are exactly the encoded defined pairs, in order. */
  lemma QueryStringParts(options: Options)
    requires Defined(options) != []
    ensures var q := QueryString(options);
      q[0] == '?' && SplitOn(q[1..], '&') == Params(Defined(options))
  {
    var q := QueryString(options);
    var ps := Params(Defined(options));
    assert q[1..] == JoinWith(ps, '&');
    ParamsFree(Defined(options));
    SplitJoin(ps, '&');
  }

  lemma {:induction false} ParamsFree(ps: seq<(string, string)>)
    ensures forall i :: 0 <= i < |Params(ps)| ==> Free(Params(ps)[i], '&')
    decreases |ps|
  {
    if ps != [] {
      ParamFree(ps[0]);
      ParamsFree(ps[1..]);
      assert forall i :: 1 <= i < |Params(ps)| ==> Params(ps)[i] == Params(ps[1..])[i - 1];
    }
  }

  /** The query is empty exactly when no option has a defined value. */
  lemma QueryStringEmpty(options: Options)
    ensures QueryString(options) == "" <==> (forall i :: 0 <= i < |options| ==> options[i].1.None?)
  {
    DefinedEmpty(options);
  }

  lemma {:induction false} DefinedEmpty(options: Options)
    ensures Defined(options) == [] <==> (forall i :: 0 <= i < |options| ==> options[i].1.None?)
    decreases |options|
  {
    if options != [] {
      DefinedEmpty(options[1..]);
      assert forall i :: 1 <= i < |options| ==> options[i] == options[1..][i - 1];
    }
  }

  // ---------------------------------------------------------------------------
  // the client

  class Api {
    var baseUrl: string
    var headers: map<string, string>

    /** The base URL is always an absolute http(s) URL and the JSON content type is present. */
    predicate Valid()
      reads this
    {
      Text.StartsWith(baseUrl, "http") && ContentType in headers
    }

    constructor ()
      ensures Valid()
      ensures baseUrl == "https://" + Prod
      ensures headers == map[ContentType := Json]
    {
      baseUrl := "https://" + Prod;
      headers := map[ContentType := Json];
    }

    /**
     * `fixLink(link)`: `undefined` stays `undefined`, a link starting with "http" is kept,
     * any other link is resolved against the base URL, dropping one leading "/".
     */
    function FixLink(link: Option<string>): (r: Option<string>)
      reads this
      ensures link.None? <==> r.None?
      ensures link.Some? && Text.StartsWith(link.value, "http") ==> r == link
    {
      match link
      case None => None
      case Some(l) =>
        if Text.StartsWith(l, "http") then Some(l)
        else if |l| > 0 && l[0] == '/' then Some(baseUrl + l[1..])
        else Some(baseUrl + l)
    }

    /** A link already fixed is left as it is. */
    lemma FixLinkIdempotent(link: Option<string>)
      requires Valid()
      ensures FixLink(FixLink(link)) == FixLink(link)
      ensures link.Some? ==> Text.StartsWith(FixLink(link).value, "http")
    {
      if link.Some? && !Text.StartsWith(link.value, "http") {
        var l := link.value;
        var rest := if |l| > 0 && l[0] == '/' then l[1..] else l;
        assert (baseUrl + rest)[..4] == baseUrl[..4];
      }
    }

    /** A relative path resolves to the same URL with or without one leading "/". */
    lemma FixLinkLeadingSlash(path: string)
      requires !Text.StartsWith(path, "http")
      requires path == [] || path[0] != '/'
      ensures FixLink(Some("/" + path)) == FixLink(Some(path))
    {
      assert ("/" + path)[1..] == path;
      assert !Text.StartsWith("/" + path, "http") by {
        assert ("/" + path)[0] == '/';
      }
    }

    /**
     * `configure(prod, handler, headers)`: selects the production or development host, and when
     * headers are given replaces them by those headers over the JSON content type (a given
     * content type wins). The error handler is not modelled.
     */
    method Configure(prod: bool, extra: Option<map<string, string>>)
      requires Valid()
      modifies this
      ensures Valid()
      ensures baseUrl == "https://" + (if prod then Prod else Dev)
      ensures extra.None? ==> headers == old(headers)
      ensures extra.Some? ==> headers == map[ContentType := Json] + extra.value
      ensures extra.Some? ==>
        headers[ContentType] == (if ContentType in extra.value then extra.value[ContentType] else Json)
    {
      if prod {
        baseUrl := "https://" + Prod;
      } else {
        baseUrl := "https://" + Dev;
      }
      if extra.Some? {
        headers := map[ContentType := Json] + extra.value;
      }
    }
  }
}
