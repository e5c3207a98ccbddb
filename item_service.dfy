/** The item service: the query string of `search` and the URL templates of the paged
    getters, each returning the response body unchanged. The query serialization follows
    the application/x-www-form-urlencoded serializer of the WHATWG URL Standard, without
    its percent-encoding. */
module ItemService {
  import opened Wrappers
  import Lists
  import Js
  import Browser
  import Api

  /** A value in a search-parameter object. */
  datatype ParamValue = Undefined | Null | Str(s: string) | Num(n: int) | Bool(b: bool)

  /** The entries of a parameter object, in `Object.entries` order. */
  type Params = seq<(string, ParamValue)>

  /** `value === undefined || value === null || value === ''`. */
  predicate IsOmitted(v: ParamValue) {
    v.Undefined? || v.Null? || v == Str("")
  }

  /** `value.toString()` for a value that is kept. */
  function ValueText(v: ParamValue): string {
    match v
    case Str(s) => s
    case Num(n) => Js.NumberToString(n)
    case Bool(b) => if b then "true" else "false"
    case _ => ""
  }

  /** The pair one entry contributes: none when its value is omitted. */
  function Appended(e: (string, ParamValue)): seq<(string, string)> {
    if IsOmitted(e.1) then [] else [(e.0, ValueText(e.1))]
  }

  /** The name-value list `search` appends, in the order of the entries. */
  function KeptPairs(params: Params): seq<(string, string)> {
    if params == [] then []
    else KeptPairs(params[..|params| - 1]) + Appended(params[|params| - 1])
  }

  function PairText(p: (string, string)): string {
    p.0 + "=" + p.1
  }

  function Pieces(pairs: seq<(string, string)>): (r: seq<string>)
    ensures |r| == |pairs|
  {
    if pairs == [] then [] else [PairText(pairs[0])] + Pieces(pairs[1..])
  }

  /** The k-th piece is the k-th pair rendered as `name=value`. */
  lemma {:induction false} PiecesElements(pairs: seq<(string, string)>)
    ensures forall k :: 0 <= k < |pairs| ==> Pieces(pairs)[k] == PairText(pairs[k])
  {
    if pairs != [] {
      PiecesElements(pairs[1..]);
      forall k | 1 <= k < |pairs| ensures Pieces(pairs)[k] == PairText(pairs[k]) {
        assert Pieces(pairs)[k] == Pieces(pairs[1..])[k - 1];
      }
    }
  }

  /** `URLSearchParams.toString()`: `name=value` pieces joined by `&`. */
  function Serialize(pairs: seq<(string, string)>): string {
    if pairs == [] then "" else Js.Join(Pieces(pairs), '&')
  }

  /** The position of the first `=` in a piece. */
  function FirstEquals(s: string): Option<nat> {
    Lists.IndexOfFirst(s, (c: char) => c == '=')
  }

  /** A piece split at its first `=`; a piece without one is a name with an empty value. */
  function ParsePiece(s: string): (string, string) {
    match FirstEquals(s)
    case Some(i) => (s[..i], s[i + 1..])
    case None => (s, "")
  }

  /** The pieces parsed in order; empty pieces are skipped. */
  function ParsePieces(pieces: seq<string>): seq<(string, string)> {
    if pieces == [] then []
    else (if pieces[0] == "" then [] else [ParsePiece(pieces[0])]) + ParsePieces(pieces[1..])
  }

  /** The urlencoded parser, without percent-decoding. */
  function ParseQuery(q: string): seq<(string, string)> {
    if q == "" then [] else ParsePieces(Js.Split(q, '&'))
  }

  /** The request path of `search`. It ends in `?` even when nothing is kept. */
  function SearchPath(params: Params): string {
    "/items/search?" + Serialize(KeptPairs(params))
  }

  /** The forEach/append loop of `search`, then the serialization of what it appended. */
  method SearchQuery(params: Params) returns (query: string)
    ensures query == Serialize(KeptPairs(params))
  {
    var pairs: seq<(string, string)> := [];
    var i := 0;
    while i < |params|
      invariant 0 <= i <= |params|
      invariant pairs == KeptPairs(params[..i])
    {
      var (key, value) := params[i];
      if !IsOmitted(value) {
        pairs := pairs + [(key, ValueText(value))];
      }
      assert params[..i + 1][..i] == params[..i];
      i := i + 1;
    }
    assert params[..|params|] == params;
    query := Serialize(pairs);
  }

  /** `search`: one GET of the built path, returning `response.data`. */
  method Search<T>(client: Api.ApiClient, window: Browser.Window, params: Params,
                   transport: Api.RequestConfig -> Api.Outcome<T>)
    returns (r: Result<T, Api.HttpError>)
    modifies window
    ensures var outcome := transport(client.Outgoing(Api.Get, SearchPath(params), old(window.GetItem(Browser.TokenKey))));
      && r == Api.Body(outcome)
      && Api.TeardownEffect(outcome, old(window.storage), old(window.href), window.storage, window.href)
  {
    var query := SearchQuery(params);
    var outcome := client.Request(window, Api.Get, "/items/search?" + query, transport);
    r := Api.Body(outcome);
  }

  /** Any other service method: one request of a fixed path, returning `response.data`. */
  method Fetch<T>(client: Api.ApiClient, window: Browser.Window, verb: Api.Verb, path: string,
                  transport: Api.RequestConfig -> Api.Outcome<T>)
    returns (r: Result<T, Api.HttpError>)
    modifies window
    ensures var outcome := transport(client.Outgoing(verb, path, old(window.GetItem(Browser.TokenKey))));
      && r == Api.Body(outcome)
      && Api.TeardownEffect(outcome, old(window.storage), old(window.href), window.storage, window.href)
  {
    var outcome := client.Request(window, verb, path, transport);
    r := Api.Body(outcome);
  }

  // ---------------------------------------------------------------------------
  // The paged getters

  function PagedQuery(page: int, size: int): string {
    "?page=" + Js.NumberToString(page) + "&size=" + Js.NumberToString(size)
  }

  function ItemsPath(page: int := 0, size: int := 20): string {
    "/items" + PagedQuery(page, size)
  }

  function CategoryItemsPath(categoryId: int, page: int := 0, size: int := 20): string {
    "/items/category/" + Js.NumberToString(categoryId) + PagedQuery(page, size)
  }

  function UserItemsPath(userId: int, page: int := 0, size: int := 20): string {
    "/items/user/" + Js.NumberToString(userId) + PagedQuery(page, size)
  }

  function FavoritesPath(userId: int, page: int := 0, size: int := 20): string {
    "/items/favorites/" + Js.NumberToString(userId) + PagedQuery(page, size)
  }

  // ---------------------------------------------------------------------------
  // Properties of `search`

  /** Building a query from a concatenation keeps the order across the two parts. */
  lemma {:induction false} KeptPairsConcat(a: Params, b: Params)
    ensures KeptPairs(a + b) == KeptPairs(a) + KeptPairs(b)
    decreases |b|
  {
    if b == [] {
      Lists.AppendEmpty(a);
      Lists.AppendEmpty(KeptPairs(a));
    } else {
      var b', last := b[..|b| - 1], b[|b| - 1];
      KeptPairsConcat(a, b');
      Lists.LastSplit(b);
      KeptPairsConcatStep(a, b', last);
    }
  }

  lemma KeptPairsConcatStep(a: Params, b: Params, last: (string, ParamValue))
    requires KeptPairs(a + b) == KeptPairs(a) + KeptPairs(b)
    ensures KeptPairs(a + (b + [last])) == KeptPairs(a) + KeptPairs(b + [last])
  {
    Lists.AppendAssociative(a, b, [last]);
    KeptPairsSnoc(a + b, last);
    KeptPairsSnoc(b, last);
    Lists.AppendAssociative(KeptPairs(a), KeptPairs(b), Appended(last));
  }

  /** Appending one entry appends its contribution. */
  lemma KeptPairsSnoc(x: Params, e: (string, ParamValue))
    ensures KeptPairs(x + [e]) == KeptPairs(x) + Appended(e)
  {
    assert (x + [e])[..|x|] == x;
  }

  /** One entry is dropped exactly when its value is undefined, null or ''; a kept entry is
      rendered by `toString` under its own name. */
  lemma KeptPairsSingle(key: string, v: ParamValue)
    ensures KeptPairs([(key, v)]) == if IsOmitted(v) then [] else [(key, ValueText(v))]
  {
    assert [(key, v)][..0] == [];
  }

  /** The kept pairs of an eight-entry object, entry by entry. */
  lemma KeptPairsOfEight(p: Params)
    requires |p| == 8
    ensures KeptPairs(p) == Appended(p[0]) + Appended(p[1]) + Appended(p[2]) + Appended(p[3])
                          + Appended(p[4]) + Appended(p[5]) + Appended(p[6]) + Appended(p[7])
  {
    assert p[..1][..0] == [];
    assert KeptPairs(p[..1]) == Appended(p[0]);
    assert p[..2][..1] == p[..1];
    assert KeptPairs(p[..2]) == KeptPairs(p[..1]) + Appended(p[1]);
    assert p[..3][..2] == p[..2];
    assert KeptPairs(p[..3]) == KeptPairs(p[..2]) + Appended(p[2]);
    assert p[..4][..3] == p[..3];
    assert KeptPairs(p[..4]) == KeptPairs(p[..3]) + Appended(p[3]);
    assert p[..5][..4] == p[..4];
    assert KeptPairs(p[..5]) == KeptPairs(p[..4]) + Appended(p[4]);
    assert p[..6][..5] == p[..5];
    assert KeptPairs(p[..6]) == KeptPairs(p[..5]) + Appended(p[5]);
    assert p[..7][..6] == p[..6];
    assert KeptPairs(p[..7]) == KeptPairs(p[..6]) + Appended(p[6]);
    assert p[..7] == p[..|p| - 1];
    assert KeptPairs(p) == KeptPairs(p[..7]) + Appended(p[7]);
  }

  /** search keeps 0, false and non-empty strings; only undefined, null and '' are dropped. */
  lemma FalsyValuesKept(key: string, s: string, n: int, b: bool)
    requires s != ""
    ensures KeptPairs([(key, Num(0))]) == [(key, "0")]
    ensures KeptPairs([(key, Bool(false))]) == [(key, "false")]
    ensures KeptPairs([(key, Num(n))]) == [(key, Js.NumberToString(n))]
    ensures KeptPairs([(key, Bool(b))]) == [(key, if b then "true" else "false")]
    ensures KeptPairs([(key, Str(s))]) == [(key, s)]
    ensures KeptPairs([(key, Undefined)]) == [] && KeptPairs([(key, Null)]) == []
    ensures KeptPairs([(key, Str(""))]) == []
  {
    KeptPairsSingle(key, Num(0));
    KeptPairsSingle(key, Bool(false));
    KeptPairsSingle(key, Num(n));
    KeptPairsSingle(key, Bool(b));
    KeptPairsSingle(key, Str(s));
    KeptPairsSingle(key, Undefined);
    KeptPairsSingle(key, Null);
    KeptPairsSingle(key, Str(""));
  }

  /** The kept pairs are the present entries, in entry order: a subsequence of the entries
      rendered as text, and every present entry is in it. */
  lemma {:induction false} KeptPairsAreThePresentEntries(params: Params)
    ensures |KeptPairs(params)| <= |params|
    ensures forall k :: 0 <= k < |params| && !IsOmitted(params[k].1) ==>
      (params[k].0, ValueText(params[k].1)) in KeptPairs(params)
    ensures forall p :: p in KeptPairs(params) ==>
      exists k :: 0 <= k < |params| && !IsOmitted(params[k].1) && p == (params[k].0, ValueText(params[k].1))
    decreases |params|
  {
    if params != [] {
      var init := params[..|params| - 1];
      KeptPairsAreThePresentEntries(init);
      forall p | p in KeptPairs(params)
        ensures exists k :: 0 <= k < |params| && !IsOmitted(params[k].1) && p == (params[k].0, ValueText(params[k].1))
      {
        if p in KeptPairs(init) {
          var k :| 0 <= k < |init| && !IsOmitted(init[k].1) && p == (init[k].0, ValueText(init[k].1));
          assert params[k] == init[k];
        } else {
          assert p == (params[|params| - 1].0, ValueText(params[|params| - 1].1));
        }
      }
      forall k | 0 <= k < |params| && !IsOmitted(params[k].1)
        ensures (params[k].0, ValueText(params[k].1)) in KeptPairs(params)
      {
        if k < |params| - 1 {
          assert params[k] == init[k];
        }
      }
    }
  }

  /** With nothing kept the path is the bare `/items/search?`. */
  lemma EmptySearchPath(params: Params)
    requires forall k :: 0 <= k < |params| ==> IsOmitted(params[k].1)
    ensures SearchPath(params) == "/items/search?"
  {
    KeptPairsNone(params);
  }

  lemma {:induction false} KeptPairsNone(params: Params)
    requires forall k :: 0 <= k < |params| ==> IsOmitted(params[k].1)
    ensures KeptPairs(params) == []
    decreases |params|
  {
    if params != [] {
      KeptPairsNone(params[..|params| - 1]);
    }
  }

  // ---------------------------------------------------------------------------
  // The serialization round trip

  lemma {:induction false} PiecesHaveNoAmpersand(pairs: seq<(string, string)>)
    requires forall k :: 0 <= k < |pairs| ==> '&' !in pairs[k].0 && '&' !in pairs[k].1
    ensures forall k :: 0 <= k < |Pieces(pairs)| ==> '&' !in Pieces(pairs)[k] && Pieces(pairs)[k] != ""
    ensures forall k :: 0 <= k < |pairs| ==> Pieces(pairs)[k] == PairText(pairs[k])
  {
    if pairs != [] {
      PiecesHaveNoAmpersand(pairs[1..]);
      assert '&' !in PairText(pairs[0]) by {
        var t := PairText(pairs[0]);
        forall k | 0 <= k < |t| ensures t[k] != '&' {
          if k < |pairs[0].0| {
            assert t[k] == pairs[0].0[k];
          } else if k > |pairs[0].0| {
            assert t[k] == pairs[0].1[k - |pairs[0].0| - 1];
          }
        }
      }
      assert |PairText(pairs[0])| > 0;
    }
  }

  /** A name without `=` is split off at the `=` that follows it. */
  lemma ParsePieceOfPair(p: (string, string))
    requires '=' !in p.0
    ensures ParsePiece(PairText(p)) == p
  {
    var t := PairText(p);
    assert t[|p.0|] == '=';
    var f := FirstEquals(t);
    assert f.Some?;
    assert f.value == |p.0|;
    assert t[..|p.0|] == p.0;
    assert t[|p.0| + 1..] == p.1;
  }

  lemma {:induction false} ParsePiecesOfPairs(pairs: seq<(string, string)>)
    requires forall k :: 0 <= k < |pairs| ==> '=' !in pairs[k].0
    ensures ParsePieces(Pieces(pairs)) == pairs
  {
    if pairs != [] {
      ParsePiecesOfPairs(pairs[1..]);
      ParsePieceOfPair(pairs[0]);
      assert |PairText(pairs[0])| > 0;
      assert Pieces(pairs)[1..] == Pieces(pairs[1..]);
    }
  }

  /** The urlencoded parser recovers the pairs the serializer wrote, in order, as long as
      names hold no `&` or `=` and values no `&` (what percent-encoding would otherwise
      guarantee). */
  lemma SerializeRoundTrip(pairs: seq<(string, string)>)
    requires forall k :: 0 <= k < |pairs| ==> '&' !in pairs[k].0 && '=' !in pairs[k].0 && '&' !in pairs[k].1
    ensures ParseQuery(Serialize(pairs)) == pairs
  {
    if pairs != [] {
      PiecesHaveNoAmpersand(pairs);
      var parts := Pieces(pairs);
      Js.SplitJoin(parts, '&');
      var s := Js.Join(parts, '&');
      if s == "" {
        JoinNonEmpty(parts, '&');
      }
      ParsePiecesOfPairs(pairs);
    }
  }

  lemma {:induction false} JoinNonEmpty(parts: seq<string>, sep: char)
    requires |parts| >= 1 && parts[0] != ""
    ensures Js.Join(parts, sep) != ""
  {
  }

  // ---------------------------------------------------------------------------
  // The paged getters

  /** The hand-written `?page=P&size=S` templates are the urlencoded serialization of the
      two parameters. */
  lemma PagedQueryIsUrlEncoded(page: int, size: int)
    ensures PagedQuery(page, size) ==
      "?" + Serialize([("page", Js.NumberToString(page)), ("size", Js.NumberToString(size))])
  {
    var pairs := [("page", Js.NumberToString(page)), ("size", Js.NumberToString(size))];
    var parts := [PairText(pairs[0]), PairText(pairs[1])];
    assert Pieces(pairs) == parts by {
      assert pairs[1..][1..] == [];
    }
    assert parts[1..] == [PairText(pairs[1])];
    assert Js.Join(parts, '&') == PairText(pairs[0]) + "&" + PairText(pairs[1]);
  }

  /** The backend reads back the same page and size from a paged path's query. */
  lemma PagedQueryDecodes(page: int, size: int)
    ensures |PagedQuery(page, size)| >= 1
    ensures var pairs := ParseQuery(PagedQuery(page, size)[1..]);
      && |pairs| == 2
      && pairs[0].0 == "page" && Js.ParseNumber(pairs[0].1) == Some(page)
      && pairs[1].0 == "size" && Js.ParseNumber(pairs[1].1) == Some(size)
  {
    var pairs := [("page", Js.NumberToString(page)), ("size", Js.NumberToString(size))];
    PagedQueryIsUrlEncoded(page, size);
    NumberTextHasNoDelimiters(page);
    NumberTextHasNoDelimiters(size);
    SerializeRoundTrip(pairs);
    var q := PagedQuery(page, size);
    assert q[1..] == Serialize(pairs);
    Js.NumberToStringRoundTrip(page);
    Js.NumberToStringRoundTrip(size);
  }

  lemma NumberTextHasNoDelimiters(n: int)
    ensures '&' !in Js.NumberToString(n) && '=' !in Js.NumberToString(n)
  {
    var t := Js.NatToString(if n < 0 then -n else n);
    assert forall k :: 0 <= k < |t| ==> Js.IsDigit(t[k]);
    if n < 0 {
      var s := "-" + t;
      forall k | 0 <= k < |s| ensures s[k] != '&' && s[k] != '=' {
        if k > 0 {
          assert s[k] == t[k - 1];
        }
      }
    }
  }

  /** Called without page and size, the paged getters ask for page 0 of size 20. */
  lemma PagedDefaults(id: int)
    ensures ItemsPath() == "/items?page=0&size=20"
    ensures CategoryItemsPath(id) == "/items/category/" + Js.NumberToString(id) + "?page=0&size=20"
    ensures UserItemsPath(id) == "/items/user/" + Js.NumberToString(id) + "?page=0&size=20"
    ensures FavoritesPath(id) == "/items/favorites/" + Js.NumberToString(id) + "?page=0&size=20"
  {
    DefaultPagedQuery();
  }

  lemma DefaultPagedQuery()
    ensures PagedQuery(0, 20) == "?page=0&size=20"
  {
    assert Js.NumberToString(0) == "0";
    assert Js.NatToString(20) == Js.NatToString(2) + [Js.DigitChar(0)];
    assert Js.NumberToString(20) == "20";
  }
}
