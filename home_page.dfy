/** The home page: the search parameters built from the filter state, the filter handlers,
    and the favourite mutation with its optimistic `favoriteCount` patch of the cached page. */
module HomePage {
  import opened Wrappers
  import opened Types
  import Js
  import ItemService
  import Lists

  const PageSize := 12
  const DefaultPriceRange: (int, int) := (0, 10000)
  const DefaultSortBy := "createdAt"

  /** The filter state the page search depends on. */
  datatype Filters = Filters(
    currentPage: int,
    keyword: string,
    category: Option<int>,
    priceRange: (int, int),
    freeOnly: bool,
    sortBy: string)

  /** The filter state the page starts with. */
  const InitialFilters := Filters(1, "", None, DefaultPriceRange, false, DefaultSortBy)

  /** The object handed to `itemService.search`, entries in declaration order. */
  function SearchParams(f: Filters): (r: ItemService.Params)
    ensures |r| == 8
  {
    [ ("page", ItemService.Num(f.currentPage - 1)),
      ("size", ItemService.Num(PageSize)),
      ("keyword", if f.keyword != "" then ItemService.Str(f.keyword) else ItemService.Undefined),
      ("categoryId", if Js.NumTruthy(f.category) then ItemService.Num(f.category.value) else ItemService.Undefined),
      ("minPrice", ItemService.Num(if f.freeOnly then 0 else f.priceRange.0)),
      ("maxPrice", ItemService.Num(if f.freeOnly then 0 else f.priceRange.1)),
      ("sortBy", ItemService.Str(f.sortBy)),
      ("isFree", if f.freeOnly then ItemService.Num(1) else ItemService.Undefined) ]
  }

  /** What goes on the wire for a filter state, written as the backend sees it: page
      (0-based) and size always, keyword and categoryId only when truthy, both price bounds
      (0 and 0 when free-only), sortBy when non-empty, isFree=1 only when free-only. */
  function SentPairs(f: Filters): seq<(string, string)> {
    [("page", Js.NumberToString(f.currentPage - 1)), ("size", "12")]
    + KeywordPair(f) + CategoryPair(f) + PricePairs(f) + SortPair(f) + FreePair(f)
  }

  function KeywordPair(f: Filters): seq<(string, string)> {
    if f.keyword != "" then [("keyword", f.keyword)] else []
  }

  function CategoryPair(f: Filters): seq<(string, string)> {
    if Js.NumTruthy(f.category) then [("categoryId", Js.NumberToString(f.category.value))] else []
  }

  function PricePairs(f: Filters): seq<(string, string)> {
    if f.freeOnly then [("minPrice", "0"), ("maxPrice", "0")]
    else [("minPrice", Js.NumberToString(f.priceRange.0)), ("maxPrice", Js.NumberToString(f.priceRange.1))]
  }

  function SortPair(f: Filters): seq<(string, string)> {
    if f.sortBy != "" then [("sortBy", f.sortBy)] else []
  }

  function FreePair(f: Filters): seq<(string, string)> {
    if f.freeOnly then [("isFree", "1")] else []
  }

  lemma SmallNumbers()
    ensures Js.NumberToString(0) == "0" && Js.NumberToString(1) == "1"
    ensures Js.NumberToString(12) == "12"
  {
    assert Js.NatToString(12) == Js.NatToString(1) + [Js.DigitChar(2)];
  }

  /** The contribution of each entry of the page's parameter object. */
  lemma EntriesContribute(f: Filters)
    ensures var p := SearchParams(f);
      SentPairs(f) == ItemService.Appended(p[0]) + ItemService.Appended(p[1]) + ItemService.Appended(p[2])
        + ItemService.Appended(p[3]) + ItemService.Appended(p[4]) + ItemService.Appended(p[5])
        + ItemService.Appended(p[6]) + ItemService.Appended(p[7])
  {
    var p := SearchParams(f);
    FixedEntries(f);
    OptionalEntries(f);
    Lists.AppendAssociative(
      ItemService.Appended(p[0]) + ItemService.Appended(p[1]) + ItemService.Appended(p[2])
        + ItemService.Appended(p[3]),
      ItemService.Appended(p[4]), ItemService.Appended(p[5]));
  }

  lemma FixedEntries(f: Filters)
    ensures var p := SearchParams(f);
      && ItemService.Appended(p[0]) + ItemService.Appended(p[1])
           == [("page", Js.NumberToString(f.currentPage - 1)), ("size", "12")]
      && ItemService.Appended(p[4]) + ItemService.Appended(p[5]) == PricePairs(f)
  {
    SmallNumbers();
  }

  lemma OptionalEntries(f: Filters)
    ensures var p := SearchParams(f);
      && ItemService.Appended(p[2]) == KeywordPair(f)
      && ItemService.Appended(p[3]) == CategoryPair(f)
      && ItemService.Appended(p[6]) == SortPair(f)
      && ItemService.Appended(p[7]) == FreePair(f)
  {
    SmallNumbers();
  }

  /** The filtering loop of `search` applied to the page's parameter object sends exactly
      the pairs above, in that order. */
  lemma SearchParamsSend(f: Filters)
    ensures ItemService.KeptPairs(SearchParams(f)) == SentPairs(f)
  {
    ItemService.KeptPairsOfEight(SearchParams(f));
    EntriesContribute(f);
  }

  /** Whether a parameter name is sent. */
  predicate Sends(pairs: seq<(string, string)>, name: string) {
    exists i :: 0 <= i < |pairs| && pairs[i].0 == name
  }

  /** A name is sent by a concatenation exactly when one of the two parts sends it. */
  lemma SendsConcat(a: seq<(string, string)>, b: seq<(string, string)>, name: string)
    ensures Sends(a + b, name) <==> Sends(a, name) || Sends(b, name)
  {
    if Sends(a + b, name) {
      var i :| 0 <= i < |a + b| && (a + b)[i].0 == name;
      if i >= |a| {
        assert b[i - |a|].0 == name;
      }
    }
    if Sends(b, name) {
      var i :| 0 <= i < |b| && b[i].0 == name;
      assert (a + b)[|a| + i].0 == name;
    }
    if Sends(a, name) {
      var i :| 0 <= i < |a| && a[i].0 == name;
      assert (a + b)[i].0 == name;
    }
  }

  /** A name is sent exactly when one of the parts of the query sends it. */
  lemma SentByParts(f: Filters, name: string)
    ensures var head := [("page", Js.NumberToString(f.currentPage - 1)), ("size", "12")];
      Sends(SentPairs(f), name) <==>
        || Sends(head, name) || Sends(KeywordPair(f), name) || Sends(CategoryPair(f), name)
        || Sends(PricePairs(f), name) || Sends(SortPair(f), name) || Sends(FreePair(f), name)
  {
    var head := [("page", Js.NumberToString(f.currentPage - 1)), ("size", "12")];
    var s1 := head + KeywordPair(f);
    var s2 := s1 + CategoryPair(f);
    var s3 := s2 + PricePairs(f);
    var s4 := s3 + SortPair(f);
    SendsConcat(head, KeywordPair(f), name);
    SendsConcat(s1, CategoryPair(f), name);
    SendsConcat(s2, PricePairs(f), name);
    SendsConcat(s3, SortPair(f), name);
    SendsConcat(s4, FreePair(f), name);
  }

  /** Only the keyword part can send keyword, and it does when the search box is non-empty. */
  lemma KeywordSentBy(f: Filters)
    ensures var head := [("page", Js.NumberToString(f.currentPage - 1)), ("size", "12")];
      && !Sends(head, "keyword") && !Sends(CategoryPair(f), "keyword") && !Sends(PricePairs(f), "keyword")
      && !Sends(SortPair(f), "keyword") && !Sends(FreePair(f), "keyword")
      && (Sends(KeywordPair(f), "keyword") <==> f.keyword != "")
  {
    if f.keyword != "" {
      assert KeywordPair(f)[0].0 == "keyword";
    }
  }

  /** Only the category part can send categoryId, and it does for a non-zero category. */
  lemma CategorySentBy(f: Filters)
    ensures var head := [("page", Js.NumberToString(f.currentPage - 1)), ("size", "12")];
      && !Sends(head, "categoryId") && !Sends(KeywordPair(f), "categoryId") && !Sends(PricePairs(f), "categoryId")
      && !Sends(SortPair(f), "categoryId") && !Sends(FreePair(f), "categoryId")
      && (Sends(CategoryPair(f), "categoryId") <==> Js.NumTruthy(f.category))
  {
    if Js.NumTruthy(f.category) {
      assert CategoryPair(f)[0].0 == "categoryId";
    }
  }

  /** Only the free-only part can send isFree, and it does when free-only is ticked. */
  lemma FreeSentBy(f: Filters)
    ensures var head := [("page", Js.NumberToString(f.currentPage - 1)), ("size", "12")];
      && !Sends(head, "isFree") && !Sends(KeywordPair(f), "isFree") && !Sends(CategoryPair(f), "isFree")
      && !Sends(PricePairs(f), "isFree") && !Sends(SortPair(f), "isFree")
      && (Sends(FreePair(f), "isFree") <==> f.freeOnly)
  {
    if f.freeOnly {
      assert FreePair(f)[0].0 == "isFree";
    }
  }

  /** keyword is sent exactly when the search box is non-empty, categoryId exactly when a
      non-zero category is selected, and isFree exactly when free-only is ticked. */
  lemma SearchOptionalParams(f: Filters)
    ensures var sent := SentPairs(f);
      && (Sends(sent, "keyword") <==> f.keyword != "")
      && (Sends(sent, "categoryId") <==> Js.NumTruthy(f.category))
      && (Sends(sent, "isFree") <==> f.freeOnly)
  {
    SentByParts(f, "keyword");
    KeywordSentBy(f);
    SentByParts(f, "categoryId");
    CategorySentBy(f);
    SentByParts(f, "isFree");
    FreeSentBy(f);
  }

  /** The first two pairs are the page (0-based) and the page size 12; the price bounds are
      pinned to 0 for a free-only search and come from the slider otherwise. */
  lemma SearchFixedParams(f: Filters)
    ensures var sent := SentPairs(f);
      && |sent| >= 4
      && sent[0] == ("page", Js.NumberToString(f.currentPage - 1)) && sent[1] == ("size", "12")
      && (f.freeOnly ==> ("minPrice", "0") in sent && ("maxPrice", "0") in sent && ("isFree", "1") in sent)
      && (!f.freeOnly ==>
            ("minPrice", Js.NumberToString(f.priceRange.0)) in sent
            && ("maxPrice", Js.NumberToString(f.priceRange.1)) in sent)
  {
  }

  /** The pairs the initial filters send. */
  const InitialPairs := [("page", "0"), ("size", "12"), ("minPrice", "0"), ("maxPrice", "10000"), ("sortBy", "createdAt")]

  lemma InitialSentPairs()
    ensures SentPairs(InitialFilters) == InitialPairs
  {
    SmallNumbers();
    assert Js.NumberToString(10000) == "10000" by {
      assert Js.NatToString(10) == Js.NatToString(1) + [Js.DigitChar(0)];
      assert Js.NatToString(100) == Js.NatToString(10) + [Js.DigitChar(0)];
      assert Js.NatToString(1000) == Js.NatToString(100) + [Js.DigitChar(0)];
      assert Js.NatToString(10000) == Js.NatToString(1000) + [Js.DigitChar(0)];
    }
  }

  lemma InitialPieces()
    ensures ItemService.Pieces(InitialPairs) == ["page=0", "size=12", "minPrice=0", "maxPrice=10000", "sortBy=createdAt"]
  {
    ItemService.PiecesElements(InitialPairs);
    assert ItemService.PairText(("page", "0")) == "page=0";
    assert ItemService.PairText(("size", "12")) == "size=12";
    assert ItemService.PairText(("minPrice", "0")) == "minPrice=0";
    assert ItemService.PairText(("maxPrice", "10000")) == "maxPrice=10000";
    assert ItemService.PairText(("sortBy", "createdAt")) == "sortBy=createdAt";
  }

  /** The initial filters ask for the first page, 12 items, prices 0..10000, newest first:
      the query is the `&`-join of these five pieces. */
  lemma InitialSearchQuery()
    ensures ItemService.KeptPairs(SearchParams(InitialFilters)) == InitialPairs
    ensures ItemService.Serialize(InitialPairs) ==
      Js.Join(["page=0", "size=12", "minPrice=0", "maxPrice=10000", "sortBy=createdAt"], '&')
  {
    SearchParamsSend(InitialFilters);
    InitialSentPairs();
    InitialPieces();
  }

  // ---------------------------------------------------------------------------
  // The favourite mutation

  /** The error handler's toast. */
  const FavoriteFailedToast := ToastError("收藏操作失败，请重试")

  /** The mutation function. No signed-in user means no call: the guard shows 请先登录 and
      rejects, and the rejection reaches the error handler, which shows its own toast. */
  function FavoriteRequest(currentUser: Option<User>, itemId: int, isFavorite: bool): (r: Result<FavoriteCall, seq<Toast>>)
    ensures currentUser.None? <==> r.Failure?
    ensures r.Failure? ==> r.error == [ToastError("请先登录"), FavoriteFailedToast]
    ensures r.Success? ==> r.value.userId == currentUser.value.id && r.value.itemId == itemId
    ensures r.Success? ==> (r.value.RemoveFavorite? <==> isFavorite)
  {
    match currentUser
    case None => Failure([ToastError("请先登录"), FavoriteFailedToast])
    case Some(u) => Success(if isFavorite then RemoveFavorite(u.id, itemId) else AddFavorite(u.id, itemId))
  }

  /** One cached entry after the optimistic update. */
  function PatchedItem(item: Item, itemId: int, isFavorite: bool): Item {
    if item.id == itemId then
      item.(favoriteCount := if isFavorite then item.favoriteCount - 1 else item.favoriteCount + 1)
    else item
  }

  /** The `content.map` of the success handler. */
  function FavoritePatch(content: seq<Item>, itemId: int, isFavorite: bool): (r: seq<Item>)
    ensures |r| == |content|
  {
    seq(|content|, i requires 0 <= i < |content| => PatchedItem(content[i], itemId, isFavorite))
  }

  /** The patch touches only the entries with the item's id, and in them only the count,
      which moves by one in the direction of the toggle. */
  lemma FavoritePatchEffect(content: seq<Item>, itemId: int, isFavorite: bool, i: int)
    requires 0 <= i < |content|
    ensures var r := FavoritePatch(content, itemId, isFavorite);
      && (content[i].id != itemId ==> r[i] == content[i])
      && (content[i].id == itemId ==>
            r[i] == content[i].(favoriteCount := r[i].favoriteCount)
            && r[i].favoriteCount == content[i].favoriteCount + (if isFavorite then -1 else 1))
  {
  }

  /** Favouriting then unfavouriting the same item restores the cached list. */
  lemma FavoritePatchUndo(content: seq<Item>, itemId: int)
    ensures FavoritePatch(FavoritePatch(content, itemId, false), itemId, true) == content
    ensures FavoritePatch(FavoritePatch(content, itemId, true), itemId, false) == content
  {
    var once := FavoritePatch(content, itemId, false);
    var twice := FavoritePatch(once, itemId, true);
    assert forall i | 0 <= i < |content| :: twice[i] == content[i];
    var once' := FavoritePatch(content, itemId, true);
    var twice' := FavoritePatch(once', itemId, false);
    assert forall i | 0 <= i < |content| :: twice'[i] == content[i];
  }

  /** The cached page response the item list is read from. */
  type ItemsCache = ApiResponse<Page<Item>>

  /** What the success handler does: an optional cache write and one toast. */
  datatype FavoriteEffect = FavoriteEffect(cacheWrite: Option<ItemsCache>, toast: Toast)

  /** The success handler. The cache is written only when the response reports success and a
      cached page exists (an empty page counts: an empty array is truthy); the write carries
      the patched content and leaves the rest of the cached response as it was. */
  function OnFavoriteSuccess(response: Option<ApiResponse<()>>, cache: Option<ItemsCache>,
                             itemId: int, isFavorite: bool): (r: FavoriteEffect)
    ensures r.cacheWrite.Some? <==>
      response.Some? && response.value.success && cache.Some? && cache.value.data.Some?
    ensures r.cacheWrite.Some? ==>
      var old_ := cache.value;
      var new_ := r.cacheWrite.value;
      && new_.data.Some?
      && new_ == old_.(data := new_.data)
      && new_.data.value == old_.data.value.(content := new_.data.value.content)
      && new_.data.value.content == FavoritePatch(old_.data.value.content, itemId, isFavorite)
    ensures response.Some? && response.value.success ==>
      r.toast == ToastSuccess(if isFavorite then "已取消收藏" else "收藏成功")
    ensures !(response.Some? && response.value.success) ==>
      r.toast == ToastError(Js.StrOr(if response.Some? then response.value.message else None, "操作失败"))
  {
    if response.Some? && response.value.success then
      var write :=
        if cache.Some? && cache.value.data.Some? then
          var page := cache.value.data.value;
          Some(cache.value.(data := Some(page.(content := FavoritePatch(page.content, itemId, isFavorite)))))
        else None;
      FavoriteEffect(write, ToastSuccess(if isFavorite then "已取消收藏" else "收藏成功"))
    else
      FavoriteEffect(None, ToastError(Js.StrOr(if response.Some? then response.value.message else None, "操作失败")))
  }

  // ---------------------------------------------------------------------------
  // The filter state and its handlers

  class HomePageState {
    var currentPage: int
    var searchKeyword: string
    var selectedCategory: Option<int>
    var priceRange: (int, int)
    var isFreeOnly: bool
    var sortBy: string
    var showFilters: bool

    function CurrentFilters(): Filters
      reads this
    {
      Filters(currentPage, searchKeyword, selectedCategory, priceRange, isFreeOnly, sortBy)
    }

    constructor ()
      ensures CurrentFilters() == InitialFilters && !showFilters
    {
      currentPage := 1;
      searchKeyword := "";
      selectedCategory := None;
      priceRange := DefaultPriceRange;
      isFreeOnly := false;
      sortBy := DefaultSortBy;
      showFilters := false;
    }

    /** handleSearch: back to page 1, every other filter kept. */
    method HandleSearch()
      modifies this
      ensures CurrentFilters() == old(CurrentFilters()).(currentPage := 1)
      ensures showFilters == old(showFilters)
    {
      currentPage := 1;
    }

    /** handleResetFilters: every filter back to its initial value. */
    method HandleResetFilters()
      modifies this
      ensures CurrentFilters() == InitialFilters
      ensures showFilters == old(showFilters)
    {
      searchKeyword := "";
      selectedCategory := None;
      priceRange := DefaultPriceRange;
      isFreeOnly := false;
      sortBy := DefaultSortBy;
      currentPage := 1;
    }
  }
}
