/** The item detail page: its label tables, the tag list, the thumbnail strip, the price
    block, the favourite toggle with its flag, and the contact-seller message. */
module ItemDetailPage {
  import opened Wrappers
  import opened Types
  import Js

  /** The condition labels of the detail page, for codes 1 to 5. */
  const ConditionLabels: seq<string> := ["全新", "几乎全新", "轻微使用痕迹", "明显使用痕迹", "需要维修"]

  /** The status labels of the detail page, for codes 1 to 4. */
  const StatusLabels: seq<string> := ["待审核", "在售", "审核拒绝", "已下架"]

  /** getConditionText: the object look-up with the `'未知'` fallback. */
  function ConditionText(conditionType: int): (r: string)
    ensures 1 <= conditionType <= 5 ==> r == ConditionLabels[conditionType - 1]
    ensures !(1 <= conditionType <= 5) ==> r == Unknown
  {
    match conditionType
    case 1 => "全新"
    case 2 => "几乎全新"
    case 3 => "轻微使用痕迹"
    case 4 => "明显使用痕迹"
    case 5 => "需要维修"
    case _ => Unknown
  }

  /** getStatusText: the object look-up with the `'未知'` fallback. */
  function StatusText(status: int): (r: string)
    ensures 1 <= status <= 4 ==> r == StatusLabels[status - 1]
    ensures !(1 <= status <= 4) ==> r == Unknown
  {
    match status
    case 1 => "待审核"
    case 2 => "在售"
    case 3 => "审核拒绝"
    case 4 => "已下架"
    case _ => Unknown
  }

  /** The labels are distinct and none is the fallback, so the text tells the code apart:
      the fallback shows exactly for codes outside the table, deleted items (status 0) and
      the create form's code 6 among them. */
  lemma LabelsIdentifyCodes(a: int, b: int)
    ensures ConditionText(a) == Unknown <==> !(1 <= a <= 5)
    ensures StatusText(a) == Unknown <==> !(1 <= a <= 4)
    ensures 1 <= a <= 5 && 1 <= b <= 5 && ConditionText(a) == ConditionText(b) ==> a == b
    ensures 1 <= a <= 4 && 1 <= b <= 4 && StatusText(a) == StatusText(b) ==> a == b
    ensures StatusText(StatusDeleted) == Unknown && ConditionText(6) == Unknown
  {
  }

  /** The status tag is green only for approved items. */
  function StatusColor(status: int): (r: TagColor)
    ensures r == Green <==> status == StatusApproved
    ensures r != Green ==> r == Orange
  {
    if status == StatusApproved then Green else Orange
  }

  /** The tag section: absent for an absent or empty string, otherwise the comma-separated
      pieces, each trimmed. */
  function TagLabels(tags: Option<string>): (r: Option<seq<string>>)
    ensures r.None? <==> !Js.StrTruthy(tags)
  {
    if Js.StrTruthy(tags) then
      var pieces := Js.Split(tags.value, ',');
      Some(seq(|pieces|, i requires 0 <= i < |pieces| => Js.Trim(pieces[i])))
    else None
  }

  /** A present tag string yields one tag per comma plus one, the k-th being the trimmed
      k-th piece, and the pieces put back together are the string. */
  lemma TagLabelsShape(tags: string)
    requires tags != ""
    ensures var r := TagLabels(Some(tags)); var pieces := Js.Split(tags, ',');
      && r.Some?
      && |r.value| == Js.Occurrences(tags, ',') + 1
      && (forall k :: 0 <= k < |r.value| ==> r.value[k] == Js.Trim(pieces[k]))
      && Js.Join(pieces, ',') == tags
  {
    Js.SplitCount(tags, ',');
    Js.JoinSplit(tags, ',');
  }

  /** No tag holds a comma or starts or ends with white space. */
  lemma TagLabelsAreClean(tags: string, k: int)
    requires tags != ""
    requires 0 <= k < |TagLabels(Some(tags)).value|
    ensures var t := TagLabels(Some(tags)).value[k];
      ',' !in t && (t != "" ==> !Js.IsWhiteSpace(t[0]) && !Js.IsWhiteSpace(t[|t| - 1]))
  {
    var piece := Js.Split(tags, ',')[k];
    assert TagLabels(Some(tags)).value[k] == Js.Trim(piece);
    Js.TrimExcludes(piece, ',');
    Js.TrimEndsClean(piece);
  }

  /** The main image: the first, when there is one. */
  function MainImage(images: seq<Image>): (r: Option<Image>)
    ensures r.None? <==> images == []
    ensures r.Some? ==> r.value == images[0]
  {
    if |images| > 0 then Some(images[0]) else None
  }

  /** The thumbnail strip: `images.slice(1, 5)`, shown only with more than one image. */
  function Thumbnails(images: seq<Image>): (r: seq<Image>)
    ensures |images| <= 1 ==> r == []
    ensures |images| > 1 ==> |r| == (if |images| < 5 then |images| - 1 else 4)
    ensures forall k :: 0 <= k < |r| ==> r[k] == images[k + 1]
  {
    if |images| > 1 then images[1..if |images| < 5 then |images| else 5] else []
  }

  /** Main image and thumbnails never show the same position twice and together cover the
      first min(5, n) images. */
  lemma ImagesShownInOrder(images: seq<Image>)
    requires |images| > 0
    ensures [MainImage(images).value] + Thumbnails(images) == images[..if |images| < 5 then |images| else 5]
  {
  }

  /** The large price: 免费 whenever isFree is truthy, otherwise ¥ and the price. */
  function PriceText(item: Item): (r: string)
    ensures item.isFree != 0 <==> r == "免费"
    ensures item.isFree == 0 ==> r == "¥" + Js.NumberToString(item.price)
  {
    if item.isFree != 0 then "免费"
    else
      var t := "¥" + Js.NumberToString(item.price);
      assert t[0] != "免费"[0];
      t
  }

  /** The struck-through original price is shown for a positive original price that differs
      from the asking price. */
  predicate ShowOriginalPrice(item: Item) {
    item.originalPrice > 0 && item.originalPrice != item.price
  }

  /** Items built by the create form never show a struck-through price, since the form copies
      the price into the original price. */
  lemma CreatedItemsShowNoOriginalPrice(item: Item)
    requires item.originalPrice == item.price
    ensures !ShowOriginalPrice(item)
  {
  }

  /** The seller's name: nickname when truthy, else username; nothing without a user. */
  function SellerName(item: Item): (r: Option<string>)
    ensures r.None? <==> item.user.None?
    ensures r.Some? ==> r.value == DisplayName(item.user.value)
  {
    match item.user
    case None => None
    case Some(u) => Some(DisplayName(u))
  }

  // ---------------------------------------------------------------------------
  // Favourite toggle

  /** The toggle's error callback, for a rejected call or the signed-out rejection. */
  const ToggleFailedToast := ToastError("操作失败")

  /** The toggle's mutation function: remove when favourited, add otherwise. Without a
      signed-in user it rejects, and the error callback shows its toast instead of any call. */
  function ToggleCall(currentUser: Option<User>, itemId: int, isFavorited: bool): (r: Result<FavoriteCall, Toast>)
    ensures r.Failure? <==> currentUser.None?
    ensures r.Failure? ==> r.error == ToggleFailedToast
    ensures r.Success? ==> r.value.userId == currentUser.value.id && r.value.itemId == itemId
    ensures r.Success? ==> (r.value.RemoveFavorite? <==> isFavorited)
  {
    match currentUser
    case None => Failure(ToggleFailedToast)
    case Some(u) => Success(if isFavorited then RemoveFavorite(u.id, itemId) else AddFavorite(u.id, itemId))
  }

  /** The flag after a toggle response: flipped on success, kept otherwise. */
  function FlagAfter(isFavorited: bool, response: ApiResponse<()>): (r: bool)
    ensures response.success ==> r != isFavorited
    ensures !response.success ==> r == isFavorited
  {
    if response.success then !isFavorited else isFavorited
  }

  /** Two successful toggles bring the flag back, and each successful toggle asks the service
      to undo what the previous one did. */
  lemma ToggleTwiceRestores(u: User, itemId: int, isFavorited: bool, first: ApiResponse<()>, second: ApiResponse<()>)
    requires first.success && second.success
    ensures FlagAfter(FlagAfter(isFavorited, first), second) == isFavorited
    ensures var c1 := ToggleCall(Some(u), itemId, isFavorited).value;
            var c2 := ToggleCall(Some(u), itemId, FlagAfter(isFavorited, first)).value;
            c1.AddFavorite? <==> c2.RemoveFavorite?
  {
  }

  /** Whether loading the item starts the favourite-status check. */
  predicate ChecksFavorite(response: ApiResponse<Item>, currentUser: Option<User>) {
    response.success && response.data.Some? && currentUser.Some?
  }

  /** The status check `favoriteService.check(userId, itemId)`. */
  datatype CheckCall = CheckCall(userId: int, itemId: int)

  /** The item query's success callback: the check it starts, for the signed-in user and the
      item id taken from the route, or none. */
  function OnItemLoaded(response: ApiResponse<Item>, currentUser: Option<User>, routeId: int): (r: Option<CheckCall>)
    ensures r.Some? <==> ChecksFavorite(response, currentUser)
    ensures r.Some? ==> r.value == CheckCall(currentUser.value.id, routeId)
  {
    if !response.success || response.data.None? then None
    else match currentUser
      case None => None
      case Some(u) => Some(CheckCall(u.id, routeId))
  }

  /** A failed load, an empty payload or a signed-out visitor starts no check, so the flag
      keeps its initial false. */
  lemma NoCheckWithoutUserOrItem(response: ApiResponse<Item>, currentUser: Option<User>, routeId: int)
    ensures currentUser.None? ==> OnItemLoaded(response, currentUser, routeId).None?
    ensures !response.success ==> OnItemLoaded(response, currentUser, routeId).None?
    ensures response.data.None? ==> OnItemLoaded(response, currentUser, routeId).None?
  {
  }

  /** The page's favourite flag. */
  class FavoriteState {
    var isFavorited: bool

    constructor ()
      ensures !isFavorited
    {
      isFavorited := false;
    }

    /** The status check's callback: a successful check with data sets the flag. */
    method OnCheck(response: ApiResponse<bool>)
      modifies this
      ensures response.success && response.data.Some? ==> isFavorited == response.data.value
      ensures !(response.success && response.data.Some?) ==> isFavorited == old(isFavorited)
    {
      if response.success && response.data.Some? {
        isFavorited := response.data.value;
      }
    }

    /** The toggle's success callback: the flag flips on success, and the toast speaks of
        the state before the flip. */
    method OnToggleResponse(response: ApiResponse<()>) returns (toast: Toast)
      modifies this
      ensures isFavorited == FlagAfter(old(isFavorited), response)
      ensures response.success ==> toast == ToastSuccess(if old(isFavorited) then "已取消收藏" else "已添加到收藏")
      ensures !response.success ==> toast == ToastError(Js.StrOr(response.message, "操作失败"))
    {
      if response.success {
        toast := ToastSuccess(if isFavorited then "已取消收藏" else "已添加到收藏");
        isFavorited := !isFavorited;
      } else {
        toast := ToastError(Js.StrOr(response.message, "操作失败"));
      }
    }
  }


  // ---------------------------------------------------------------------------
  // Contact seller

  /** The message handed to the message service. */
  datatype MessageDraft = MessageDraft(receiverId: int, content: string, itemId: int)

  const ContactPrefix := "你好，我对\""
  const ContactSuffix := "\"很感兴趣，请问还在线吗？"

  /** handleContactSeller: nothing without a loaded item; otherwise a message to the owner
      about this item, its text embedding the title. */
  function ContactSeller(item: Option<Item>): (r: Option<MessageDraft>)
    ensures r.None? <==> item.None?
    ensures r.Some? ==> r.value.receiverId == item.value.userId && r.value.itemId == item.value.id
    ensures r.Some? ==> |r.value.content| == |ContactPrefix| + |item.value.title| + |ContactSuffix|
  {
    match item
    case None => None
    case Some(it) => Some(MessageDraft(it.userId, ContactPrefix + it.title + ContactSuffix, it.id))
  }

  /** The title can be read back from the message text, so different titles give different
      messages. */
  lemma ContactMessageNamesTitle(item: Item)
    ensures var c := ContactSeller(Some(item)).value.content;
      && c[..|ContactPrefix|] == ContactPrefix
      && c[|c| - |ContactSuffix|..] == ContactSuffix
      && c[|ContactPrefix|..|c| - |ContactSuffix|] == item.title
  {
    var c := ContactPrefix + item.title + ContactSuffix;
    assert c[..|ContactPrefix|] == ContactPrefix;
    assert c[|c| - |ContactSuffix|..] == ContactSuffix;
    assert c[|ContactPrefix|..|c| - |ContactSuffix|] == item.title;
  }
}
