/** The item card of the listing pages: price and condition formatting and the guards on
    the favourite action and the owner name. */
module ItemCard {
  import opened Wrappers
  import opened Types
  import Js
  import CreateItemPage
  import ItemDetailPage

  /** The card's condition labels, for codes 1 to 5. */
  const ConditionLabels: seq<string> := ["全新", "九成新", "八成新", "七成新", "六成新及以下"]

  /** formatPrice: 免费 only for isFree exactly 1, otherwise ¥ and the price. */
  function FormatPrice(price: int, isFree: int): (r: string)
    ensures r == "免费" <==> isFree == 1
    ensures isFree != 1 ==> r == "¥" + Js.NumberToString(price)
  {
    if isFree == 1 then "免费"
    else
      var t := "¥" + Js.NumberToString(price);
      assert t[0] != "免费"[0];
      t
  }

  /** formatCondition: the object look-up with the `'未知'` fallback. */
  function FormatCondition(conditionType: int): (r: string)
    ensures 1 <= conditionType <= 5 ==> r == ConditionLabels[conditionType - 1]
    ensures !(1 <= conditionType <= 5) ==> r == Unknown
  {
    match conditionType
    case 1 => "全新"
    case 2 => "九成新"
    case 3 => "八成新"
    case 4 => "七成新"
    case 5 => "六成新及以下"
    case _ => Unknown
  }

  /** The price tag is green exactly when the price reads 免费, blue otherwise. */
  function PriceTagColor(isFree: int): (r: TagColor)
    ensures r == Green <==> FormatPrice(0, isFree) == "免费"
    ensures r != Green ==> r == Blue
  {
    if isFree == 1 then Green else Blue
  }

  /** The card's favourite action: present only when showFavorite holds (default true) and a
      handler is supplied; clicking it hands the handler the item's id. */
  function FavoriteAction(item: Item, hasHandler: bool, showFavorite: bool := true): (r: Option<int>)
    ensures r.Some? <==> showFavorite && hasHandler
    ensures r.Some? ==> r.value == item.id
  {
    if showFavorite && hasHandler then Some(item.id) else None
  }

  /** The owner line: shown only when showOwner holds (default true) and the item has a user;
      nickname when truthy, else username. */
  function OwnerLabel(item: Item, showOwner: bool := true): (r: Option<string>)
    ensures r.Some? <==> showOwner && item.user.Some?
    ensures r.Some? && Js.StrTruthy(item.user.value.nickname) ==> r.value == item.user.value.nickname.value
    ensures r.Some? && !Js.StrTruthy(item.user.value.nickname) ==> r.value == item.user.value.username
  {
    if showOwner && item.user.Some? then Some(DisplayName(item.user.value)) else None
  }

  /** The cover image: the first image's path, or the placeholder icon. */
  function CoverImage(item: Item): (r: Option<string>)
    ensures r.None? <==> item.images == []
    ensures r.Some? ==> r.value == item.images[0].filePath
  {
    if |item.images| > 0 then Some(item.images[0].filePath) else None
  }

  /** The card's description falls back to 暂无描述 exactly when the description is absent or
      empty. */
  lemma CardDescription(item: Item)
    ensures DescriptionText(item) == NoDescription <==> (!Js.StrTruthy(item.description) || item.description.value == NoDescription)
  {
  }

  /** What the card shows for the conditions the create form can send: the first four read back
      as the name chosen, 六成新 reads 六成新及以下, and 五成新及以下 (code 6) reads 未知. */
  lemma CreatedConditionsOnCard()
    ensures forall i :: 0 <= i < 4 ==>
      FormatCondition(CreateItemPage.ConditionType(CreateItemPage.Conditions[i])) == CreateItemPage.Conditions[i]
    ensures FormatCondition(CreateItemPage.ConditionType("六成新")) == "六成新及以下"
    ensures FormatCondition(CreateItemPage.ConditionType("五成新及以下")) == Unknown
  {
    CreateItemPage.OptionsAreKeys();
  }

  /** Card and detail page agree on the price text for the isFree values the create form
      writes (0 and 1), and only there: any other non-zero isFree shows 免费 on the detail
      page but a price on the card. */
  lemma CardAndDetailPrices(item: Item)
    ensures (item.isFree == 0 || item.isFree == 1) ==>
      FormatPrice(item.price, item.isFree) == ItemDetailPage.PriceText(item)
    ensures !(item.isFree == 0 || item.isFree == 1) ==>
      FormatPrice(item.price, item.isFree) != ItemDetailPage.PriceText(item)
  {
  }
}
