/** The records the pages and services exchange with the backend, and the display rules
    shared by more than one view. Prices and counters are integers. */
module Types {
  import opened Wrappers
  import Js

  datatype User = User(
    id: int,
    username: string,
    email: string,
    nickname: Option<string>,
    avatar: Option<string>,
    status: int,
    createdAt: string,
    lastLoginAt: Option<string>)

  datatype Category = Category(id: int, name: string, parentId: int, sortOrder: int, status: int)

  datatype Image = Image(id: int, itemId: int, filePath: string, sortOrder: int)

  /** An item as the backend sends it. An absent image list is the empty sequence. */
  datatype Item = Item(
    id: int,
    title: string,
    description: Option<string>,
    categoryId: int,
    userId: int,
    conditionType: int,
    price: int,
    originalPrice: int,
    isFree: int,
    status: int,
    viewCount: int,
    favoriteCount: int,
    tags: Option<string>,
    category: Option<Category>,
    user: Option<User>,
    images: seq<Image>)

  /** The response envelope of every endpoint; `data` is None where the backend sends null. */
  datatype ApiResponse<T> = ApiResponse(success: bool, data: Option<T>, message: Option<string>, code: Option<int>)

  /** The page envelope of list endpoints. */
  datatype Page<T> = Page(content: seq<T>, totalElements: int, size: int, number: int, totalPages: int)

  datatype LoginRequest = LoginRequest(username: string, password: string)

  datatype LoginResponse = LoginResponse(token: string, user: User, expiresIn: Option<int>)

  datatype RegisterRequest = RegisterRequest(
    username: string,
    email: string,
    password: string,
    confirmPassword: string,
    nickname: Option<string>)

  /** The fields of an item-creation request that the publish form fills in. */
  datatype ItemCreateRequest = ItemCreateRequest(
    title: string,
    description: string,
    categoryId: int,
    conditionType: int,
    price: int,
    originalPrice: int,
    isFree: int,
    userId: int)

  /** A call of the favourites service: add or remove the pair (userId, itemId). */
  datatype FavoriteCall = AddFavorite(userId: int, itemId: int) | RemoveFavorite(userId: int, itemId: int)

  /** A transient notification raised with antd's `message`. */
  datatype Toast = ToastSuccess(text: string) | ToastError(text: string) | ToastWarning(text: string)

  datatype TagColor = Green | Blue | Orange

  /** The status codes of ItemStatus. */
  const StatusDeleted := 0
  const StatusPending := 1
  const StatusApproved := 2
  const StatusRejected := 3
  const StatusOffline := 4

  const NoDescription := "暂无描述"
  const Unknown := "未知"

  /** `user.nickname || user.username`: how an owner is named on cards and the detail page. */
  function DisplayName(u: User): (r: string)
    ensures Js.StrTruthy(u.nickname) ==> r == u.nickname.value
    ensures !Js.StrTruthy(u.nickname) ==> r == u.username
  {
    Js.StrOr(u.nickname, u.username)
  }

  /** `item.description || '暂无描述'`. */
  function DescriptionText(item: Item): (r: string)
    ensures r != ""
    ensures r == NoDescription || Some(r) == item.description
    ensures Js.StrTruthy(item.description) ==> r == item.description.value
  {
    Js.StrOr(item.description, NoDescription)
  }
}
