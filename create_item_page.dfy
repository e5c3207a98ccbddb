/** The create-item page: the form's option lists, the name-to-id tables, the mapping of a
    submitted form to a create request, and the reactions to the create call. */
module CreateItemPage {
  import opened Wrappers
  import opened Types
  import Js

  /** The category select's options, in display order. */
  const Categories: seq<string> := ["电子产品", "服装配饰", "家居用品", "图书文具", "运动器材", "其他"]

  /** The condition select's options, in display order. */
  const Conditions: seq<string> := ["全新", "九成新", "八成新", "七成新", "六成新", "五成新及以下"]

  const CategoryTable: map<string, int> :=
    map["电子产品" := 1, "服装配饰" := 2, "家居用品" := 3, "图书文具" := 4, "运动器材" := 5, "其他" := 6]

  const ConditionTable: map<string, int> :=
    map["全新" := 1, "九成新" := 2, "八成新" := 3, "七成新" := 4, "六成新" := 5, "五成新及以下" := 6]

  /** The id written for a category name that is not in the table, "其他". */
  const FallbackCategoryId := 6

  /** The code written for a condition name that is not in the table, "九成新". */
  const FallbackConditionType := 2

  /** The form's initial selections. */
  const InitialCategory := "其他"
  const InitialCondition := "九成新"

  /** `categoryMap[name] || 6`. */
  function CategoryId(name: string): (r: int)
    ensures name in CategoryTable ==> r == CategoryTable[name]
    ensures name !in CategoryTable ==> r == FallbackCategoryId
    ensures 1 <= r <= 6
  {
    Js.NumOr(if name in CategoryTable then Some(CategoryTable[name]) else None, FallbackCategoryId)
  }

  /** `conditionMap[name] || 2`. */
  function ConditionType(name: string): (r: int)
    ensures name in ConditionTable ==> r == ConditionTable[name]
    ensures name !in ConditionTable ==> r == FallbackConditionType
    ensures 1 <= r <= 6
  {
    Js.NumOr(if name in ConditionTable then Some(ConditionTable[name]) else None, FallbackConditionType)
  }

  /** Every option the selects offer is a key of its table, and the k-th option maps to k+1:
      a selected value never falls back, and distinct options give distinct ids. */
  lemma OptionsAreKeys()
    ensures forall i :: 0 <= i < |Categories| ==> Categories[i] in CategoryTable && CategoryId(Categories[i]) == i + 1
    ensures forall i :: 0 <= i < |Conditions| ==> Conditions[i] in ConditionTable && ConditionType(Conditions[i]) == i + 1
    ensures forall name :: name in CategoryTable ==> name in Categories
    ensures forall name :: name in ConditionTable ==> name in Conditions
  {
    assert Categories[0] in CategoryTable;
    assert Conditions[0] in ConditionTable;
  }

  /** The initial selections map to the fallback values, so an untouched select and an
      unknown name produce the same request. */
  lemma InitialSelectionsAreFallbacks(unknownCategory: string, unknownCondition: string)
    requires unknownCategory !in CategoryTable && unknownCondition !in ConditionTable
    ensures CategoryId(InitialCategory) == CategoryId(unknownCategory) == FallbackCategoryId
    ensures ConditionType(InitialCondition) == ConditionType(unknownCondition) == FallbackConditionType
  {
  }

  /** The submitted form values. */
  datatype FormData = FormData(
    title: string,
    description: string,
    categoryName: string,
    conditionName: string,
    price: Option<int>)

  /** What submitting the form does: go to the login page with an error, or send a request. */
  datatype Submission = RedirectToLogin(toast: Toast, route: string) | Submit(request: ItemCreateRequest)

  /** onFinish. Without a signed-in user with a truthy id nothing is sent; otherwise the
      request copies title, description and the user id, maps the two names, takes the price
      (0 when absent or 0) as both price and original price, and marks a zero price free. */
  function OnFinish(currentUser: Option<User>, values: FormData): (r: Submission)
    ensures r.RedirectToLogin? <==> currentUser.None? || currentUser.value.id == 0
    ensures r.RedirectToLogin? ==> r.route == "/login" && r.toast == ToastError("用户未登录，请先登录")
    ensures r.Submit? ==>
      var q := r.request;
      && q.userId == currentUser.value.id
      && q.title == values.title && q.description == values.description
      && q.categoryId == CategoryId(values.categoryName)
      && q.conditionType == ConditionType(values.conditionName)
      && q.price == q.originalPrice
      && (q.isFree == 1 <==> q.price == 0)
      && (q.isFree == 0 <==> q.price != 0)
      && (Js.NumTruthy(values.price) ==> q.price == values.price.value)
      && (!Js.NumTruthy(values.price) ==> q.price == 0)
  {
    if !Js.NumTruthy(if currentUser.Some? then Some(currentUser.value.id) else None) then
      RedirectToLogin(ToastError("用户未登录，请先登录"), "/login")
    else
      var price := Js.NumOr(values.price, 0);
      Submit(ItemCreateRequest(
        title := values.title,
        description := values.description,
        categoryId := CategoryId(values.categoryName),
        conditionType := ConditionType(values.conditionName),
        price := price,
        originalPrice := price,
        isFree := if Js.NumTruthy(values.price) then 0 else 1,
        userId := currentUser.value.id))
  }

  /** A form submitted from the select options never hits a fallback: the request's ids are
      exactly the options' positions plus one. */
  lemma SelectedOptionsMapExactly(currentUser: Option<User>, values: FormData, i: int, j: int)
    requires 0 <= i < |Categories| && 0 <= j < |Conditions|
    requires values.categoryName == Categories[i] && values.conditionName == Conditions[j]
    requires currentUser.Some? && currentUser.value.id != 0
    ensures OnFinish(currentUser, values).Submit?
    ensures OnFinish(currentUser, values).request.categoryId == i + 1
    ensures OnFinish(currentUser, values).request.conditionType == j + 1
  {
    OptionsAreKeys();
  }

  /** The page's guard on entry: without authentication, a warning and the login route. */
  function EntryGuard(isAuthenticated: bool): (r: Option<(Toast, string)>)
    ensures r.None? <==> isAuthenticated
    ensures r.Some? ==> r.value == (ToastWarning("请先登录后再发布物品"), "/login")
  {
    if isAuthenticated then None else Some((ToastWarning("请先登录后再发布物品"), "/login"))
  }

  /** The reaction to a create response: success goes home with a toast; anything else
      shows the server's message or the default text and stays. */
  function OnCreateResponse(response: Option<ApiResponse<Item>>): (r: (Toast, Option<string>))
    ensures (response.Some? && response.value.success) <==> r.1 == Some("/")
    ensures r.1.Some? ==> r.0 == ToastSuccess("物品发布成功！")
    ensures r.1.None? ==> r.0 == ToastError(Js.StrOr(if response.Some? then response.value.message else None, "发布失败，请重试"))
  {
    if response.Some? && response.value.success then (ToastSuccess("物品发布成功！"), Some("/"))
    else (ToastError(Js.StrOr(if response.Some? then response.value.message else None, "发布失败，请重试")), None)
  }

  /** The reaction to a failed create call: the server's message from the error response, or
      the default text. */
  function OnCreateError(serverMessage: Option<string>): (r: Toast)
    ensures Js.StrTruthy(serverMessage) ==> r == ToastError(serverMessage.value)
    ensures !Js.StrTruthy(serverMessage) ==> r == ToastError("发布失败，请重试")
  {
    ToastError(Js.StrOr(serverMessage, "发布失败，请重试"))
  }
}
