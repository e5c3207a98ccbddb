/** The item slice of the Redux store: a list of items, the item being viewed, request flags
    and pagination, updated in place by its reducers. */
module ItemStore {
  import opened Wrappers
  import Lists

  /** The slice's own item record (category and condition are display strings here). */
  datatype Item = Item(
    id: int,
    title: string,
    description: string,
    category: string,
    condition: string,
    price: Option<int>,
    status: int,
    images: seq<string>,
    userId: int,
    userNickname: Option<string>,
    createdAt: string,
    updatedAt: string)

  datatype Pagination = Pagination(page: int, size: int, total: int, totalPages: int)

  const InitialPagination := Pagination(0, 20, 0, 0)

  /** `items.findIndex(item => item.id === id)`, None for -1. */
  function FindIndex(items: seq<Item>, id: int): Option<nat> {
    Lists.IndexOfFirst(items, (it: Item) => it.id == id)
  }

  /** The list after updateItem(x): the first entry with x's id replaced by x. */
  function Updated(items: seq<Item>, x: Item): seq<Item> {
    match FindIndex(items, x.id)
    case None => items
    case Some(i) => items[i := x]
  }

  /** `items.filter(item => item.id !== id)`. */
  function Without(items: seq<Item>, id: int): seq<Item> {
    Lists.Filter(items, (it: Item) => it.id != id)
  }

  /** `currentItem?.id === id`: false when there is no current item. */
  predicate IsCurrent(current: Option<Item>, id: int) {
    current.Some? && current.value.id == id
  }

  class ItemSlice {
    var items: seq<Item>
    var currentItem: Option<Item>
    var loading: bool
    var error: Option<string>
    var pagination: Pagination

    constructor ()
      ensures items == [] && currentItem == None && !loading && error == None
      ensures pagination == InitialPagination
    {
      items := [];
      currentItem := None;
      loading := false;
      error := None;
      pagination := InitialPagination;
    }

    method SetLoading(value: bool)
      modifies this
      ensures loading == value
      ensures items == old(items) && currentItem == old(currentItem)
      ensures error == old(error) && pagination == old(pagination)
    {
      loading := value;
    }

    method SetItems(payload: seq<Item>)
      modifies this
      ensures items == payload && !loading && error == None
      ensures currentItem == old(currentItem) && pagination == old(pagination)
    {
      items := payload;
      loading := false;
      error := None;
    }

    method SetCurrentItem(payload: Option<Item>)
      modifies this
      ensures currentItem == payload && !loading && error == None
      ensures items == old(items) && pagination == old(pagination)
    {
      currentItem := payload;
      loading := false;
      error := None;
    }

    /** `unshift`: the new item goes in front. */
    method AddItem(payload: Item)
      modifies this
      ensures items == [payload] + old(items)
      ensures currentItem == old(currentItem) && loading == old(loading)
      ensures error == old(error) && pagination == old(pagination)
    {
      items := [payload] + items;
    }

    method UpdateItem(payload: Item)
      modifies this
      ensures items == Updated(old(items), payload)
      ensures currentItem == if IsCurrent(old(currentItem), payload.id) then Some(payload) else old(currentItem)
      ensures loading == old(loading) && error == old(error) && pagination == old(pagination)
    {
      var index := FindIndex(items, payload.id);
      if index.Some? {
        items := items[index.value := payload];
      }
      if IsCurrent(currentItem, payload.id) {
        currentItem := Some(payload);
      }
    }

    method RemoveItem(id: int)
      modifies this
      ensures items == Without(old(items), id)
      ensures currentItem == if IsCurrent(old(currentItem), id) then None else old(currentItem)
      ensures loading == old(loading) && error == old(error) && pagination == old(pagination)
    {
      items := Without(items, id);
      if IsCurrent(currentItem, id) {
        currentItem := None;
      }
    }

    method SetPagination(payload: Pagination)
      modifies this
      ensures pagination == payload
      ensures items == old(items) && currentItem == old(currentItem)
      ensures loading == old(loading) && error == old(error)
    {
      pagination := payload;
    }

    method SetError(message: string)
      modifies this
      ensures error == Some(message) && !loading
      ensures items == old(items) && currentItem == old(currentItem) && pagination == old(pagination)
    {
      error := Some(message);
      loading := false;
    }

    method ClearError()
      modifies this
      ensures error == None
      ensures items == old(items) && currentItem == old(currentItem)
      ensures loading == old(loading) && pagination == old(pagination)
    {
      error := None;
    }
  }

  // ---------------------------------------------------------------------------
  // updateItem

  /** updateItem replaces the first entry with the payload's id and nothing else; with no
      such entry the list is unchanged. */
  lemma UpdatedReplacesFirst(items: seq<Item>, x: Item)
    ensures |Updated(items, x)| == |items|
    ensures (forall j :: 0 <= j < |items| ==> items[j].id != x.id) ==> Updated(items, x) == items
    ensures forall i :: 0 <= i < |items| && items[i].id == x.id && (forall j :: 0 <= j < i ==> items[j].id != x.id) ==>
      && Updated(items, x)[i] == x
      && forall j :: 0 <= j < |items| && j != i ==> Updated(items, x)[j] == items[j]
  {
  }

  /** Updating with the same record twice is updating once. */
  lemma UpdatedIdempotent(items: seq<Item>, x: Item)
    ensures Updated(Updated(items, x), x) == Updated(items, x)
  {
    var f := FindIndex(items, x.id);
    if f.Some? {
      var once := Updated(items, x);
      assert once[f.value] == x;
      assert forall j :: 0 <= j < f.value ==> once[j] == items[j];
      UpdatedReplacesFirst(once, x);
    }
  }

  /** The current item is replaced exactly when it is present and carries the payload's id. */
  lemma UpdateCurrentIff(current: Option<Item>, x: Item)
    ensures (if IsCurrent(current, x.id) then Some(x) else current) == Some(x) <==>
      (current == Some(x) || (current.Some? && current.value.id == x.id))
  {
  }

  // ---------------------------------------------------------------------------
  // removeItem and addItem

  /** removeItem leaves no entry with the id, keeps every other entry, and keeps their order. */
  lemma WithoutRemovesAll(items: seq<Item>, id: int)
    ensures forall k :: 0 <= k < |Without(items, id)| ==> Without(items, id)[k].id != id
    ensures forall x :: x in items && x.id != id ==> x in Without(items, id)
    ensures forall x :: x in Without(items, id) ==> x in items
    ensures Lists.IsSubsequence(Without(items, id), items)
  {
    forall x | x in items && x.id != id ensures x in Without(items, id) {
      Lists.FilterMembers(items, (it: Item) => it.id != id, x);
    }
    forall x | x in Without(items, id) ensures x in items {
      Lists.FilterMembers(items, (it: Item) => it.id != id, x);
    }
    Lists.FilterIsSubsequence(items, (it: Item) => it.id != id);
  }

  /** With no entry carrying the id, removeItem changes nothing. */
  lemma WithoutAbsent(items: seq<Item>, id: int)
    requires forall k :: 0 <= k < |items| ==> items[k].id != id
    ensures Without(items, id) == items
  {
    Lists.FilterAllKept(items, (it: Item) => it.id != id);
  }

  /** removeItem undoes addItem of a record whose id is not yet in the list. */
  lemma RemoveUndoesAdd(items: seq<Item>, x: Item)
    requires forall k :: 0 <= k < |items| ==> items[k].id != x.id
    ensures Without([x] + items, x.id) == items
  {
    Lists.FilterConcat([x], items, (it: Item) => it.id != x.id);
    WithoutAbsent(items, x.id);
  }

  /** After addItem(x), updateItem with x's id acts on the newly added front entry. */
  lemma UpdateAfterAdd(items: seq<Item>, x: Item, y: Item)
    requires y.id == x.id
    ensures Updated([x] + items, y) == [y] + items
  {
  }
}
