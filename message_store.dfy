/** The message slice of the Redux store: the inbox list, an unread counter and the
    request flags, updated in place by its reducers. */
module MessageStore {
  import opened Wrappers
  import Lists

  /** The slice's own message record (its read flag is a boolean). */
  datatype Message = Message(
    id: int,
    senderId: int,
    receiverId: int,
    content: string,
    messageType: string,
    isRead: bool,
    createdAt: string,
    senderNickname: Option<string>,
    receiverNickname: Option<string>)

  function Max(a: int, b: int): int {
    if a >= b then a else b
  }

  /** The message `messages.find(msg => msg.id === id)` stops at. */
  function FindById(messages: seq<Message>, id: int): Option<nat> {
    Lists.IndexOfFirst(messages, (m: Message) => m.id == id)
  }

  /** markAsRead(id) acts exactly when the first message with `id` exists and is unread. */
  predicate MarksSomething(messages: seq<Message>, id: int) {
    var i := FindById(messages, id);
    i.Some? && !messages[i.value].isRead
  }

  /** The list after markAsRead(id). */
  function MarkedRead(messages: seq<Message>, id: int): seq<Message> {
    if MarksSomething(messages, id) then
      var i := FindById(messages, id).value;
      messages[i := messages[i].(isRead := true)]
    else messages
  }

  /** The unread counter after markAsRead(id). */
  function CountAfterMark(messages: seq<Message>, count: int, id: int): int {
    if MarksSomething(messages, id) then Max(0, count - 1) else count
  }

  /** The list after markAllAsRead. */
  function AllMarkedRead(messages: seq<Message>): seq<Message> {
    seq(|messages|, k requires 0 <= k < |messages| => messages[k].(isRead := true))
  }

  /** The number of unread messages in a list (the reducers never compute it). */
  function UnreadIn(messages: seq<Message>): nat {
    if messages == [] then 0
    else (if messages[0].isRead then 0 else 1) + UnreadIn(messages[1..])
  }

  class MessageSlice {
    var messages: seq<Message>
    var unreadCount: int
    var loading: bool
    var error: Option<string>
    var currentConversation: seq<Message>

    /** The counter agrees with the list. The reducers do not keep this in general (setMessages
        and setUnreadCount may break it); see the lemmas below for the ones that do. */
    ghost predicate CounterInSync()
      reads this
    {
      unreadCount == UnreadIn(messages)
    }

    constructor ()
      ensures messages == [] && unreadCount == 0 && !loading && error == None && currentConversation == []
      ensures CounterInSync()
    {
      messages := [];
      unreadCount := 0;
      loading := false;
      error := None;
      currentConversation := [];
    }

    method SetLoading(value: bool)
      modifies this
      ensures loading == value
      ensures messages == old(messages) && unreadCount == old(unreadCount)
      ensures error == old(error) && currentConversation == old(currentConversation)
    {
      loading := value;
    }

    /** Replaces the list; the counter and the conversation are left as they were. */
    method SetMessages(payload: seq<Message>)
      modifies this
      ensures messages == payload && !loading && error == None
      ensures unreadCount == old(unreadCount) && currentConversation == old(currentConversation)
    {
      messages := payload;
      loading := false;
      error := None;
    }

    /** Appends; the counter rises by one exactly when the new message is unread. */
    method AddMessage(payload: Message)
      modifies this
      ensures messages == old(messages) + [payload]
      ensures unreadCount == old(unreadCount) + (if payload.isRead then 0 else 1)
      ensures loading == old(loading) && error == old(error)
      ensures currentConversation == old(currentConversation)
      ensures old(CounterInSync()) ==> CounterInSync()
    {
      messages := messages + [payload];
      if !payload.isRead {
        unreadCount := unreadCount + 1;
      }
      UnreadAppend(old(messages), payload);
    }

    method SetCurrentConversation(payload: seq<Message>)
      modifies this
      ensures currentConversation == payload
      ensures messages == old(messages) && unreadCount == old(unreadCount)
      ensures loading == old(loading) && error == old(error)
    {
      currentConversation := payload;
    }

    method MarkAsRead(id: int)
      modifies this
      ensures messages == MarkedRead(old(messages), id)
      ensures unreadCount == CountAfterMark(old(messages), old(unreadCount), id)
      ensures loading == old(loading) && error == old(error)
      ensures currentConversation == old(currentConversation)
      ensures old(CounterInSync()) ==> CounterInSync()
    {
      var found := FindById(messages, id);
      if found.Some? && !messages[found.value].isRead {
        messages := messages[found.value := messages[found.value].(isRead := true)];
        unreadCount := Max(0, unreadCount - 1);
      }
      MarkReadKeepsCounterInSync(old(messages), old(unreadCount), id);
    }

    /** The `forEach` over the list, flipping each flag in place, then the counter reset. */
    method MarkAllAsRead()
      modifies this
      ensures messages == AllMarkedRead(old(messages))
      ensures unreadCount == 0
      ensures loading == old(loading) && error == old(error)
      ensures currentConversation == old(currentConversation)
      ensures CounterInSync()
    {
      var i := 0;
      while i < |messages|
        invariant 0 <= i <= |messages| == |old(messages)|
        invariant forall k :: 0 <= k < i ==> messages[k] == old(messages)[k].(isRead := true)
        invariant forall k :: i <= k < |messages| ==> messages[k] == old(messages)[k]
        invariant unreadCount == old(unreadCount) && loading == old(loading) && error == old(error)
        invariant currentConversation == old(currentConversation)
      {
        messages := messages[i := messages[i].(isRead := true)];
        i := i + 1;
      }
      unreadCount := 0;
      AllMarkedReadHasNoUnread(old(messages));
    }

    /** Stores the payload as is, negative values included. */
    method SetUnreadCount(value: int)
      modifies this
      ensures unreadCount == value
      ensures messages == old(messages) && loading == old(loading) && error == old(error)
      ensures currentConversation == old(currentConversation)
    {
      unreadCount := value;
    }

    method SetError(message: string)
      modifies this
      ensures error == Some(message) && !loading
      ensures messages == old(messages) && unreadCount == old(unreadCount)
      ensures currentConversation == old(currentConversation)
    {
      error := Some(message);
      loading := false;
    }

    method ClearError()
      modifies this
      ensures error == None
      ensures messages == old(messages) && unreadCount == old(unreadCount) && loading == old(loading)
      ensures currentConversation == old(currentConversation)
    {
      error := None;
    }
  }

  // ---------------------------------------------------------------------------
  // markAsRead

  /** markAsRead touches only the first message with the id, and only its read flag. */
  lemma MarkedReadOnlyFirst(messages: seq<Message>, id: int)
    ensures |MarkedRead(messages, id)| == |messages|
    ensures MarksSomething(messages, id) ==>
      var i := FindById(messages, id).value;
      && messages[i].id == id
      && (forall j :: 0 <= j < i ==> messages[j].id != id)
      && MarkedRead(messages, id)[i] == messages[i].(isRead := true)
      && (forall j :: 0 <= j < |messages| && j != i ==> MarkedRead(messages, id)[j] == messages[j])
  {
  }

  /** With no message carrying the id, or a first match already read, nothing changes. */
  lemma MarkReadNoop(messages: seq<Message>, count: int, id: int)
    requires (forall j :: 0 <= j < |messages| ==> messages[j].id != id)
          || (exists i :: 0 <= i < |messages| && messages[i].id == id && messages[i].isRead
                && forall j :: 0 <= j < i ==> messages[j].id != id)
    ensures MarkedRead(messages, id) == messages
    ensures CountAfterMark(messages, count, id) == count
  {
  }

  /** Marking the same id twice is marking it once, for the list and for the counter. */
  lemma MarkReadIdempotent(messages: seq<Message>, count: int, id: int)
    ensures MarkedRead(MarkedRead(messages, id), id) == MarkedRead(messages, id)
    ensures CountAfterMark(MarkedRead(messages, id), CountAfterMark(messages, count, id), id)
         == CountAfterMark(messages, count, id)
  {
    var once := MarkedRead(messages, id);
    if MarksSomething(messages, id) {
      var i := FindById(messages, id).value;
      MarkedReadOnlyFirst(messages, id);
      assert once[i].id == id && once[i].isRead;
      assert forall j :: 0 <= j < i ==> once[j].id != id;
      MarkReadNoop(once, CountAfterMark(messages, count, id), id);
    }
  }

  /** When markAsRead acts, the counter ends non-negative and one lower, clamped at zero,
      whatever it was before. */
  lemma MarkReadCounterClamped(messages: seq<Message>, count: int, id: int)
    requires MarksSomething(messages, id)
    ensures CountAfterMark(messages, count, id) >= 0
    ensures count >= 1 ==> CountAfterMark(messages, count, id) == count - 1
    ensures count <= 0 ==> CountAfterMark(messages, count, id) == 0
  {
  }

  // ---------------------------------------------------------------------------
  // markAllAsRead

  lemma AllMarkedReadShape(messages: seq<Message>)
    ensures |AllMarkedRead(messages)| == |messages|
    ensures forall k :: 0 <= k < |messages| ==> AllMarkedRead(messages)[k].isRead
    ensures forall k :: 0 <= k < |messages| ==>
      AllMarkedRead(messages)[k] == messages[k].(isRead := true)
  {
  }

  lemma AllMarkedReadIdempotent(messages: seq<Message>)
    ensures AllMarkedRead(AllMarkedRead(messages)) == AllMarkedRead(messages)
  {
  }

  lemma {:induction false} AllMarkedReadHasNoUnread(messages: seq<Message>)
    ensures UnreadIn(AllMarkedRead(messages)) == 0
  {
    if messages != [] {
      AllMarkedReadHasNoUnread(messages[1..]);
      assert AllMarkedRead(messages)[1..] == AllMarkedRead(messages[1..]);
    }
  }

  // ---------------------------------------------------------------------------
  // The counter kept in step with the list

  lemma {:induction false} UnreadAppend(messages: seq<Message>, m: Message)
    ensures UnreadIn(messages + [m]) == UnreadIn(messages) + (if m.isRead then 0 else 1)
  {
    if messages == [] {
      assert messages + [m] == [m];
    } else {
      UnreadAppend(messages[1..], m);
      assert (messages + [m])[1..] == messages[1..] + [m];
    }
  }

  lemma {:induction false} UnreadAfterRead(messages: seq<Message>, i: nat)
    requires i < |messages| && !messages[i].isRead
    ensures UnreadIn(messages[i := messages[i].(isRead := true)]) == UnreadIn(messages) - 1
  {
    if i > 0 {
      UnreadAfterRead(messages[1..], i - 1);
      assert messages[i := messages[i].(isRead := true)][1..]
          == messages[1..][i - 1 := messages[i].(isRead := true)];
    }
  }

  /** A counter in step with the list stays in step through markAsRead. */
  lemma MarkReadKeepsCounterInSync(messages: seq<Message>, count: int, id: int)
    ensures count == UnreadIn(messages) ==>
      CountAfterMark(messages, count, id) == UnreadIn(MarkedRead(messages, id))
  {
    if MarksSomething(messages, id) {
      var i := FindById(messages, id).value;
      UnreadAfterRead(messages, i);
    }
  }
}
