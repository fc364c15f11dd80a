/**
 * The chat-list state of the top-level component: the chats it shows, the
 * selected chat, the two text inputs and the configuration flag, and the
 * handlers that change them. Network results are parameters: whether the send
 * request succeeded, and the notification the poll returned (if any).
 */
module App {
  import opened Wrappers
  import opened JsString
  import opened Subsequence

  datatype MessageType = Outgoing | Incoming

  /** A message; `timestamp` is in milliseconds. */
  datatype Message = Message(kind: MessageType, text: string, timestamp: int)

  datatype Chat = Chat(number: string, messages: seq<Message>)

  /** The fields of a notification response the receive handler reads. */
  datatype Notification = Notification(sender: string, textMessage: string, timestamp: int)

  /** The body of the send request: the chat address and the text. */
  datatype SendRequest = SendRequest(chatId: string, message: string)

  // ---------------------------------------------------------------- the chat list

  /** No two chats share a number. */
  ghost predicate DistinctNumbers(chats: seq<Chat>)
  {
    forall i, j :: 0 <= i < j < |chats| ==> chats[i].number != chats[j].number
  }

  /** Whether the list holds a chat with this number (the lookup before creating a chat). */
  function HasChat(chats: seq<Chat>, number: string): (r: bool)
    ensures r <==> exists i :: 0 <= i < |chats| && chats[i].number == number
  {
    if chats == [] then false
    else if chats[0].number == number then true
    else
      assert forall i :: 1 <= i < |chats| ==> chats[1..][i - 1] == chats[i];
      HasChat(chats[1..], number)
  }

  /** How many chats carry `number`. */
  function CountNumber(chats: seq<Chat>, number: string): (k: nat)
    ensures k <= |chats|
    ensures k == 0 <==> !HasChat(chats, number)
  {
    if chats == [] then 0
    else (if chats[0].number == number then 1 else 0) + CountNumber(chats[1..], number)
  }

  /** The messages shown for `number`: those of the first chat that has it, or none. */
  function MessagesOf(chats: seq<Chat>, number: string): (ms: seq<Message>)
    ensures !HasChat(chats, number) ==> ms == []
    ensures HasChat(chats, number) ==>
      exists k :: 0 <= k < |chats| && chats[k].number == number && ms == chats[k].messages
                  && (forall j :: 0 <= j < k ==> chats[j].number != number)
  {
    if chats == [] then []
    else if chats[0].number == number then chats[0].messages
    else
      assert forall k :: 1 <= k < |chats| ==> chats[1..][k - 1] == chats[k];
      MessagesOf(chats[1..], number)
  }

  /** The total number of messages held by all chats. */
  function TotalMessages(chats: seq<Chat>): nat
  {
    if chats == [] then 0 else |chats[0].messages| + TotalMessages(chats[1..])
  }

  /** The list without the chats that have this number, the rest in their order. */
  function RemoveChats(chats: seq<Chat>, number: string): (r: seq<Chat>)
    ensures IsSubsequence(r, chats)
    ensures !HasChat(r, number)
    ensures |r| == |chats| - CountNumber(chats, number)
  {
    if chats == [] then []
    else
      var rest := RemoveChats(chats[1..], number);
      if chats[0].number == number then
        assert IsSubsequence(rest, chats[1..]);
        SubsequenceOfTail(rest, chats);
        rest
      else
        assert ([chats[0]] + rest)[1..] == rest;
        [chats[0]] + rest
  }

  /**
   * The list with `m` added at the end of the messages of every chat numbered
   * `number`; every other chat is left as it was.
   */
  function AppendMessage(chats: seq<Chat>, number: string, m: Message): (r: seq<Chat>)
    ensures |r| == |chats|
    ensures forall i :: 0 <= i < |r| ==> r[i].number == chats[i].number
    ensures forall i :: 0 <= i < |r| && chats[i].number != number ==> r[i] == chats[i]
    ensures forall i :: 0 <= i < |r| && chats[i].number == number ==> r[i].messages == chats[i].messages + [m]
  {
    if chats == [] then []
    else
      var c := chats[0];
      [if c.number == number then c.(messages := c.messages + [m]) else c]
        + AppendMessage(chats[1..], number, m)
  }

  /**
   * The updater of the receive handler: append `m` to the chat numbered
   * `number` if there is one, otherwise add a new chat holding just `m` at the end.
   */
  function Upsert(chats: seq<Chat>, number: string, m: Message): (r: seq<Chat>)
    ensures HasChat(r, number)
    ensures |r| == if HasChat(chats, number) then |chats| else |chats| + 1
    ensures forall i :: 0 <= i < |chats| ==> r[i].number == chats[i].number
    ensures !HasChat(chats, number) ==> r[..|chats|] == chats && r[|chats|] == Chat(number, [m])
  {
    if HasChat(chats, number) then AppendMessage(chats, number, m)
    else
      AppendChatEffect(chats, Chat(number, [m]), number);
      chats + [Chat(number, [m])]
  }

  /** The sender number: the sender address up to its first `@`. */
  function SenderNumber(sender: string): (r: string)
    ensures r <= sender && '@' !in r
    ensures |r| < |sender| ==> sender[|r|] == '@'
  {
    BeforeFirst(sender, '@')
  }

  /** The incoming message built from a notification; the feed's seconds become milliseconds. */
  function IncomingMessage(n: Notification): (m: Message)
    ensures m.kind == Incoming && m.text == n.textMessage
    ensures m.timestamp == n.timestamp * 1000
  {
    Message(Incoming, n.textMessage, n.timestamp * 1000)
  }

  // ---------------------------------------------------------------- lemmas

  /** Removing the chats numbered `number` keeps every other chat, and keeps numbers distinct. */
  lemma {:induction false} RemoveChatsKeeps(chats: seq<Chat>, number: string, other: string)
    ensures HasChat(RemoveChats(chats, number), other) <==> HasChat(chats, other) && other != number
    ensures DistinctNumbers(chats) ==> DistinctNumbers(RemoveChats(chats, number))
  {
    if chats != [] {
      RemoveChatsKeeps(chats[1..], number, other);
      var rest := RemoveChats(chats[1..], number);
      SubsequenceMembers(rest, chats[1..]);
      if chats[0].number != number {
        var r := RemoveChats(chats, number);
        assert r == [chats[0]] + rest;
        if DistinctNumbers(chats) {
          assert DistinctNumbers(chats[1..]);
          forall j | 0 < j < |r| ensures r[0].number != r[j].number {
            assert r[j] in rest;
            assert r[j] in chats[1..];
          }
        }
      } else {
        assert DistinctNumbers(chats) ==> DistinctNumbers(chats[1..]);
      }
    }
  }

  /** With distinct numbers there is at most one chat per number. */
  lemma {:induction false} DistinctCount(chats: seq<Chat>, number: string)
    requires DistinctNumbers(chats)
    ensures CountNumber(chats, number) <= 1
  {
    if chats != [] {
      assert DistinctNumbers(chats[1..]);
      DistinctCount(chats[1..], number);
      if chats[0].number == number {
        assert !HasChat(chats[1..], number) by {
          forall i | 0 <= i < |chats[1..]| ensures chats[1..][i].number != number {
            assert chats[1..][i] == chats[i + 1];
          }
        }
      }
    }
  }

  /**
   * Appending to chat `number` adds `m` at the end of that chat's shown messages,
   * leaves every other chat's messages alone, and adds one message per chat
   * numbered `number` to the total.
   */
  lemma {:induction false} AppendMessageEffect(chats: seq<Chat>, number: string, m: Message, other: string)
    ensures HasChat(chats, number) ==> MessagesOf(AppendMessage(chats, number, m), number) == MessagesOf(chats, number) + [m]
    ensures other != number ==> MessagesOf(AppendMessage(chats, number, m), other) == MessagesOf(chats, other)
    ensures TotalMessages(AppendMessage(chats, number, m)) == TotalMessages(chats) + CountNumber(chats, number)
    ensures HasChat(AppendMessage(chats, number, m), other) == HasChat(chats, other)
  {
    if chats != [] {
      AppendMessageEffect(chats[1..], number, m, other);
      var r := AppendMessage(chats, number, m);
      assert r[1..] == AppendMessage(chats[1..], number, m);
    }
  }

  /**
   * The receive updater: the chat numbered `number` (old or new) shows `m` as
   * its last message, every other chat is untouched, the list grows by at most
   * one chat, exactly one message is added and numbers stay distinct.
   */
  lemma UpsertEffect(chats: seq<Chat>, number: string, m: Message, other: string)
    requires DistinctNumbers(chats)
    ensures MessagesOf(Upsert(chats, number, m), number) == MessagesOf(chats, number) + [m]
    ensures other != number ==> MessagesOf(Upsert(chats, number, m), other) == MessagesOf(chats, other)
    ensures |chats| <= |Upsert(chats, number, m)| <= |chats| + 1
    ensures TotalMessages(Upsert(chats, number, m)) == TotalMessages(chats) + 1
    ensures HasChat(Upsert(chats, number, m), other) <==> HasChat(chats, other) || other == number
    ensures DistinctNumbers(Upsert(chats, number, m))
  {
    AppendMessageEffect(chats, number, m, other);
    if HasChat(chats, number) {
      DistinctCount(chats, number);
    } else {
      AppendChatEffect(chats, Chat(number, [m]), other);
    }
  }

  /** Adding a chat with a new number at the end of the list. */
  lemma {:induction false} AppendChatEffect(chats: seq<Chat>, c: Chat, other: string)
    requires !HasChat(chats, c.number)
    ensures MessagesOf(chats + [c], c.number) == c.messages
    ensures other != c.number ==> MessagesOf(chats + [c], other) == MessagesOf(chats, other)
    ensures TotalMessages(chats + [c]) == TotalMessages(chats) + |c.messages|
    ensures HasChat(chats + [c], other) <==> HasChat(chats, other) || other == c.number
    ensures DistinctNumbers(chats) ==> DistinctNumbers(chats + [c])
  {
    if chats != [] {
      AppendChatEffect(chats[1..], c, other);
      assert (chats + [c])[1..] == chats[1..] + [c];
    }
  }

  /** The same notification delivered twice is recorded twice: there is no deduplication. */
  lemma UpsertTwice(chats: seq<Chat>, number: string, m: Message)
    requires DistinctNumbers(chats)
    ensures MessagesOf(Upsert(Upsert(chats, number, m), number, m), number) == MessagesOf(chats, number) + [m, m]
    ensures TotalMessages(Upsert(Upsert(chats, number, m), number, m)) == TotalMessages(chats) + 2
  {
    UpsertEffect(chats, number, m, number);
    UpsertEffect(Upsert(chats, number, m), number, m, number);
  }

  // ---------------------------------------------------------------- the component state

  class App {
    var idInstance: string
    var apiTokenInstance: string
    var isConfigured: bool
    var chats: seq<Chat>
    var selectedChat: Option<string>
    var newNumber: string
    var message: string

    /** Chat numbers are distinct, and the selected chat, if any, is in the list. */
    ghost predicate Valid()
      reads this
    {
      DistinctNumbers(chats) && (selectedChat.Some? ==> HasChat(chats, selectedChat.value))
    }

    /** The initial state: nothing typed, not configured, no chats, nothing selected. */
    constructor ()
      ensures Valid()
      ensures idInstance == "" && apiTokenInstance == "" && !isConfigured
      ensures chats == [] && selectedChat == None && newNumber == "" && message == ""
    {
      idInstance, apiTokenInstance, isConfigured := "", "", false;
      chats, selectedChat, newNumber, message := [], None, "", "";
    }

    /** Submitting the configuration form: configured once both credentials are non-empty. */
    method HandleConfig()
      modifies this`isConfigured
      ensures isConfigured == (old(isConfigured) || (idInstance != "" && apiTokenInstance != ""))
    {
      if idInstance != "" && apiTokenInstance != "" {
        isConfigured := true;
      }
    }

    /**
     * Submitting the new-chat form. An empty number changes nothing; otherwise a
     * chat with that number is appended unless one exists, it becomes the
     * selection and the input is cleared.
     */
    method CreateNewChat()
      requires Valid()
      modifies this`chats, this`selectedChat, this`newNumber
      ensures Valid()
      ensures old(newNumber) == "" ==> chats == old(chats) && selectedChat == old(selectedChat) && newNumber == old(newNumber)
      ensures old(newNumber) != "" && !HasChat(old(chats), old(newNumber)) ==> chats == old(chats) + [Chat(old(newNumber), [])]
      ensures old(newNumber) != "" && HasChat(old(chats), old(newNumber)) ==> chats == old(chats)
      ensures old(newNumber) != "" ==> selectedChat == Some(old(newNumber)) && newNumber == ""
    {
      if newNumber != "" {
        if !HasChat(chats, newNumber) {
          AppendChatEffect(chats, Chat(newNumber, []), newNumber);
          chats := chats + [Chat(newNumber, [])];
        }
        selectedChat := Some(newNumber);
        newNumber := "";
      }
    }

    /** Clicking a chat in the list selects it. */
    method SelectChat(number: string)
      requires Valid() && HasChat(chats, number)
      modifies this`selectedChat
      ensures Valid() && selectedChat == Some(number)
    {
      selectedChat := Some(number);
    }

    /** Deleting every chat numbered `number`; the selection is dropped only if it was that chat. */
    method DeleteChat(number: string)
      requires Valid()
      modifies this`chats, this`selectedChat
      ensures Valid()
      ensures chats == RemoveChats(old(chats), number)
      ensures selectedChat == if old(selectedChat) == Some(number) then None else old(selectedChat)
    {
      if selectedChat.Some? {
        RemoveChatsKeeps(chats, number, selectedChat.value);
      } else {
        RemoveChatsKeeps(chats, number, number);
      }
      chats := RemoveChats(chats, number);
      if selectedChat == Some(number) {
        selectedChat := None;
      }
    }

    /**
     * Submitting the message form. With no selected chat (null or "") or an
     * empty message no request is made and nothing changes. Otherwise the
     * request goes out; if it succeeds an outgoing message stamped `now` is
     * appended to the selected chat and the input is cleared, and if it fails
     * nothing changes.
     */
    method SendMessage(sendSucceeded: bool, now: int) returns (request: Option<SendRequest>)
      requires Valid()
      modifies this`chats, this`message
      ensures Valid()
      ensures request.Some? <==> selectedChat.Some? && selectedChat.value != "" && old(message) != ""
      ensures request.Some? ==> request.value == SendRequest(selectedChat.value + "@c.us", old(message))
      ensures request.None? || !sendSucceeded ==> chats == old(chats) && message == old(message)
      ensures request.Some? && sendSucceeded ==>
        && chats == AppendMessage(old(chats), selectedChat.value, Message(Outgoing, old(message), now))
        && MessagesOf(chats, selectedChat.value) == MessagesOf(old(chats), selectedChat.value) + [Message(Outgoing, old(message), now)]
        && TotalMessages(chats) == TotalMessages(old(chats)) + 1
        && message == ""
    {
      if selectedChat.None? || selectedChat.value == "" || message == "" {
        return None;
      }
      var number := selectedChat.value;
      request := Some(SendRequest(number + "@c.us", message));
      if sendSucceeded {
        var m := Message(Outgoing, message, now);
        AppendMessageEffect(chats, number, m, number);
        DistinctCount(chats, number);
        chats := AppendMessage(chats, number, m);
        message := "";
      }
    }

    /**
     * Processing one poll response. No decoded message changes nothing;
     * otherwise the message is recorded against the sender's number.
     */
    method ReceiveNotification(response: Option<Notification>)
      requires Valid()
      modifies this`chats
      ensures Valid()
      ensures response.None? ==> chats == old(chats)
      ensures response.Some? ==> chats == Upsert(old(chats), SenderNumber(response.value.sender), IncomingMessage(response.value))
    {
      if response.Some? {
        var number := SenderNumber(response.value.sender);
        var m := IncomingMessage(response.value);
        UpsertEffect(chats, number, m, if selectedChat.Some? then selectedChat.value else number);
        chats := Upsert(chats, number, m);
      }
    }

    /** One tick of the poll timer, which runs only once the client is configured. */
    method PollTick(response: Option<Notification>)
      requires Valid()
      modifies this`chats
      ensures Valid()
      ensures !isConfigured || response.None? ==> chats == old(chats)
      ensures isConfigured && response.Some? ==> chats == Upsert(old(chats), SenderNumber(response.value.sender), IncomingMessage(response.value))
    {
      if isConfigured {
        ReceiveNotification(response);
      }
    }
  }
}
