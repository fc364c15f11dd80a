# green-api chat client: state model

A Dafny model of the state-changing core of a small WhatsApp client built on
the GREEN-API messaging service. Three React components hold the logic:

- `App` keeps the chat list (`chats`, each a number and its messages), the
  selected chat, the two text inputs (`newNumber`, `message`) and the
  configuration flag. Its handlers configure the client, create and delete
  chats, record an outgoing message after a successful send, and record an
  incoming message from a polled notification, creating the chat if needed.
  Modelled as the class `App.App`; the list updaters (`find`, `filter`,
  `map`, the upsert) are functions on `seq<Chat>`.
- `ContactList` filters the contacts it is given by a case-insensitive search
  term over the display name and the number part of the id, shows a name,
  an unread badge and a preview per contact, and on click hands the contact
  to its parent and clears the contact's `hasNewMessage` flag in place.
  Contacts are objects of the class `ContactList.Contact`; only
  `hasNewMessage` is a mutable field.
- `ChatWindow` shows the selected contact's name and the phone number
  extracted from its id by the pattern `(\d+)@c\.us`, sends the typed text
  when it is not blank and a contact is selected, and deselects on Escape.
  Calls to the parent's callbacks are returned as a sequence of `Callback`
  values.

Network results, the clock and user typing are inputs: `SendMessage` takes
whether the request succeeded and the current time, `ReceiveNotification`
takes the decoded notification or `None`, and the text fields are public
fields of the classes.

JavaScript semantics that matter are written out in `JsString`: `a || b` on
strings (the empty string is falsy), `toLowerCase` (ASCII letters only),
`includes`, `split(sep)[0]` and `trim` (ASCII white space only). A
`selectedChat` of `""` is falsy in the send guard, as in JavaScript.

The main invariant (`App.App.Valid`) is that chat numbers are pairwise
distinct and that the selected chat, if any, is in the list; every handler
keeps it.

## Model

| member | source | states |
|---|---|---|
| `JsString.Or` | src/components/ContactList.tsx:24 | `a \|\| b` on strings yields `a` when `a` is non-empty and `b` otherwise |
| `JsString.Lower` | src/components/ContactList.tsx:23-25 | lowercasing keeps the length and maps each character by the ASCII case mapping |
| `JsString.LowerIdempotent` | src/components/ContactList.tsx:23-25 | a lowercased string has no upper-case letter and lowercasing it again changes nothing |
| `JsString.LowerAppend` | src/components/ContactList.tsx:23 | lowercasing distributes over concatenation |
| `JsString.Includes` | src/components/ContactList.tsx:26 | `h.includes(n)` holds exactly when `n` occurs in `h` at some index |
| `JsString.IncludesEmpty` | src/components/ContactList.tsx:26 | every string includes the empty string |
| `JsString.IncludesPrefix` | src/components/ContactList.tsx:26 | a string that includes `a + b` includes `a` |
| `JsString.BeforeFirst` | src/App.tsx:94 | `s.split(sep)[0]` is a prefix of `s` holding no `sep`, followed in `s` by `sep` when shorter than `s` |
| `JsString.BeforeFirstUnique` | src/App.tsx:94 | those three facts determine `split(sep)[0]` uniquely |
| `JsString.BeforeFirstOf` | src/App.tsx:94 | splitting `a + "@" + b` where `a` has no `@` gives `a` |
| `JsString.BeforeFirstNoSeparator` | src/App.tsx:94 | a string without `@` is its own sender number |
| `JsString.TrimStart` | src/components/ChatWindow.tsx:42 | the result is a suffix of the input, only white space was dropped, and it does not start with white space |
| `JsString.TrimEnd` | src/components/ChatWindow.tsx:42 | the result is a prefix of the input, only white space was dropped, and it does not end with white space |
| `JsString.Trim` | src/components/ChatWindow.tsx:42 | `trim()` is no longer than the input and, when non-empty, begins and ends with a non-space character |
| `JsString.TrimSlice` | src/components/ChatWindow.tsx:42 | together with `Trim`'s contract, specifies `trim()`: the result is a slice of the input with only white space cut from each side |
| `JsString.TrimEmptyIff` | src/components/ChatWindow.tsx:42 | `trim()` is empty exactly when the input is all white space |
| `App.HasChat` | src/App.tsx:44 | `chats.find(number)` is truthy exactly when some chat has that number |
| `App.MessagesOf` | src/App.tsx:188-190 | the messages shown for a number are those of the first chat with it (no earlier chat has the number), and none when no chat has it |
| `App.RemoveChats` | src/App.tsx:53 | the filter result is an order-preserving subsequence with no chat of that number, shorter by exactly the number of such chats |
| `App.RemoveChatsKeeps` | src/App.tsx:52-57 | after deleting `n` a number is present exactly when it was present and is not `n`; distinct numbers stay distinct |
| `App.AppendMessage` | src/App.tsx:75-79 | the map keeps length and numbers, appends the message to each chat with the number and leaves every other chat equal |
| `App.AppendMessageEffect` | src/App.tsx:75-79 | the chat with the number shows the message last, other chats show the same messages, the total grows by the count of chats with the number |
| `App.Upsert` | src/App.tsx:101-110 | the chat with the number exists afterwards; the list keeps its length when the chat existed and otherwise gains one chat with just the message at the end |
| `App.UpsertEffect` | src/App.tsx:101-110 | with distinct numbers the chat's messages end with the new one, others are untouched, the list grows by at most one, exactly one message is added and numbers stay distinct |
| `App.AppendChatEffect` | src/App.tsx:45 | appending a chat with a new number keeps the other chats' messages and the distinctness of numbers |
| `App.UpsertTwice` | src/App.tsx:87-110 | the same notification received twice is recorded twice: no deduplication |
| `App.SenderNumber` | src/App.tsx:94 | the sender number is the part of the sender before its first `@`, or all of it |
| `App.IncomingMessage` | src/App.tsx:95-99 | a notification becomes an incoming message with its text and its seconds times 1000 as timestamp |
| `App.App.constructor` | src/App.tsx:19-25 | the initial state is unconfigured, with empty inputs, no chats and no selection |
| `App.App.HandleConfig` | src/App.tsx:34-39 | the client becomes configured only when both credentials are non-empty, and is never unconfigured |
| `App.App.CreateNewChat` | src/App.tsx:41-50 | an empty number changes nothing; otherwise an empty chat is appended if the number is new, the number is selected and the input is cleared |
| `App.App.SelectChat` | src/App.tsx:165 | clicking a listed chat selects its number |
| `App.App.DeleteChat` | src/App.tsx:52-57 | all chats with the number are removed in order, and the selection is cleared only if it was that number |
| `App.App.SendMessage` | src/App.tsx:59-85 | no request without a (truthy) selected chat and a non-empty message; on success exactly one outgoing message is appended to the selected chat and the input is cleared; on failure nothing changes |
| `App.App.ReceiveNotification` | src/App.tsx:87-115 | no decoded message changes nothing; otherwise the incoming message is upserted under the sender number |
| `App.App.PollTick` | src/App.tsx:27-32 | a poll tick records a notification only once the client is configured |
| `ContactList.SearchName` | src/components/ContactList.tsx:24 | the searched name is `name` when that is non-empty, else `contactName`, and is empty only when both are |
| `ContactList.PhoneNumber` | src/components/ContactList.tsx:25 | the searched number is the prefix of the id up to its first `@` (all of the id when it has none) |
| `ContactList.MatchesSearch` | src/components/ContactList.tsx:22-27 | a contact matches exactly when the lowercased term occurs in its lowercased name or in its lowercased number |
| `ContactList.FilteredContacts` | src/components/ContactList.tsx:22-27 | the filtered list is an order-preserving subsequence holding exactly the matching contacts, one entry per matching slot of the input |
| `ContactList.FilterEmptyTerm` | src/components/ContactList.tsx:22-27 | an empty search term keeps every contact |
| `ContactList.FilterCaseInsensitive` | src/components/ContactList.tsx:23 | terms that lowercase alike give the same list |
| `ContactList.MatchesExtended` | src/components/ContactList.tsx:22-27 | a contact matching `t + x` matches `t` |
| `ContactList.FilterNarrowing` | src/components/ContactList.tsx:22-27 | filtering by `t + x` equals filtering the `t` result again, so it is a subsequence of it |
| `ContactList.FilterIdempotent` | src/components/ContactList.tsx:22-27 | filtering a filtered list by the same term changes nothing |
| `ContactList.DisplayName` | src/components/ContactList.tsx:56 | the shown name is never empty: the searched name, or "Unknown" when that is empty |
| `ContactList.UnreadSlotAsWritten` | src/components/ContactList.tsx:58-60 | the badge shows exactly for a defined positive count and carries that count, and a count of 0 (only) yields the text "0" |
| `ContactList.UnreadBadge` | src/components/ContactList.tsx:58-60 | the badge shows the count exactly when it is defined and positive, and nothing is shown otherwise |
| `ContactList.UnreadBadgeAgrees` | src/components/ContactList.tsx:58-60 | the intended badge equals the written slot except for a count of 0 |
| `ContactList.Preview` | src/components/ContactList.tsx:62-68 | the last-message line shows exactly when the last message is a non-empty string |
| `ContactList.ClickContact` | src/components/ContactList.tsx:45-49 | a click hands that contact to the parent and sets its `hasNewMessage` to false, changing nothing else |
| `ChatWindow.HeaderName` | src/components/ChatWindow.tsx:62 | the header name falls back `name`, then `contactName`, then "Unknown", and is never empty |
| `ChatWindow.MatchEnd` | src/components/ChatWindow.tsx:49 | a match of `(\d+)@c\.us` starting at `i` ends exactly where the digit run from `i` ends |
| `ChatWindow.MatchesAt` | src/components/ChatWindow.tsx:49 | the pattern matches at `i` exactly when some match starts at `i`, and then it spans the whole digit run |
| `ChatWindow.FormatFrom` | src/components/ChatWindow.tsx:49-50 | scanning from `i` yields digits only, "" exactly when nothing matches from `i`, and otherwise the capture of the leftmost match |
| `ChatWindow.FormatPhoneNumber` | src/components/ChatWindow.tsx:48-51 | the result is all digits; it is "" exactly when the id has no match; otherwise it is followed by "@c.us" at the leftmost match |
| `ChatWindow.FormatPhoneNumberWholeRun` | src/components/ChatWindow.tsx:49-50 | the character before the captured digits, if any, is not a digit |
| `ChatWindow.FormatPhoneNumberOfAddress` | src/components/ChatWindow.tsx:49-50 | for a non-empty digit string `d`, the id `d@c.us` formats as `d` |
| `ChatWindow.ChatWindow.constructor` | src/components/ChatWindow.tsx:25 | the input starts empty |
| `ChatWindow.ChatWindow.HandleSendMessage` | src/components/ChatWindow.tsx:41-46 | with non-blank input and a selected contact, one send callback with the contact id and the untrimmed text, and the input is cleared; otherwise no callback and the input is kept |
| `ChatWindow.ChatWindow.HandleKeyPress` | src/components/ChatWindow.tsx:84 | Enter in the input acts as the send button; any other key does nothing |
| `ChatWindow.ChatWindow.HandleKeyDown` | src/components/ChatWindow.tsx:29-33 | Escape deselects the contact; any other key makes no callback |
| `ChatWindow.SendNeedsNonSpace` | src/components/ChatWindow.tsx:42 | the send guard passes exactly when the input holds a non-space character |

## Left out

- HTTP requests, URLs and tokens (src/App.tsx:64-67, 89-91): the send request is reduced to its success flag and its body, the poll to its decoded notification or `None`. `None` stands for a response without message data, a failed request, and a response that throws while being read and is caught: one without `senderData`/`sender` or without `textMessageData` (src/App.tsx:94, 97).
- App.IncomingMessage: the text and the timestamp are always defined; a notification whose `textMessageData` lacks `textMessage` (the message is recorded with an undefined text) or lacks a numeric `timestamp` (the stored time is `NaN`) is not modelled (src/App.tsx:97-98).
- Logging of caught errors with `console.error`.
- The interval timer and the effect lifecycle (src/App.tsx:27-32): a tick is `PollTick`, which runs the receive handler once the client is configured; the 5-second period is not modelled.
- Asynchrony: a handler runs to completion in the model. In the source, a send waits for the network before updating state, so a chat deleted or a message typed meanwhile is not modelled.
- `Date.now()` is the `now` parameter; `toLocaleTimeString()` and all JSX, CSS, scrolling and listener registration are left out.
- The text inputs' change handlers (src/App.tsx:125, 132, 154, 207; src/components/ChatWindow.tsx:83, src/components/ContactList.tsx:37) only store the typed text; the model's fields are assigned directly.
- JsString.Lower: only ASCII letters are lowercased; JavaScript's full Unicode case mapping is not modelled.
- JsString.TrimStart, JsString.TrimEnd: only ASCII white space is trimmed; Unicode spaces and line terminators such as U+00A0 or U+2028 are not.
- `ContactList.Contact`: fields the component never writes are `const`; an `undefined` name is treated as the empty string, which `||` treats alike.
- ContactList.UnreadSlotAsWritten: counts that are not integers (`NaN`) are not modelled.
- `App` (src/App.tsx) neither imports nor renders `ContactList` or `ChatWindow`; the model keeps the three components separate, as the source does.

## Findings

| source | as written | input that shows it | evidently intended | confidence | as-written member | corrected member |
|---|---|---|---|---|---|---|
| src/components/ContactList.tsx:58-60 | the badge guard is an `&&` chain whose first operand is the count itself, so a count of 0 is the value of the expression, and React renders the number 0 as text | a contact with `unreadCount` 0 shows a stray "0" next to its name | show the badge only for a positive count and nothing otherwise | high, not executed | `ContactList.UnreadSlotAsWritten` (with `ContactList.ZeroUnreadShowsZero`) | `ContactList.UnreadBadge` (with `ContactList.UnreadBadgeAgrees`) |
