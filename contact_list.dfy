/**
 * The contact list panel: a case-insensitive search over the contacts it is
 * given, the name and unread badge it shows per contact, and the click that
 * selects a contact and clears its new-message flag on the shared object.
 */
module ContactList {
  import opened Wrappers
  import opened JsString
  import opened Subsequence

  datatype ContactType = User | Group

  /**
   * A contact, shared with the parent component. Only `hasNewMessage` is
   * written by this component; the other fields are read.
   */
  class Contact {
    const id: string
    const name: string
    const contactName: string
    const kind: ContactType
    const lastMessage: Option<string>
    const unreadCount: Option<int>
    var hasNewMessage: Option<bool>

    constructor (id: string, name: string, contactName: string, kind: ContactType,
                 lastMessage: Option<string>, unreadCount: Option<int>, hasNewMessage: Option<bool>)
      ensures this.id == id && this.name == name && this.contactName == contactName && this.kind == kind
      ensures this.lastMessage == lastMessage && this.unreadCount == unreadCount
      ensures this.hasNewMessage == hasNewMessage
    {
      this.id, this.name, this.contactName, this.kind := id, name, contactName, kind;
      this.lastMessage, this.unreadCount, this.hasNewMessage := lastMessage, unreadCount, hasNewMessage;
    }
  }

  // ---------------------------------------------------------------- search

  /** The name searched: `name`, else `contactName`, else "". */
  function SearchName(c: Contact): (r: string)
    ensures r == c.name || r == c.contactName
    ensures c.name != "" ==> r == c.name
    ensures r == "" <==> c.name == "" && c.contactName == ""
  {
    Or(Or(c.name, c.contactName), "")
  }

  /** The number searched: the id up to its first `@`. */
  function PhoneNumber(c: Contact): (r: string)
    ensures r <= c.id && '@' !in r
    ensures |r| < |c.id| ==> c.id[|r|] == '@'
  {
    BeforeFirst(c.id, '@')
  }

  /**
   * The search predicate: the term occurs, ignoring case, in the contact's
   * name or in its number.
   */
  predicate MatchesSearch(c: Contact, searchTerm: string): (r: bool)
    ensures r <==>
      || (exists i :: OccursAt(Lower(SearchName(c)), Lower(searchTerm), i))
      || (exists i :: OccursAt(Lower(PhoneNumber(c)), Lower(searchTerm), i))
  {
    var searchLower := Lower(searchTerm);
    Includes(Lower(SearchName(c)), searchLower) || Includes(Lower(PhoneNumber(c)), searchLower)
  }

  /** How many slots of `contacts` hold a contact that matches the term. */
  function CountMatches(contacts: seq<Contact>, searchTerm: string): (k: nat)
    ensures k <= |contacts|
  {
    if contacts == [] then 0
    else (if MatchesSearch(contacts[0], searchTerm) then 1 else 0) + CountMatches(contacts[1..], searchTerm)
  }

  /** The contacts that match the search term, in their original order. */
  function FilteredContacts(contacts: seq<Contact>, searchTerm: string): (r: seq<Contact>)
    ensures IsSubsequence(r, contacts)
    ensures |r| == CountMatches(contacts, searchTerm)
    ensures forall i :: 0 <= i < |r| ==> MatchesSearch(r[i], searchTerm)
    ensures forall i :: 0 <= i < |contacts| && MatchesSearch(contacts[i], searchTerm) ==> contacts[i] in r
  {
    if contacts == [] then []
    else
      var rest := FilteredContacts(contacts[1..], searchTerm);
      assert forall i :: 1 <= i < |contacts| ==> contacts[i] == contacts[1..][i - 1];
      if MatchesSearch(contacts[0], searchTerm) then
        assert ([contacts[0]] + rest)[1..] == rest;
        [contacts[0]] + rest
      else
        rest
  }

  /** An empty search term keeps every contact. */
  lemma {:induction false} FilterEmptyTerm(contacts: seq<Contact>)
    ensures FilteredContacts(contacts, "") == contacts
  {
    if contacts != [] {
      FilterEmptyTerm(contacts[1..]);
      IncludesEmpty(Lower(SearchName(contacts[0])));
      assert Lower("") == "";
      assert MatchesSearch(contacts[0], "");
      assert contacts == [contacts[0]] + contacts[1..];
    }
  }

  /** Search terms that lowercase alike select the same contacts. */
  lemma {:induction false} FilterCaseInsensitive(contacts: seq<Contact>, t: string, u: string)
    requires Lower(t) == Lower(u)
    ensures FilteredContacts(contacts, t) == FilteredContacts(contacts, u)
  {
    if contacts != [] {
      FilterCaseInsensitive(contacts[1..], t, u);
    }
  }

  /** A contact matching `t + x` matches `t`. */
  lemma MatchesExtended(c: Contact, t: string, x: string)
    requires MatchesSearch(c, t + x)
    ensures MatchesSearch(c, t)
  {
    LowerAppend(t, x);
    if Includes(Lower(SearchName(c)), Lower(t + x)) {
      IncludesPrefix(Lower(SearchName(c)), Lower(t), Lower(x));
    } else {
      IncludesPrefix(Lower(PhoneNumber(c)), Lower(t), Lower(x));
    }
  }

  /**
   * Typing more never brings a contact back: filtering by `t + x` is filtering
   * the `t` result again, so it is a subsequence of the `t` result.
   */
  lemma {:induction false} FilterNarrowing(contacts: seq<Contact>, t: string, x: string)
    ensures FilteredContacts(contacts, t + x) == FilteredContacts(FilteredContacts(contacts, t), t + x)
    ensures IsSubsequence(FilteredContacts(contacts, t + x), FilteredContacts(contacts, t))
  {
    if contacts != [] {
      FilterNarrowing(contacts[1..], t, x);
      if MatchesSearch(contacts[0], t + x) {
        MatchesExtended(contacts[0], t, x);
      }
      if MatchesSearch(contacts[0], t) {
        assert ([contacts[0]] + FilteredContacts(contacts[1..], t))[1..] == FilteredContacts(contacts[1..], t);
      }
    }
  }

  /** Filtering a filtered list again by the same term changes nothing. */
  lemma {:induction false} FilterIdempotent(contacts: seq<Contact>, t: string)
    ensures FilteredContacts(FilteredContacts(contacts, t), t) == FilteredContacts(contacts, t)
  {
    if contacts != [] {
      FilterIdempotent(contacts[1..], t);
      if MatchesSearch(contacts[0], t) {
        assert ([contacts[0]] + FilteredContacts(contacts[1..], t))[1..] == FilteredContacts(contacts[1..], t);
      }
    }
  }

  // ---------------------------------------------------------------- what a row shows

  /** The name shown on a row: `name`, else `contactName`, else "Unknown". */
  function DisplayName(c: Contact): (r: string)
    ensures r != ""
    ensures r == (if SearchName(c) == "" then "Unknown" else SearchName(c))
  {
    Or(Or(c.name, c.contactName), "Unknown")
  }

  /** What the badge slot of a row evaluates to. */
  datatype Slot = Nothing | Text(text: string) | Badge(count: int)

  /**
   * The badge slot as written, a chain of `&&` that starts with the count:
   * an undefined count or a negative one renders nothing, but a count of 0 is
   * the falsy value the chain returns, and 0 is rendered as the text "0".
   */
  function UnreadSlotAsWritten(c: Contact): (r: Slot)
    ensures r.Badge? <==> c.unreadCount.Some? && c.unreadCount.value > 0
    ensures r.Text? <==> c.unreadCount == Some(0)
    ensures r.Text? ==> r.text == "0"
    ensures r.Badge? ==> r.count == c.unreadCount.value
  {
    match c.unreadCount
    case None => Nothing
    case Some(n) => if n == 0 then Text("0") else if n > 0 then Badge(n) else Nothing
  }

  /** A contact with an unread count of 0 gets a stray "0" in its row. */
  lemma ZeroUnreadShowsZero(c: Contact)
    requires c.unreadCount == Some(0)
    ensures UnreadSlotAsWritten(c) == Text("0")
  {
  }

  /** The badge as intended: shown with the count exactly when the count is defined and positive. */
  function UnreadBadge(c: Contact): (r: Slot)
    ensures r.Badge? <==> c.unreadCount.Some? && c.unreadCount.value > 0
    ensures r.Badge? ==> r.count == c.unreadCount.value
    ensures !r.Badge? ==> r == Nothing
  {
    if c.unreadCount.Some? && c.unreadCount.value > 0 then Badge(c.unreadCount.value) else Nothing
  }

  /** The intended badge agrees with the written one everywhere except on a count of 0. */
  lemma UnreadBadgeAgrees(c: Contact)
    ensures c.unreadCount != Some(0) ==> UnreadBadge(c) == UnreadSlotAsWritten(c)
    ensures c.unreadCount == Some(0) ==> UnreadBadge(c) == Nothing != UnreadSlotAsWritten(c)
  {
  }

  /** The last-message line is shown when the contact has a non-empty last message. */
  function Preview(c: Contact): (r: Option<string>)
    ensures r.Some? <==> c.lastMessage.Some? && c.lastMessage.value != ""
    ensures r.Some? ==> r.value == c.lastMessage.value
  {
    if c.lastMessage.Some? && c.lastMessage.value != "" then c.lastMessage else None
  }

  // ---------------------------------------------------------------- click

  /**
   * Clicking a row: the contact is handed to `onSelectContact` (returned here)
   * and its `hasNewMessage` flag is set to false on the shared object.
   */
  method ClickContact(contact: Contact) returns (selected: Contact)
    modifies contact`hasNewMessage
    ensures selected == contact
    ensures contact.hasNewMessage == Some(false)
  {
    selected := contact;
    contact.hasNewMessage := Some(false);
  }
}
