/**
 * The chat window panel: the header (name and phone number of the selected
 * contact), the message input with its send guard, and the Escape key that
 * deselects. Calls to the parent's callbacks are returned as values.
 */
module ChatWindow {
  import opened Wrappers
  import opened JsString

  datatype ContactType = User | Group

  datatype Contact = Contact(id: string, name: string, contactName: string, kind: ContactType)

  /** A call made to one of the parent's callbacks. */
  datatype Callback =
    | SendMessage(chatId: string, message: string)
    | SelectContact(contact: Option<Contact>)

  // ---------------------------------------------------------------- header

  /** The header name: `name`, else `contactName`, else "Unknown". */
  function HeaderName(c: Contact): (r: string)
    ensures r != ""
    ensures r == c.name || r == c.contactName || r == "Unknown"
    ensures c.name != "" ==> r == c.name
    ensures c.name == "" && c.contactName != "" ==> r == c.contactName
  {
    Or(Or(c.name, c.contactName), "Unknown")
  }

  predicate IsDigit(ch: char) { '0' <= ch <= '9' }

  ghost predicate AllDigits(s: string)
  {
    forall k :: 0 <= k < |s| ==> IsDigit(s[k])
  }

  /** The literal part of the pattern `(\d+)@c\.us`. */
  const Domain: string := "@c.us"

  /** `s[i..j]` is a run of digits directly followed by "@c.us": the pattern matches there. */
  ghost predicate Matches(s: string, i: int, j: int)
  {
    0 <= i < j <= |s| && AllDigits(s[i..j]) && Domain <= s[j..]
  }

  /** The end of the run of digits that starts at `i`. */
  function DigitRunEnd(s: string, i: nat): (j: nat)
    requires i <= |s|
    ensures i <= j <= |s|
    ensures AllDigits(s[i..j])
    ensures j == |s| || !IsDigit(s[j])
    decreases |s| - i
  {
    if i < |s| && IsDigit(s[i]) then
      var j := DigitRunEnd(s, i + 1);
      assert s[i..j] == [s[i]] + s[i + 1..j];
      j
    else
      i
  }

  /** A match starting at `i` can only end where the digit run from `i` ends. */
  lemma {:induction false} MatchEnd(s: string, i: nat, j: int)
    requires i <= |s| && Matches(s, i, j)
    ensures j == DigitRunEnd(s, i)
    decreases j - i
  {
    assert IsDigit(s[i..j][0]);
    if i + 1 < j {
      assert s[i + 1..j] == s[i..j][1..];
      MatchEnd(s, i + 1, j);
    } else {
      assert s[j] == Domain[0];
    }
  }

  /** The pattern matches at `i` exactly when a digit starts there and its run is followed by "@c.us". */
  predicate MatchesAt(s: string, i: nat): (r: bool)
    requires i <= |s|
    ensures r <==> exists j :: Matches(s, i, j)
    ensures r ==> Matches(s, i, DigitRunEnd(s, i))
  {
    MatchesAtRun(s, i);
    i < |s| && IsDigit(s[i]) && Domain <= s[DigitRunEnd(s, i)..]
  }

  lemma MatchesAtRun(s: string, i: nat)
    requires i <= |s|
    ensures (exists j :: Matches(s, i, j)) ==> Matches(s, i, DigitRunEnd(s, i))
    ensures (exists j :: Matches(s, i, j)) <==> i < |s| && IsDigit(s[i]) && Domain <= s[DigitRunEnd(s, i)..]
  {
    var e := DigitRunEnd(s, i);
    if j :| Matches(s, i, j) {
      MatchEnd(s, i, j);
      assert s[i..e][0] == s[i];
    }
    if i < |s| && IsDigit(s[i]) && Domain <= s[e..] {
      assert Matches(s, i, e);
    }
  }

  /**
   * Scanning from `i`, the leftmost match starts at `a` and captures `r`:
   * `r` is followed by "@c.us" at `a` and no earlier start from `i` on matches.
   */
  ghost predicate Captures(s: string, i: int, a: int, r: string)
  {
    i <= a && a + |r| <= |s| && Matches(s, a, a + |r|) && s[a..a + |r|] == r
    && forall a', b' :: i <= a' < a ==> !Matches(s, a', b')
  }

  /** The leftmost match at or after `i`, as the regular-expression search scans. */
  function FormatFrom(s: string, i: nat): (r: string)
    requires i <= |s|
    ensures AllDigits(r)
    ensures r == "" <==> forall a, b :: i <= a ==> !Matches(s, a, b)
    ensures r != "" ==> exists a :: Captures(s, i, a, r)
    decreases |s| - i
  {
    if i == |s| then
      ""
    else if MatchesAt(s, i) then
      var r := s[i..DigitRunEnd(s, i)];
      assert Captures(s, i, i, r);
      r
    else
      var r := FormatFrom(s, i + 1);
      CapturesFromNext(s, i, i + 1, r);
      r
  }

  /** When the pattern does not match at `i`, the scan from `i` captures what the scan from `i + 1` does. */
  lemma CapturesFromNext(s: string, i: nat, next: nat, r: string)
    requires i < |s| && next == i + 1 && forall b :: !Matches(s, i, b)
    ensures (exists a :: Captures(s, next, a, r)) ==> exists a :: Captures(s, i, a, r)
  {
    if a :| Captures(s, next, a, r) {
      assert Captures(s, i, a, r);
    }
  }

  /**
   * `formatPhoneNumber(id)`: the digits captured by the leftmost match of
   * `(\d+)@c\.us` in `id`, or "" when there is no match.
   */
  function FormatPhoneNumber(id: string): (r: string)
    ensures AllDigits(r)
    ensures r == "" <==> forall a, b :: !Matches(id, a, b)
    ensures r != "" ==> exists a :: Captures(id, 0, a, r)
  {
    FormatFrom(id, 0)
  }

  /** The leftmost match takes the whole digit run: the character before it is not a digit. */
  lemma FormatPhoneNumberWholeRun(id: string, a: int)
    requires FormatPhoneNumber(id) != "" && Captures(id, 0, a, FormatPhoneNumber(id))
    ensures a == 0 || !IsDigit(id[a - 1])
  {
    var r := FormatPhoneNumber(id);
    if a > 0 && IsDigit(id[a - 1]) {
      assert id[a - 1..a + |r|] == [id[a - 1]] + id[a..a + |r|];
      assert Matches(id, a - 1, a + |r|);
    }
  }

  /** A WhatsApp-style address `d@c.us` with a digit string `d` formats as `d`. */
  lemma FormatPhoneNumberOfAddress(d: string)
    requires d != "" && AllDigits(d)
    ensures FormatPhoneNumber(d + Domain) == d
  {
    var s := d + Domain;
    assert s[..|d|] == d && s[|d|..] == Domain;
    assert s[0..|d|] == d;
    assert Matches(s, 0, |d|);
    var r := FormatPhoneNumber(s);
    var a :| Captures(s, 0, a, r);
    assert a == 0;
    MatchEnd(s, 0, |d|);
    MatchEnd(s, 0, |r|);
  }

  // ---------------------------------------------------------------- input and keys

  class ChatWindow {
    var inputMessage: string

    constructor ()
      ensures inputMessage == ""
    {
      inputMessage := "";
    }

    /**
     * Sending: when the trimmed input is non-empty and a contact is selected,
     * the untrimmed input is passed to `onSendMessage` with the contact's id
     * and the input is cleared; otherwise nothing happens.
     */
    method HandleSendMessage(selectedContact: Option<Contact>) returns (calls: seq<Callback>)
      modifies this`inputMessage
      ensures Trim(old(inputMessage)) != "" && selectedContact.Some? ==>
        calls == [SendMessage(selectedContact.value.id, old(inputMessage))] && inputMessage == ""
      ensures Trim(old(inputMessage)) == "" || selectedContact.None? ==>
        calls == [] && inputMessage == old(inputMessage)
    {
      if Trim(inputMessage) != "" && selectedContact.Some? {
        calls := [SendMessage(selectedContact.value.id, inputMessage)];
        inputMessage := "";
      } else {
        calls := [];
      }
    }

    /** A key press in the input: Enter sends as the Send button does; other keys do nothing here. */
    method HandleKeyPress(key: string, selectedContact: Option<Contact>) returns (calls: seq<Callback>)
      modifies this`inputMessage
      ensures key != "Enter" ==> calls == [] && inputMessage == old(inputMessage)
      ensures key == "Enter" && Trim(old(inputMessage)) != "" && selectedContact.Some? ==>
        calls == [SendMessage(selectedContact.value.id, old(inputMessage))] && inputMessage == ""
      ensures key == "Enter" && (Trim(old(inputMessage)) == "" || selectedContact.None?) ==>
        calls == [] && inputMessage == old(inputMessage)
    {
      if key == "Enter" {
        calls := HandleSendMessage(selectedContact);
      } else {
        calls := [];
      }
    }

    /** A key down anywhere in the window: Escape deselects the contact, other keys do nothing. */
    method HandleKeyDown(key: string) returns (calls: seq<Callback>)
      ensures key == "Escape" ==> calls == [SelectContact(None)]
      ensures key != "Escape" ==> calls == []
    {
      calls := if key == "Escape" then [SelectContact(None)] else [];
    }
  }

  /** White space alone never sends: the input must hold a non-space character. */
  lemma SendNeedsNonSpace(input: string)
    ensures Trim(input) != "" <==> exists k :: 0 <= k < |input| && !IsSpace(input[k])
  {
    TrimEmptyIff(input);
  }
}
