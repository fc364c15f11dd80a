/**
 * The few JavaScript string operations the chat client relies on, stated over
 * `seq<char>`. Case mapping and whitespace are ASCII only (see README).
 */
module JsString {

  /** `a || b` on two strings: the empty string is the only falsy string. */
  function Or(a: string, b: string): (r: string)
    ensures a != "" ==> r == a
    ensures a == "" ==> r == b
  {
    if a != "" then a else b
  }

  // ---------------------------------------------------------------- toLowerCase

  predicate IsUpper(c: char) { 'A' <= c <= 'Z' }

  function LowerChar(c: char): char
  {
    if IsUpper(c) then (c as int + 32) as char else c
  }

  /** `s.toLowerCase()`, restricted to ASCII letters. */
  function Lower(s: string): (r: string)
    ensures |r| == |s|
    ensures forall i :: 0 <= i < |s| ==> r[i] == LowerChar(s[i])
  {
    seq(|s|, i requires 0 <= i < |s| => LowerChar(s[i]))
  }

  /** Lowercasing leaves no upper-case letter behind and is idempotent. */
  lemma LowerIdempotent(s: string)
    ensures forall i :: 0 <= i < |s| ==> !IsUpper(Lower(s)[i])
    ensures Lower(Lower(s)) == Lower(s)
  {
  }

  /** Lowercasing distributes over concatenation. */
  lemma LowerAppend(a: string, b: string)
    ensures Lower(a + b) == Lower(a) + Lower(b)
  {
    assert forall i :: 0 <= i < |a + b| ==> Lower(a + b)[i] == (Lower(a) + Lower(b))[i];
  }

  // ---------------------------------------------------------------- includes

  /** `n` occurs in `h` starting at index `i`. */
  ghost predicate OccursAt(h: string, n: string, i: int)
  {
    0 <= i && i + |n| <= |h| && h[i..i + |n|] == n
  }

  /** `h.includes(n)`: the search tries every start position of `h` in turn. */
  function Includes(h: string, n: string): (r: bool)
    ensures r <==> exists i :: OccursAt(h, n, i)
    decreases |h|
  {
    if n <= h then
      assert OccursAt(h, n, 0);
      true
    else if h == [] then
      false
    else
      IncludesStep(h, n);
      Includes(h[1..], n)
  }

  /** Past a failed first position, `h` holds `n` exactly where its tail does. */
  lemma IncludesStep(h: string, n: string)
    requires h != [] && !(n <= h)
    ensures (exists i :: OccursAt(h, n, i)) <==> (exists i :: OccursAt(h[1..], n, i))
  {
    if i :| OccursAt(h[1..], n, i) {
      assert OccursAt(h, n, i + 1);
    }
    if i :| OccursAt(h, n, i) {
      assert i > 0 && OccursAt(h[1..], n, i - 1);
    }
  }

  /** Every string includes the empty string. */
  lemma IncludesEmpty(h: string)
    ensures Includes(h, "")
  {
    assert OccursAt(h, "", 0);
  }

  /** If `h` includes `a + b`, it includes `a`. */
  lemma IncludesPrefix(h: string, a: string, b: string)
    requires Includes(h, a + b)
    ensures Includes(h, a)
  {
    var i :| OccursAt(h, a + b, i);
    assert h[i..i + |a|] == (a + b)[..|a|];
    assert OccursAt(h, a, i);
  }

  // ---------------------------------------------------------------- split(sep)[0]

  /** `s.split(sep)[0]`: the part of `s` before the first `sep`, or all of `s`. */
  function BeforeFirst(s: string, sep: char): (r: string)
    ensures r <= s
    ensures sep !in r
    ensures |r| < |s| ==> s[|r|] == sep
  {
    if s == [] || s[0] == sep then [] else [s[0]] + BeforeFirst(s[1..], sep)
  }

  /** The three facts in BeforeFirst's contract determine its result. */
  lemma {:induction false} BeforeFirstUnique(s: string, sep: char, p: string)
    requires p <= s && sep !in p && (|p| < |s| ==> s[|p|] == sep)
    ensures BeforeFirst(s, sep) == p
  {
    var r := BeforeFirst(s, sep);
    assert |r| == |p|;
  }

  /** Splitting `a + sep + b` where `a` holds no `sep` gives back `a`. */
  lemma BeforeFirstOf(a: string, sep: char, b: string)
    requires sep !in a
    ensures BeforeFirst(a + [sep] + b, sep) == a
  {
    BeforeFirstUnique(a + [sep] + b, sep, a);
  }

  /** With no `sep` in `s`, `s.split(sep)[0]` is `s` itself. */
  lemma BeforeFirstNoSeparator(s: string, sep: char)
    requires sep !in s
    ensures BeforeFirst(s, sep) == s
  {
    BeforeFirstUnique(s, sep, s);
  }

  // ---------------------------------------------------------------- trim

  /** ASCII white space: tab, line feed, vertical tab, form feed, carriage return, space. */
  predicate IsSpace(c: char)
  {
    c == ' ' || c == '\t' || c == '\n' || c == '\U{B}' || c == '\U{C}' || c == '\r'
  }

  ghost predicate AllSpace(s: string)
  {
    forall i :: 0 <= i < |s| ==> IsSpace(s[i])
  }

  /** Drops leading white space. */
  function TrimStart(s: string): (r: string)
    ensures |r| <= |s| && r == s[|s| - |r|..]
    ensures AllSpace(s[..|s| - |r|])
    ensures r == [] || !IsSpace(r[0])
  {
    if s != [] && IsSpace(s[0]) then
      var r := TrimStart(s[1..]);
      assert s[..|s| - |r|] == [s[0]] + s[1..][..|s| - 1 - |r|];
      r
    else
      s
  }

  /** Drops trailing white space. */
  function TrimEnd(s: string): (r: string)
    ensures r <= s
    ensures AllSpace(s[|r|..])
    ensures r == [] || !IsSpace(r[|r| - 1])
  {
    if s != [] && IsSpace(s[|s| - 1]) then
      var r := TrimEnd(s[..|s| - 1]);
      assert s[|r|..] == s[..|s| - 1][|r|..] + [s[|s| - 1]];
      r
    else
      s
  }

  /** `s.trim()`: white space cut from both ends, so the result begins and ends with a non-space. */
  function Trim(s: string): (r: string)
    ensures |r| <= |s|
    ensures r == [] || (!IsSpace(r[0]) && !IsSpace(r[|r| - 1]))
  {
    TrimEnd(TrimStart(s))
  }

  /** The trimmed string is a slice of `s` with only white space cut off on each side. */
  lemma TrimSlice(s: string)
    ensures exists i, j :: 0 <= i <= j <= |s| && Trim(s) == s[i..j] && AllSpace(s[..i]) && AllSpace(s[j..])
  {
    var t := TrimStart(s);
    var i := |s| - |t|;
    var j := i + |Trim(s)|;
    assert Trim(s) == s[i..j];
    assert s[j..] == t[|Trim(s)|..];
  }

  /** `s.trim()` is empty exactly when `s` is all white space. */
  lemma TrimEmptyIff(s: string)
    ensures Trim(s) == "" <==> AllSpace(s)
  {
    var t := TrimStart(s);
    if Trim(s) == "" {
      assert AllSpace(t[0..]);
      assert s == s[..|s| - |t|] + t;
    }
  }
}
