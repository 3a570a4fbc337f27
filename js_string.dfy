/** The few JavaScript value and string built-ins the user registry relies on:
    falsiness of an optional request field, `String.prototype.trim`,
    `toLowerCase` (restricted to ASCII) and `String.prototype.includes`. */
module JsString {
  import opened Wrappers

  /** JavaScript `!x` for an optional string: true when the field is absent or the empty string. */
  predicate Falsy(x: Option<string>) {
    x.None? || x.value == ""
  }

  /** The characters `trim` removes: ECMAScript WhiteSpace (TAB, VT, FF, SP, NBSP, ZWNBSP and the
      space separators) and LineTerminator (LF, CR, LS, PS). */
  predicate IsWhitespace(c: char) {
    || c == '\t' || c == '\n' || c == '\U{000B}' || c == '\U{000C}' || c == '\r' || c == ' '
    || c == '\U{00A0}' || c == '\U{1680}' || ('\U{2000}' <= c <= '\U{200A}')
    || c == '\U{2028}' || c == '\U{2029}' || c == '\U{202F}' || c == '\U{205F}'
    || c == '\U{3000}' || c == '\U{FEFF}'
  }

  /** Drops the leading whitespace: what remains is a suffix of `s` that does not start with
      whitespace, and everything dropped was whitespace. */
  function TrimStart(s: string): (r: string)
    ensures |r| <= |s| && r == s[|s| - |r|..]
    ensures r == [] || !IsWhitespace(r[0])
    ensures forall i :: 0 <= i < |s| - |r| ==> IsWhitespace(s[i])
  {
    if s != [] && IsWhitespace(s[0]) then TrimStart(s[1..]) else s
  }

  /** Drops the trailing whitespace: what remains is a prefix of `s` that does not end with
      whitespace, and everything dropped was whitespace. */
  function TrimEnd(s: string): (r: string)
    ensures |r| <= |s| && r == s[..|r|]
    ensures r == [] || !IsWhitespace(r[|r| - 1])
    ensures forall i :: |r| <= i < |s| ==> IsWhitespace(s[i])
  {
    if s != [] && IsWhitespace(s[|s| - 1]) then TrimEnd(s[..|s| - 1]) else s
  }

  /** `s.trim()`: the middle slice of `s` left after removing only whitespace at each end. It is
      empty exactly when every character of `s` is whitespace, so a whitespace-only string trims
      to "". */
  function Trim(s: string): (r: string)
    ensures exists k :: TrimmedAt(s, r, k)
    ensures r == [] <==> forall i :: 0 <= i < |s| ==> IsWhitespace(s[i])
    ensures r != [] ==> !IsWhitespace(r[0]) && !IsWhitespace(r[|r| - 1])
  {
    var front := TrimStart(s);
    TrimSlice(s);
    assert front != [] ==> !IsWhitespace(s[|s| - |front|]);
    TrimEnd(front)
  }

  /** Trimming the start and then the end of `s` leaves the slice of `s` that begins where the
      leading whitespace ends. */
  lemma TrimSlice(s: string)
    ensures TrimmedAt(s, TrimEnd(TrimStart(s)), |s| - |TrimStart(s)|)
  {
    var front := TrimStart(s);
    var r := TrimEnd(front);
    var k := |s| - |front|;
    assert front == s[k..];
    assert r == front[..|r|];
    assert r == s[k..k + |r|];
    assert forall i :: 0 <= i < k ==> IsWhitespace(s[i]);
    forall i | k + |r| <= i < |s|
      ensures IsWhitespace(s[i])
    {
      assert |r| <= i - k < |front|;
      assert s[i] == front[i - k];
    }
    assert TrimmedAt(s, r, k);
  }

  /** `r` is the slice of `s` starting at `k`, and everything of `s` before and after it is
      whitespace. */
  predicate TrimmedAt(s: string, r: string, k: int) {
    && 0 <= k && k + |r| <= |s| && r == s[k..k + |r|]
    && (forall i :: 0 <= i < k ==> IsWhitespace(s[i]))
    && (forall i :: k + |r| <= i < |s| ==> IsWhitespace(s[i]))
  }

  /** ASCII `toLowerCase` of one character: 'A'..'Z' map to 'a'..'z', everything else is kept. */
  function LowerChar(c: char): (d: char)
    ensures !('A' <= d <= 'Z')
    ensures d == c <==> !('A' <= c <= 'Z')
    ensures 'A' <= c <= 'Z' ==> d as int - c as int == 'a' as int - 'A' as int
  {
    if 'A' <= c <= 'Z' then (c as int - 'A' as int + 'a' as int) as char else c
  }

  /** `s.toLowerCase()` over ASCII: same length, each character lowered, no upper-case letter left. */
  function Lower(s: string): (r: string)
    ensures |r| == |s|
    ensures forall i :: 0 <= i < |s| ==> r[i] == LowerChar(s[i])
  {
    seq(|s|, i requires 0 <= i < |s| => LowerChar(s[i]))
  }

  /** Lowering twice is lowering once, so a term that is already lower-case is its own lowering. */
  lemma LowerIdempotent(s: string)
    ensures Lower(Lower(s)) == Lower(s)
  {
  }

  /** `t` occurs in `s` starting at position `i`. */
  predicate OccursAt(s: string, t: string, i: int) {
    0 <= i && i + |t| <= |s| && s[i..i + |t|] == t
  }

  /** A match of `t` in a non-empty `s` that is not at position 0 is a match in `s[1..]`, and back. */
  lemma OccursShift(s: string, t: string)
    requires s != [] && !(t <= s)
    ensures (exists i :: OccursAt(s, t, i)) <==> (exists j :: OccursAt(s[1..], t, j))
  {
    assert !OccursAt(s, t, 0) by {
      if |t| <= |s| {
        assert s[0..0 + |t|] == s[..|t|];
      }
    }
    if i :| OccursAt(s, t, i) {
      assert s[1..][i - 1..i - 1 + |t|] == s[i..i + |t|];
      assert OccursAt(s[1..], t, i - 1);
    }
    if j :| OccursAt(s[1..], t, j) {
      assert s[1..][j..j + |t|] == s[j + 1..j + 1 + |t|];
      assert OccursAt(s, t, j + 1);
    }
  }

  /** `s.includes(t)`: true exactly when `t` occurs in `s` at some position. */
  function Includes(s: string, t: string): (r: bool)
    ensures r <==> exists i :: OccursAt(s, t, i)
    decreases |s|
  {
    if t <= s then
      assert OccursAt(s, t, 0) by { assert s[0..0 + |t|] == s[..|t|]; }
      true
    else if s == [] then
      false
    else
      OccursShift(s, t);
      Includes(s[1..], t)
  }
}
