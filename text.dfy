/** Character classes and string operations of Python that the scraper relies
    on: ASCII `\d`, `str.isspace`, `str.strip()`, the `in` operator on strings,
    case-insensitive search and `get_text(strip=True)`. */
module Text {

  /** The sentinel every lookup of the scraper falls back to. */
  const NotFound: string := "Não encontrado"

  predicate IsDigit(c: char) {
    '0' <= c <= '9'
  }

  predicate AllDigits(s: string) {
    forall i :: 0 <= i < |s| ==> IsDigit(s[i])
  }

  predicate HasDigit(s: string) {
    exists i :: 0 <= i < |s| && IsDigit(s[i])
  }

  lemma NotFoundHasNoDigit()
    ensures !HasDigit(NotFound) && NotFound[0] == 'N'
  {
  }

  /** The characters Python's `str.isspace` accepts, which are the ones
      `str.strip()` removes when called without arguments. */
  predicate IsSpace(c: char) {
    || ('\t' <= c <= '\r')
    || ('\U{001C}' <= c <= ' ')
    || c == '\U{0085}' || c == '\U{00A0}' || c == '\U{1680}'
    || ('\U{2000}' <= c <= '\U{200A}')
    || c == '\U{2028}' || c == '\U{2029}' || c == '\U{202F}'
    || c == '\U{205F}' || c == '\U{3000}'
  }

  predicate AllSpace(s: string) {
    forall i :: 0 <= i < |s| ==> IsSpace(s[i])
  }

  /** Number of whitespace characters at the front of `s`. */
  function LeadingSpaces(s: string): (n: nat)
    ensures n <= |s| && AllSpace(s[..n])
    ensures n < |s| ==> !IsSpace(s[n])
  {
    if |s| == 0 || !IsSpace(s[0]) then 0
    else
      var m := LeadingSpaces(s[1..]);
      assert forall i :: 1 <= i < m + 1 ==> s[i] == s[1..][..m][i - 1];
      1 + m
  }

  /** Number of whitespace characters at the back of `s`. */
  function TrailingSpaces(s: string): (n: nat)
    ensures n <= |s| && AllSpace(s[|s| - n..])
    ensures n < |s| ==> !IsSpace(s[|s| - n - 1])
  {
    if |s| == 0 || !IsSpace(s[|s| - 1]) then 0
    else
      var t := s[..|s| - 1];
      var m := TrailingSpaces(t);
      assert forall i :: |s| - m - 1 <= i < |s| - 1 ==> s[i] == t[|t| - m..][i - (|t| - m)];
      1 + m
  }

  /** Python's `s.strip()`: `s` without its leading and trailing whitespace. */
  function Strip(s: string): (r: string)
    ensures r == [] || (!IsSpace(r[0]) && !IsSpace(r[|r| - 1]))
    ensures exists a, b :: 0 <= a <= b <= |s| && r == s[a..b] && AllSpace(s[..a]) && AllSpace(s[b..])
  {
    var a := LeadingSpaces(s);
    var t := s[a..];
    var b := a + (|t| - TrailingSpaces(t));
    assert t[|t| - TrailingSpaces(t)..] == s[b..];
    assert s[a..b] == t[..|t| - TrailingSpaces(t)];
    s[a..b]
  }

  /** Stripping leaves nothing exactly when the text is whitespace only. */
  lemma StripEmptyIff(s: string)
    ensures Strip(s) == [] <==> AllSpace(s)
  {
    var a := LeadingSpaces(s);
    var t := s[a..];
    var m := TrailingSpaces(t);
    assert Strip(s) == s[a..a + (|t| - m)];
    if AllSpace(s) {
      assert a == |s|;
    }
    if Strip(s) == [] {
      assert m == |t| && t[|t| - m..] == t;
      assert a == |s|;
      forall i | 0 <= i < |s| ensures IsSpace(s[i]) {
        assert s[i] == s[..a][i];
      }
    }
  }

  /** `p` occurs in `s` starting at index `i`. */
  predicate OccursAt(s: string, p: string, i: int) {
    0 <= i <= |s| - |p| && s[i..i + |p|] == p
  }

  /** Python's `p in s` on strings: `p` is a prefix of `s` or of one of its
      suffixes. */
  function Contains(s: string, p: string): bool
    decreases |s|
  {
    (|p| <= |s| && s[..|p|] == p) || (|p| < |s| && Contains(s[1..], p))
  }

  /** `p in s` holds exactly when `p` occurs in `s` at some index. */
  lemma {:induction false} ContainsIffOccurs(s: string, p: string)
    ensures Contains(s, p) <==> exists i :: OccursAt(s, p, i)
    decreases |s|
  {
    if |p| <= |s| && s[..|p|] == p {
      assert OccursAt(s, p, 0);
    } else if |s| <= |p| {
      assert forall i :: OccursAt(s, p, i) ==> i == 0;
    } else {
      ContainsIffOccurs(s[1..], p);
      forall i | OccursAt(s, p, i) && i != 0 ensures OccursAt(s[1..], p, i - 1) {
        assert s[1..][i - 1..i - 1 + |p|] == s[i..i + |p|];
      }
      if Contains(s[1..], p) {
        var j :| OccursAt(s[1..], p, j);
        assert s[1..][j..j + |p|] == s[j + 1..j + 1 + |p|];
        assert OccursAt(s, p, j + 1);
      }
    }
  }

  /** The lower-case form of an ASCII letter; every other character is kept. */
  function LowerChar(c: char): char {
    if 'A' <= c <= 'Z' then (c as int + 32) as char else c
  }

  function Lower(s: string): (r: string)
    ensures |r| == |s| && forall i :: 0 <= i < |s| ==> r[i] == LowerChar(s[i])
  {
    seq(|s|, i requires 0 <= i < |s| => LowerChar(s[i]))
  }

  /** BeautifulSoup's `get_text(strip=True)` with the default separator: every
      text fragment is stripped and the results are joined with nothing
      between. The joined text is empty exactly when every fragment is
      whitespace only, and otherwise starts and ends with a character that is
      not whitespace. */
  function GetTextStripped(fragments: seq<string>): (r: string)
    ensures r == [] <==> forall k :: 0 <= k < |fragments| ==> AllSpace(fragments[k])
    ensures r == [] || (!IsSpace(r[0]) && !IsSpace(r[|r| - 1]))
    decreases |fragments|
  {
    if fragments == [] then []
    else
      var init := fragments[..|fragments| - 1];
      var p := GetTextStripped(init);
      var last := Strip(fragments[|fragments| - 1]);
      assert forall k :: 0 <= k < |init| ==> init[k] == fragments[k];
      StripEmptyIff(fragments[|fragments| - 1]);
      JoinTrimmed(p, last);
      p + last
  }

  /** Joining two trimmed texts gives a trimmed text, empty only when both are. */
  lemma JoinTrimmed(p: string, q: string)
    requires p == [] || (!IsSpace(p[0]) && !IsSpace(p[|p| - 1]))
    requires q == [] || (!IsSpace(q[0]) && !IsSpace(q[|q| - 1]))
    ensures var r := p + q; (r == [] <==> p == [] && q == []) && (r == [] || (!IsSpace(r[0]) && !IsSpace(r[|r| - 1])))
  {
    var r := p + q;
    if p != [] {
      assert r[0] == p[0];
    }
    if q != [] {
      assert r[|r| - 1] == q[|q| - 1];
    }
  }
}
