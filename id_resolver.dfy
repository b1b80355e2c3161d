/** `extract_id_from_url`: the record identifier is the trailing number of the
    detail page's URL, found by two anchored regular expressions tried in order. */
module IdResolver {
  import opened Wrappers
  import opened Text

  /** Where Python's `$` (without MULTILINE) matches: the end of the string,
      or just before a newline that ends it. */
  predicate AtEnd(s: string, j: int) {
    j == |s| || (0 <= j == |s| - 1 && s[j] == '\n')
  }

  /** `/(\d+)/?$` matches `s` from index `i`, its group being `s[i + 1..j]`. */
  predicate SlashMatch(s: string, i: int, j: int) {
    && 0 <= i && i + 1 < j <= |s|
    && s[i] == '/'
    && AllDigits(s[i + 1..j])
    && (AtEnd(s, j) || (j < |s| && s[j] == '/' && AtEnd(s, j + 1)))
  }

  /** `p=(\d+)$` matches `s` from index `i`, its group being `s[i + 2..j]`. */
  predicate ParamMatch(s: string, i: int, j: int) {
    && 0 <= i && i + 2 < j <= |s|
    && s[i] == 'p' && s[i + 1] == '='
    && AllDigits(s[i + 2..j])
    && AtEnd(s, j)
  }

  /** Length of the run of digits that ends `s`. */
  function TrailingDigits(s: string): (n: nat)
    ensures n <= |s| && AllDigits(s[|s| - n..])
    ensures n < |s| ==> !IsDigit(s[|s| - n - 1])
  {
    if |s| == 0 || !IsDigit(s[|s| - 1]) then 0
    else
      var t := s[..|s| - 1];
      var m := TrailingDigits(t);
      assert forall i :: |s| - m - 1 <= i < |s| - 1 ==> s[i] == t[|t| - m..][i - (|t| - m)];
      1 + m
  }

  /** The part of `s` that `$` leaves before it: `s` without a final newline. */
  function BeforeEnd(s: string): string {
    if |s| > 0 && s[|s| - 1] == '\n' then s[..|s| - 1] else s
  }

  /** `s` without the `/` that ends it, if one does. */
  function BeforeSlash(t: string): string {
    if |t| > 0 && t[|t| - 1] == '/' then t[..|t| - 1] else t
  }

  /** A run of digits that ends `u` and has no digit in front of it is what
      `TrailingDigits` measures. */
  lemma {:induction false} TrailingDigitsOfRun(u: string, k: int)
    requires 0 <= k <= |u| && AllDigits(u[k..])
    requires k > 0 ==> !IsDigit(u[k - 1])
    ensures TrailingDigits(u) == |u| - k
    decreases |u|
  {
    if k < |u| {
      assert IsDigit(u[|u| - 1]) by { assert u[k..][|u| - 1 - k] == u[|u| - 1]; }
      var t := u[..|u| - 1];
      assert t[k..] == u[k..][..|u| - 1 - k];
      if k > 0 {
        assert t[k - 1] == u[k - 1];
      }
      TrailingDigitsOfRun(t, k);
    }
  }

  /** The first pattern scanned from the back: drop what `$` and `/?` may
      match, take the trailing digits, and demand a `/` in front of them. */
  function SlashRule(s: string): (r: Option<string>)
    ensures r.Some? ==> exists i, j :: SlashMatch(s, i, j) && r.value == s[i + 1..j]
    ensures r.Some? ==> r.value != [] && AllDigits(r.value)
    ensures r.None? ==> forall i, j :: !SlashMatch(s, i, j)
  {
    var u := BeforeSlash(BeforeEnd(s));
    var n := TrailingDigits(u);
    if 0 < n < |u| && u[|u| - n - 1] == '/' then
      assert u[|u| - n..] == s[|u| - n..|u|];
      assert SlashMatch(s, |u| - n - 1, |u|);
      Some(u[|u| - n..])
    else
      assert forall i, j :: !SlashMatch(s, i, j) by {
        forall i, j | SlashMatch(s, i, j) ensures false {
          SlashMatchEndsRun(s, i, j);
        }
      }
      None
  }

  /** Every match of the first pattern ends where the scan from the back puts it. */
  lemma SlashMatchEndsRun(s: string, i: int, j: int)
    requires SlashMatch(s, i, j)
    ensures BeforeSlash(BeforeEnd(s)) == s[..j]
    ensures TrailingDigits(s[..j]) == j - i - 1 && s[i] == '/'
  {
    assert IsDigit(s[j - 1]) by { assert s[i + 1..j][j - i - 2] == s[j - 1]; }
    if AtEnd(s, j) {
      if j == |s| {
        assert BeforeEnd(s) == s;
      } else {
        assert BeforeEnd(s) == s[..j];
      }
    } else if j + 1 == |s| {
      assert BeforeEnd(s) == s;
    } else {
      assert BeforeEnd(s) == s[..j + 1];
      assert s[..j + 1][..j] == s[..j];
    }
    var u := s[..j];
    assert u[i + 1..] == s[i + 1..j];
    TrailingDigitsOfRun(u, i + 1);
  }

  /** The second pattern scanned from the back: the trailing digits before
      what `$` may match, with `p=` in front of them. */
  function ParamRule(s: string): (r: Option<string>)
    ensures r.Some? ==> exists i, j :: ParamMatch(s, i, j) && r.value == s[i + 2..j]
    ensures r.Some? ==> r.value != [] && AllDigits(r.value)
    ensures r.None? ==> forall i, j :: !ParamMatch(s, i, j)
  {
    var t := BeforeEnd(s);
    var n := TrailingDigits(t);
    if 0 < n && n + 2 <= |t| && t[|t| - n - 2] == 'p' && t[|t| - n - 1] == '=' then
      assert t[|t| - n..] == s[|t| - n..|t|];
      assert ParamMatch(s, |t| - n - 2, |t|);
      Some(t[|t| - n..])
    else
      assert forall i, j :: !ParamMatch(s, i, j) by {
        forall i, j | ParamMatch(s, i, j) ensures false {
          ParamMatchEndsRun(s, i, j);
        }
      }
      None
  }

  /** Every match of the second pattern ends where the scan from the back puts it. */
  lemma ParamMatchEndsRun(s: string, i: int, j: int)
    requires ParamMatch(s, i, j)
    ensures BeforeEnd(s) == s[..j]
    ensures TrailingDigits(s[..j]) == j - i - 2 && s[i] == 'p' && s[i + 1] == '='
  {
    assert IsDigit(s[j - 1]) by { assert s[i + 2..j][j - i - 3] == s[j - 1]; }
    if j == |s| {
      assert BeforeEnd(s) == s;
    } else {
      assert BeforeEnd(s) == s[..j];
    }
    var t := s[..j];
    assert t[i + 2..] == s[i + 2..j];
    TrailingDigitsOfRun(t, i + 2);
  }

  /** All matches of the first pattern have the same group. */
  lemma SlashGroupUnique(s: string, i: int, j: int, i': int, j': int)
    requires SlashMatch(s, i, j) && SlashMatch(s, i', j')
    ensures s[i + 1..j] == s[i' + 1..j']
  {
    SlashMatchEndsRun(s, i, j);
    SlashMatchEndsRun(s, i', j');
    assert |s[..j]| == |s[..j']|;
  }

  /** All matches of the second pattern have the same group. */
  lemma ParamGroupUnique(s: string, i: int, j: int, i': int, j': int)
    requires ParamMatch(s, i, j) && ParamMatch(s, i', j')
    ensures s[i + 2..j] == s[i' + 2..j']
  {
    ParamMatchEndsRun(s, i, j);
    ParamMatchEndsRun(s, i', j');
    assert |s[..j]| == |s[..j']|;
  }

  /** `extract_id_from_url`. A match of `/(\d+)/?$` decides the result; only
      when there is none does `p=(\d+)$` get a chance; otherwise the sentinel.
      Each rule's group is the same for every match, so which match
      `re.search` reports does not matter. */
  function ExtractIdFromUrl(url: string): (r: string)
    ensures forall i, j :: SlashMatch(url, i, j) ==> r == url[i + 1..j]
    ensures (forall i, j :: !SlashMatch(url, i, j)) ==>
              forall i, j :: ParamMatch(url, i, j) ==> r == url[i + 2..j]
    ensures (forall i, j :: !SlashMatch(url, i, j) && !ParamMatch(url, i, j)) ==> r == NotFound
    ensures r == NotFound || (r != [] && AllDigits(r))
  {
    match SlashRule(url)
    case Some(id) =>
      var i', j' :| SlashMatch(url, i', j') && id == url[i' + 1..j'];
      forall i, j | SlashMatch(url, i, j) ensures id == url[i + 1..j] {
        SlashGroupUnique(url, i, j, i', j');
      }
      id
    case None =>
      match ParamRule(url)
      case Some(id) =>
        var i', j' :| ParamMatch(url, i', j') && id == url[i' + 2..j'];
        forall i, j | ParamMatch(url, i, j) ensures id == url[i + 2..j] {
          ParamGroupUnique(url, i, j, i', j');
        }
        id
      case None =>
        NotFoundHasNoDigit();
        NotFound
  }

  /** The results the identifier rules give on representative URLs. */
  lemma ExtractIdTrailingNumber()
    ensures ExtractIdFromUrl("https://x/licitacoes/12345/") == "12345"
  {
    var u := "https://x/licitacoes/12345/";
    assert u == "https://x/licitacoes/" + "12345" + "/";
    assert u[20] == '/' && u[21..26] == "12345" && u[26] == '/' && |u| == 27;
    assert SlashMatch(u, 20, 26);
  }

  lemma ExtractIdQueryParameter()
    ensures ExtractIdFromUrl("https://x/licitacoes/?p=99") == "99"
  {
    var u := "https://x/licitacoes/?p=99";
    assert TrailingDigits(u[..24]) == 0;
    assert TrailingDigits(u) == 2;
    assert SlashRule(u) == None;
  }

  lemma ExtractIdNoNumber()
    ensures ExtractIdFromUrl("https://x/nothing") == NotFound
  {
    var u := "https://x/nothing";
    assert TrailingDigits(u) == 0;
  }
}
