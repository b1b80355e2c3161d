/** `extract_monetary_value`: the leftmost match of
    `\d{1,3}(?:\.\d{3})*(?:,\d{1,2})?` in a text, written as a scanner over
    ASCII digits, with the grammar it accepts stated separately. */
module Monetary {
  import opened Text

  /** Zero or more thousands groups, each a `.` followed by three digits. */
  predicate DotGroups(g: string)
    decreases |g|
  {
    g == [] || (|g| >= 4 && g[0] == '.' && AllDigits(g[1..4]) && DotGroups(g[4..]))
  }

  /** The optional decimal part: a `,` and one or two digits. */
  predicate Cents(c: string) {
    c == [] || ((|c| == 2 || |c| == 3) && c[0] == ',' && AllDigits(c[1..]))
  }

  /** `t` splits into 1 to 3 leading digits `t[..h]`, thousands groups
      `t[h..k]` and a decimal part `t[k..]`. */
  predicate AmountSplit(t: string, h: int, k: int) {
    && 1 <= h <= 3 && h <= k <= |t|
    && AllDigits(t[..h]) && DotGroups(t[h..k]) && Cents(t[k..])
  }

  /** `t` is an amount in Brazilian notation: `D{1,3}(.DDD)*(,D{1,2})?`. */
  ghost predicate IsAmount(t: string) {
    exists h, k :: AmountSplit(t, h, k)
  }

  /** `\d{1,3}` from a digit at `i`, greedy: the end of its digits, at most three. */
  function HeadEnd(s: string, i: nat): (e: nat)
    requires i < |s| && IsDigit(s[i])
    ensures i < e <= i + 3 && e <= |s| && AllDigits(s[i..e])
    ensures e < i + 3 && e < |s| ==> !IsDigit(s[e])
  {
    if i + 1 < |s| && IsDigit(s[i + 1]) then
      if i + 2 < |s| && IsDigit(s[i + 2]) then i + 3 else i + 2
    else i + 1
  }

  /** One `\.\d{3}` starts at `p`. */
  predicate GroupAt(s: string, p: int) {
    0 <= p && p + 4 <= |s| && s[p] == '.' && IsDigit(s[p + 1]) && IsDigit(s[p + 2]) && IsDigit(s[p + 3])
  }

  /** `(?:\.\d{3})*` from `p`, greedy: where the last group it can take ends. */
  function GroupsEnd(s: string, p: nat): (e: nat)
    requires p <= |s|
    ensures p <= e <= |s| && DotGroups(s[p..e]) && !GroupAt(s, e)
    decreases |s| - p
  {
    if GroupAt(s, p) then
      var e := GroupsEnd(s, p + 4);
      assert s[p..e][4..] == s[p + 4..e];
      assert s[p..e][1..4] == s[p + 1..p + 4];
      e
    else
      p
  }

  /** `(?:,\d{1,2})?` from `p`, greedy. */
  function CentsEnd(s: string, p: nat): (e: nat)
    requires p <= |s|
    ensures p <= e <= |s| && Cents(s[p..e])
  {
    if p + 1 < |s| && s[p] == ',' && IsDigit(s[p + 1]) then
      if p + 2 < |s| && IsDigit(s[p + 2]) then p + 3 else p + 2
    else p
  }

  /** The end of the match the pattern makes from a digit at `i`: none of its
      parts ever has to give characters back, since all that follows each is
      optional. */
  function MatchEnd(s: string, i: nat): (e: nat)
    requires i < |s| && IsDigit(s[i])
    ensures i < e <= |s|
  {
    CentsEnd(s, GroupsEnd(s, HeadEnd(s, i)))
  }

  /** What the greedy scan takes from a digit is an amount. */
  lemma MatchEndIsAmount(s: string, i: nat)
    requires i < |s| && IsDigit(s[i])
    ensures IsAmount(s[i..MatchEnd(s, i)])
  {
    var e1 := HeadEnd(s, i);
    var e2 := GroupsEnd(s, e1);
    var e3 := CentsEnd(s, e2);
    var t := s[i..e3];
    assert t[..e1 - i] == s[i..e1];
    assert t[e1 - i..e2 - i] == s[e1..e2];
    assert t[e2 - i..] == s[e2..e3];
    assert AmountSplit(t, e1 - i, e2 - i);
  }

  /** The index of the first digit at or after `i`, or `|s|` when there is none. */
  function FirstDigit(s: string, i: nat): (k: nat)
    requires i <= |s|
    ensures i <= k <= |s| && (k < |s| ==> IsDigit(s[k]))
    ensures forall m :: i <= m < k ==> !IsDigit(s[m])
    decreases |s| - i
  {
    if i == |s| || IsDigit(s[i]) then i else FirstDigit(s, i + 1)
  }

  /** `i` is the position of the first digit of `s`. */
  predicate IsFirstDigit(s: string, i: int) {
    0 <= i < |s| && IsDigit(s[i]) && forall m :: 0 <= m < i ==> !IsDigit(s[m])
  }

  /** Thousands groups let the greedy scan skip straight over them. */
  lemma {:induction false} GroupsEndSkips(s: string, p: nat, q: nat)
    requires p <= q <= |s| && DotGroups(s[p..q])
    ensures GroupsEnd(s, p) == GroupsEnd(s, q)
    decreases q - p
  {
    if p < q {
      var g := s[p..q];
      assert g[1..4] == s[p + 1..p + 4];
      assert IsDigit(g[1..4][0]) && IsDigit(g[1..4][1]) && IsDigit(g[1..4][2]);
      assert GroupAt(s, p);
      assert g[4..] == s[p + 4..q];
      GroupsEndSkips(s, p + 4, q);
    }
  }

  /** The greedy `\d{1,3}` takes at least the leading digits of an amount,
      and when the amount goes on after them it stops exactly there. */
  lemma HeadOfAmount(s: string, i: nat, k: nat, h: int, m: int)
    requires i < k <= |s| && AmountSplit(s[i..k], h, m)
    ensures i + h <= HeadEnd(s, i)
    ensures h < k - i ==> HeadEnd(s, i) == i + h
  {
    var t := s[i..k];
    forall x | i <= x < i + h ensures IsDigit(s[x]) {
      assert s[x] == t[..h][x - i];
    }
    if h < |t| {
      // t[h] opens a thousands group or the decimal part, so it is no digit
      if h < m {
        assert t[h] == t[h..m][0];
      } else {
        assert t[h] == t[m..][0];
      }
      assert !IsDigit(s[i + h]);
    }
  }

  /** The greedy `(?:,\d{1,2})?` takes at least the decimal part of an amount. */
  lemma CentsOfAmount(s: string, p: nat, q: nat)
    requires p <= q <= |s| && Cents(s[p..q])
    ensures q <= CentsEnd(s, p)
  {
    var c := s[p..q];
    if c != [] {
      assert s[p] == c[0];
      assert s[p + 1] == c[1..][0];
      if |c| == 3 {
        assert s[p + 2] == c[1..][1];
      }
    }
  }

  /** The parts of a split amount, read off the text it was cut from. */
  lemma SplitInText(s: string, i: nat, k: nat, h: int, m: int)
    requires i < k <= |s| && AmountSplit(s[i..k], h, m)
    ensures DotGroups(s[i + h..i + m]) && Cents(s[i + m..k])
  {
    var t := s[i..k];
    assert forall x :: 0 <= x < m - h ==> s[i + h..i + m][x] == t[h..m][x];
    assert s[i + h..i + m] == t[h..m];
    assert forall x :: 0 <= x < k - i - m ==> s[i + m..k][x] == t[m..][x];
    assert s[i + m..k] == t[m..];
  }

  /** The greedy scan runs at least as far as any amount from `i` whose
      leading digits end at `p` and whose thousands groups end at `q`. */
  lemma ScanCoversSplit(s: string, i: nat, p: nat, q: nat, k: nat)
    requires i < p <= q <= k <= |s| && IsDigit(s[i])
    requires p <= HeadEnd(s, i) && (p < k ==> HeadEnd(s, i) == p)
    requires DotGroups(s[p..q]) && Cents(s[q..k])
    ensures k <= MatchEnd(s, i)
  {
    var e1 := HeadEnd(s, i);
    var g := GroupsEnd(s, e1);
    assert MatchEnd(s, i) == CentsEnd(s, g);
    if p < k {
      GroupsEndSkips(s, p, q);
      if q < k {
        assert s[q] == s[q..k][0];
        assert !GroupAt(s, q);
        CentsOfAmount(s, q, k);
      }
    }
  }

  /** No amount that starts at a digit `i` runs past the greedy match from `i`:
      the greedy match is the longest amount starting there. */
  lemma NoLongerAmount(s: string, i: nat, k: nat)
    requires i < k <= |s| && IsDigit(s[i]) && IsAmount(s[i..k])
    ensures k <= MatchEnd(s, i)
  {
    var h, m :| AmountSplit(s[i..k], h, m);
    HeadOfAmount(s, i, k, h, m);
    SplitInText(s, i, k, h, m);
    ScanCoversSplit(s, i, i + h, i + m, k);
  }

  /** `extract_monetary_value`: the sentinel when the text has no digit;
      otherwise the text from its first digit on, as far as the longest
      well-formed amount reaches. */
  function ExtractMonetaryValue(value: string): (r: string)
    ensures r == NotFound <==> !HasDigit(value)
    ensures forall i :: IsFirstDigit(value, i) ==>
              && i + |r| <= |value| && value[i..i + |r|] == r
              && IsAmount(r)
              && forall k :: i + |r| < k <= |value| ==> !IsAmount(value[i..k])
  {
    var i := FirstDigit(value, 0);
    if i == |value| then
      NotFoundHasNoDigit();
      NotFound
    else
      var e := MatchEnd(value, i);
      MatchEndIsAmount(value, i);
      var r := value[i..e];
      assert r[0] == value[i];
      NotFoundHasNoDigit();
      assert forall j :: IsFirstDigit(value, j) ==> j == i;
      forall k | e < k <= |value| ensures !IsAmount(value[i..k]) {
        if IsAmount(value[i..k]) {
          NoLongerAmount(value, i, k);
        }
      }
      r
  }

  /** Applying the extractor to its own result changes nothing, the sentinel
      included. */
  lemma ExtractMonetaryValueIdempotent(value: string)
    ensures ExtractMonetaryValue(ExtractMonetaryValue(value)) == ExtractMonetaryValue(value)
  {
    var r := ExtractMonetaryValue(value);
    if HasDigit(value) {
      var i := FirstDigit(value, 0);
      assert IsFirstDigit(value, i);
      assert r[0] == value[i];
      assert IsFirstDigit(r, 0);
      assert r[0..|r|] == r;
      NoLongerAmount(r, 0, |r|);
      assert MatchEnd(r, 0) == |r|;
    } else {
      NotFoundHasNoDigit();
    }
  }

  lemma ExtractMonetaryValueExample()
    ensures ExtractMonetaryValue("R$ 1.234,56 (estimado)") == "1.234,56"
  {
    var v := "R$ 1.234,56 (estimado)";
    assert v == "R$ " + "1.234,56" + " (estimado)";
    assert !IsDigit(v[0]) && !IsDigit(v[1]) && !IsDigit(v[2]) && IsDigit(v[3]);
    assert FirstDigit(v, 2) == 3;
    assert FirstDigit(v, 1) == 3;
    assert FirstDigit(v, 0) == 3;
    assert HeadEnd(v, 3) == 4;
    assert GroupAt(v, 4) && !GroupAt(v, 8);
    assert GroupsEnd(v, 8) == 8;
    assert GroupsEnd(v, 4) == 8;
    assert CentsEnd(v, 8) == 11;
    assert MatchEnd(v, 3) == 11;
    assert v[3..11] == "1.234,56";
  }

  lemma ExtractMonetaryValueNoDigits()
    ensures ExtractMonetaryValue("indisponível") == NotFound
  {
    var v := "indisponível";
    assert !HasDigit(v);
  }
}
