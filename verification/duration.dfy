/** The project duration as text, "<Y> years and <M> months", and the reading of
    the year and month numbers back out of such text with the patterns
    `(\d+)\s+years?` and `(\d+)\s+months?`. */
module Duration {
  import opened Text
  import opened Results

  /** The literal part of the year pattern. The optional plural `s` never changes
      whether or where a match starts, nor the captured number, so it is left out. */
  const YearWord := "year"
  const MonthWord := "month"

  /** The duration column of a repository's analysis record. */
  function DurationText(years: nat, months: nat): string {
    NatToString(years) + Separator + NatToString(months) + " months"
  }

  /** `(\d+)\s+<word>` matches starting at `p`. Both runs are taken maximally: giving
      back a digit would leave a digit where whitespace is needed, and giving back
      whitespace would leave whitespace where the word must start, so no shorter
      choice can succeed where the maximal one fails. */
  predicate MatchesAt(s: string, p: nat, word: string) {
    && p < |s|
    && IsDigit(s[p])
    && var q := RunEnd(s, p, IsDigit);
       var r := RunEnd(s, q, IsSpace);
       q < r && word <= s[r..]
  }

  /** `re.search`: the leftmost position at or after `from` where a match starts. */
  function Search(s: string, word: string, from: nat): (r: Option<nat>)
    requires from <= |s|
    ensures r.Some? ==> from <= r.value < |s| && MatchesAt(s, r.value, word)
    ensures r.Some? ==> forall p :: from <= p < r.value ==> !MatchesAt(s, p, word)
    ensures r.None? ==> forall p :: from <= p < |s| ==> !MatchesAt(s, p, word)
    decreases |s| - from
  {
    if from == |s| then None
    else if MatchesAt(s, from, word) then Some(from)
    else Search(s, word, from + 1)
  }

  /** `int(m.group(1)) if m else 0`: the number in front of the first match, or 0. */
  function NumberBefore(s: string, word: string): (n: nat)
    ensures (forall p :: 0 <= p < |s| ==> !MatchesAt(s, p, word)) ==> n == 0
  {
    match Search(s, word, 0)
    case None => 0
    case Some(p) =>
      var q := RunEnd(s, p, IsDigit);
      assert forall k :: 0 <= k < q - p ==> s[p..q][k] == s[p + k];
      DigitsValue(s[p..q])
  }

  /** The duration in fractional years, `years + months / 12`, read from the text;
      a missing number counts as 0. */
  function TotalYears(text: string): real {
    NumberBefore(text, YearWord) as real + NumberBefore(text, MonthWord) as real / 12.0
  }

  // ---------------------------------------------------------------------------
  // Reading back what DurationText wrote

  predicate AllDigits(s: string) {
    forall k :: 0 <= k < |s| ==> IsDigit(s[k])
  }

  /** A digit run from `p` to `q`, one space, then `word`: a match at `p` capturing `s[p..q]`. */
  lemma MatchAfterDigits(s: string, p: nat, q: nat, word: string)
    requires p < q < |s| - 1
    requires forall k :: p <= k < q ==> IsDigit(s[k])
    requires s[q] == ' ' && |word| > 0 && !IsSpace(word[0])
    requires word <= s[q + 1..]
    ensures RunEnd(s, p, IsDigit) == q
    ensures MatchesAt(s, p, word)
  {
    RunEndAt(s, p, IsDigit, q);
    assert s[q + 1] == s[q + 1..][0] == word[0];
    RunEndAt(s, q, IsSpace, q + 1);
  }

  /** A digit run from `p` to `q`, one space, then a character that does not start `word`:
      no match at `p`. */
  lemma NoMatchAfterDigits(s: string, p: nat, q: nat, word: string)
    requires p < q < |s| - 1
    requires forall k :: p <= k < q ==> IsDigit(s[k])
    requires s[q] == ' ' && |word| > 0 && !IsSpace(s[q + 1]) && s[q + 1] != word[0]
    ensures !MatchesAt(s, p, word)
  {
    RunEndAt(s, p, IsDigit, q);
    RunEndAt(s, q, IsSpace, q + 1);
    assert s[q + 1..][0] == s[q + 1];
  }

  /** A match with no match before it is the one `re.search` finds. */
  lemma SearchFinds(s: string, word: string, p: nat)
    requires MatchesAt(s, p, word)
    requires forall q :: 0 <= q < p ==> !MatchesAt(s, q, word)
    ensures Search(s, word, 0) == Some(p)
  {
  }

  const Separator := " years and "

  lemma SeparatorHasNoDigit()
    ensures forall k :: 0 <= k < |Separator| ==> !IsDigit(Separator[k])
  {
  }

  lemma FindsYearNumber(y: string, m: string)
    requires |y| > 0 && AllDigits(y)
    ensures var s := y + Separator + m + " months";
      Search(s, YearWord, 0) == Some(0) && RunEnd(s, 0, IsDigit) == |y|
  {
    var s := y + Separator + m + " months";
    var a := |y|;
    assert s[a + 1..][..4] == "year";
    MatchAfterDigits(s, 0, a, YearWord);
    SearchFinds(s, YearWord, 0);
  }

  /** A number followed by " months" matches the month pattern, whatever precedes it. */
  lemma MonthNumberMatches(s: string, start: nat, m: string)
    requires |m| > 0 && AllDigits(m)
    requires start + |m| <= |s| && s[start..start + |m|] == m && s[start + |m|..] == " months"
    ensures MatchesAt(s, start, MonthWord) && RunEnd(s, start, IsDigit) == start + |m|
  {
    var b := |m|;
    assert forall k :: start <= k < start + b ==> s[k] == s[start..start + b][k - start];
    assert s[start + b] == s[start + b..][0];
    assert s[start + b + 1..] == s[start + b..][1..];
    MatchAfterDigits(s, start, start + b, MonthWord);
  }

  /** No month match starts before the month number: the year digits run into
      " years", and the separator holds no digit. */
  lemma NoMonthMatchBefore(y: string, m: string)
    requires |y| > 0 && AllDigits(y)
    ensures var s := y + Separator + m + " months";
      forall p :: 0 <= p < |y| + 11 ==> !MatchesAt(s, p, MonthWord)
  {
    var s := y + Separator + m + " months";
    var a := |y|;
    SeparatorHasNoDigit();
    forall p | 0 <= p < a + 11
      ensures !MatchesAt(s, p, MonthWord)
    {
      if p < a {
        assert s[a] == ' ' && s[a + 1] == 'y';
        NoMatchAfterDigits(s, p, a, MonthWord);
      } else {
        assert s[p] == Separator[p - a];
      }
    }
  }

  lemma FindsMonthNumber(y: string, m: string)
    requires |y| > 0 && AllDigits(y)
    requires |m| > 0 && AllDigits(m)
    ensures var s := y + Separator + m + " months";
      Search(s, MonthWord, 0) == Some(|y| + 11) && RunEnd(s, |y| + 11, IsDigit) == |y| + 11 + |m|
  {
    var s := y + Separator + m + " months";
    assert s[|y| + 11..|y| + 11 + |m|] == m;
    assert s[|y| + 11 + |m|..] == " months";
    MonthNumberMatches(s, |y| + 11, m);
    NoMonthMatchBefore(y, m);
    SearchFinds(s, MonthWord, |y| + 11);
  }

  /** Reading a duration text back recovers the years and the months it was written from. */
  lemma DurationTextRoundTrip(years: nat, months: nat)
    ensures NumberBefore(DurationText(years, months), YearWord) == years
    ensures NumberBefore(DurationText(years, months), MonthWord) == months
  {
    var s, y, m := DurationText(years, months), NatToString(years), NatToString(months);
    var start := |y| + 11;
    FindsYearNumber(y, m);
    FindsMonthNumber(y, m);
    assert s[0..|y|] == y;
    assert s[start..start + |m|] == m;
    DigitsValueOfNatToString(years);
    DigitsValueOfNatToString(months);
  }

  /** The fractional duration read from the text is `years + months / 12`. */
  lemma TotalYearsOfDurationText(years: nat, months: nat)
    ensures TotalYears(DurationText(years, months)) == years as real + months as real / 12.0
  {
    DurationTextRoundTrip(years, months);
  }

  /** "<Y> years" with no month part: the months count as 0. */
  lemma YearsOnlyText(years: nat)
    ensures TotalYears(NatToString(years) + " years") == years as real
  {
    var y := NatToString(years);
    var s := y + " years";
    var a := |y|;
    assert s[a + 1..] == "years";
    MatchAfterDigits(s, 0, a, YearWord);
    SearchFinds(s, YearWord, 0);
    assert s[0..a] == y;
    DigitsValueOfNatToString(years);
    forall p | 0 <= p < |s|
      ensures !MatchesAt(s, p, MonthWord)
    {
      if p < a {
        NoMatchAfterDigits(s, p, a, MonthWord);
      } else {
        assert s[p] == " years"[p - a];
      }
    }
  }

  /** "<M> months" with no year part: the years count as 0. */
  lemma MonthsOnlyText(months: nat)
    ensures TotalYears(NatToString(months) + " months") == months as real / 12.0
  {
    var m := NatToString(months);
    var s := m + " months";
    var b := |m|;
    assert s[0..b] == m && s[b..] == " months";
    MonthNumberMatches(s, 0, m);
    SearchFinds(s, MonthWord, 0);
    DigitsValueOfNatToString(months);
    NoYearInMonthsText(m);
  }

  lemma NoYearInMonthsText(m: string)
    requires |m| > 0 && AllDigits(m)
    ensures forall p :: 0 <= p < |m + " months"| ==> !MatchesAt(m + " months", p, YearWord)
  {
    var s := m + " months";
    var b := |m|;
    forall p | 0 <= p < |s|
      ensures !MatchesAt(s, p, YearWord)
    {
      if p < b {
        assert s[b] == ' ' && s[b + 1] == 'm';
        NoMatchAfterDigits(s, p, b, YearWord);
      } else {
        assert s[p] == " months"[p - b];
      }
    }
  }

  /** Text without any number followed by whitespace and a unit reads as zero years. */
  lemma TotalYearsWithoutNumbers(text: string)
    requires forall k :: 0 <= k < |text| ==> !IsDigit(text[k])
    ensures TotalYears(text) == 0.0
  {
  }
}
