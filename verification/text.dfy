/** Character classes and the small pieces of Python string handling the scoring
    engine relies on: `str.split(sep)`, `str.split()`, decimal formatting and
    `int()` of a digit string, character filtering and `str.lower()`. */
module Text {

  /** `\d` restricted to the ASCII digits. */
  predicate IsDigit(c: char) {
    '0' <= c <= '9'
  }

  /** `\s` and `str.isspace()`: every character Python classes as whitespace. */
  predicate IsSpace(c: char) {
    || 9 <= c as int <= 13
    || 28 <= c as int <= 32
    || c as int == 0x85
    || c as int == 0xA0
    || c as int == 0x1680
    || 0x2000 <= c as int <= 0x200A
    || c as int == 0x2028
    || c as int == 0x2029
    || c as int == 0x202F
    || c as int == 0x205F
    || c as int == 0x3000
  }

  predicate IsNotSpace(c: char) {
    !IsSpace(c)
  }

  /** `str.isupper()` of a single character, for ASCII letters. */
  predicate IsUpper(c: char) {
    'A' <= c <= 'Z'
  }

  predicate IsLower(c: char) {
    'a' <= c <= 'z'
  }

  /** `\w` restricted to ASCII: letters, digits and the underscore. */
  predicate IsWordChar(c: char) {
    IsUpper(c) || IsLower(c) || IsDigit(c) || c == '_'
  }

  /** `str.lower()` of one character (ASCII letters only). */
  function LowerChar(c: char): (d: char)
    ensures !IsUpper(d)
    ensures IsUpper(c) ==> IsLower(d)
    ensures !IsUpper(c) ==> d == c
  {
    if IsUpper(c) then (c as int + 32) as char else c
  }

  /** `str.lower()`. */
  function Lower(s: string): (r: string)
    ensures |r| == |s|
    ensures forall k :: 0 <= k < |s| ==> r[k] == LowerChar(s[k])
  {
    seq(|s|, k requires 0 <= k < |s| => LowerChar(s[k]))
  }

  /** The characters of `s` that satisfy `keep`, in their original order. */
  function Filter(s: string, keep: char -> bool): (r: string)
    ensures |r| <= |s|
    ensures forall k :: 0 <= k < |r| ==> keep(r[k])
  {
    if |s| == 0 then ""
    else (if keep(s[0]) then [s[0]] else "") + Filter(s[1..], keep)
  }

  lemma {:induction false} FilterAppend(a: string, b: string, keep: char -> bool)
    ensures Filter(a + b, keep) == Filter(a, keep) + Filter(b, keep)
    decreases |a|
  {
    if |a| == 0 {
      assert a + b == b;
    } else {
      assert (a + b)[1..] == a[1..] + b;
      FilterAppend(a[1..], b, keep);
    }
  }

  /** Filtering keeps a string whose every character is kept unchanged. */
  lemma {:induction false} FilterAllKept(s: string, keep: char -> bool)
    requires forall k :: 0 <= k < |s| ==> keep(s[k])
    ensures Filter(s, keep) == s
    decreases |s|
  {
    if |s| > 0 {
      FilterAllKept(s[1..], keep);
    }
  }

  /** Filtering by a weaker test first changes nothing when the stronger test follows. */
  lemma {:induction false} FilterAbsorbs(s: string, outer: char -> bool, inner: char -> bool)
    requires forall c :: outer(c) ==> inner(c)
    ensures Filter(Filter(s, inner), outer) == Filter(s, outer)
    decreases |s|
  {
    if |s| > 0 {
      FilterAbsorbs(s[1..], outer, inner);
      var head := if inner(s[0]) then [s[0]] else "";
      FilterAppend(head, Filter(s[1..], inner), outer);
      if inner(s[0]) {
        assert Filter(head, outer) == if outer(s[0]) then [s[0]] else "" by {
          assert head[1..] == "";
        }
      }
    }
  }

  // ---------------------------------------------------------------------------
  // str.split(sep) and its inverse, sep.join(parts)

  /** Python's `s.split(sep)` for a one-character separator: never empty, and
      empty fields are kept (`"a//b"` gives `["a", "", "b"]`). */
  function Split(s: string, sep: char): (parts: seq<string>)
    ensures |parts| >= 1
    ensures forall i :: 0 <= i < |parts| ==> sep !in parts[i]
    ensures parts[0] <= s
    ensures |parts[0]| < |s| ==> s[|parts[0]|] == sep
    decreases |s|
  {
    if |s| == 0 then [""]
    else
      var rest := Split(s[1..], sep);
      if s[0] == sep then [""] + rest
      else [[s[0]] + rest[0]] + rest[1..]
  }

  /** Python's `sep.join(parts)`. */
  function Join(parts: seq<string>, sep: char): string
    requires |parts| >= 1
    decreases |parts|
  {
    if |parts| == 1 then parts[0] else parts[0] + [sep] + Join(parts[1..], sep)
  }

  /** Joining the fields of a split gives back the original string. */
  lemma {:induction false} JoinSplit(s: string, sep: char)
    ensures Join(Split(s, sep), sep) == s
    decreases |s|
  {
    if |s| > 0 {
      JoinSplit(s[1..], sep);
      var rest := Split(s[1..], sep);
      if s[0] != sep {
        var parts := Split(s, sep);
        assert parts[1..] == rest[1..];
        if |rest| > 1 {
          assert rest[1..][1..] == rest[2..];
        }
      }
    }
  }

  /** A field free of the separator splits to itself. */
  lemma {:induction false} SplitWithoutSeparator(w: string, sep: char)
    requires sep !in w
    ensures Split(w, sep) == [w]
    decreases |w|
  {
    if |w| > 0 {
      SplitWithoutSeparator(w[1..], sep);
      assert [w[0]] + w[1..] == w;
    }
  }

  /** A separator-free field followed by the separator splits off as the first field. */
  lemma {:induction false} SplitField(w: string, t: string, sep: char)
    requires sep !in w
    ensures Split(w + [sep] + t, sep) == [w] + Split(t, sep)
    decreases |w|
  {
    var s := w + [sep] + t;
    if |w| == 0 {
      assert s[1..] == t;
    } else {
      assert s[1..] == w[1..] + [sep] + t;
      SplitField(w[1..], t, sep);
      assert [w[0]] + w[1..] == w;
    }
  }

  /** Splitting a join of separator-free fields recovers the fields. */
  lemma {:induction false} SplitJoin(parts: seq<string>, sep: char)
    requires |parts| >= 1
    requires forall i :: 0 <= i < |parts| ==> sep !in parts[i]
    ensures Split(Join(parts, sep), sep) == parts
    decreases |parts|
  {
    if |parts| == 1 {
      SplitWithoutSeparator(parts[0], sep);
    } else {
      SplitJoin(parts[1..], sep);
      SplitField(parts[0], Join(parts[1..], sep), sep);
      assert [parts[0]] + parts[1..] == parts;
    }
  }

  // ---------------------------------------------------------------------------
  // Runs of characters and str.split()

  /** The end of the run of characters satisfying `p` that starts at `i`. */
  function RunEnd(s: string, i: nat, p: char -> bool): (j: nat)
    requires i <= |s|
    ensures i <= j <= |s|
    ensures forall k :: i <= k < j ==> p(s[k])
    ensures j == |s| || !p(s[j])
    decreases |s| - i
  {
    if i == |s| || !p(s[i]) then i else RunEnd(s, i + 1, p)
  }

  /** A run is determined by where it stops. */
  lemma RunEndAt(s: string, i: nat, p: char -> bool, j: nat)
    requires i <= j <= |s|
    requires forall k :: i <= k < j ==> p(s[k])
    requires j == |s| || !p(s[j])
    ensures RunEnd(s, i, p) == j
  {
  }

  /** Python's `s.split()` with no argument: the maximal runs of non-whitespace. */
  function Words(s: string): (ws: seq<string>)
    ensures forall k :: 0 <= k < |ws| ==> |ws[k]| > 0
    ensures forall k, m :: 0 <= k < |ws| && 0 <= m < |ws[k]| ==> !IsSpace(ws[k][m])
    decreases |s|
  {
    if |s| == 0 then []
    else if IsSpace(s[0]) then Words(s[1..])
    else
      var j := RunEnd(s, 0, IsNotSpace);
      [s[..j]] + Words(s[j..])
  }

  function Concat(ws: seq<string>): string {
    if |ws| == 0 then "" else ws[0] + Concat(ws[1..])
  }

  /** The words of `s`, put back together, are exactly its non-whitespace characters. */
  lemma {:induction false} WordsCoverText(s: string)
    ensures Concat(Words(s)) == Filter(s, IsNotSpace)
    decreases |s|
  {
    if |s| > 0 {
      if IsSpace(s[0]) {
        WordsCoverText(s[1..]);
      } else {
        var j := RunEnd(s, 0, IsNotSpace);
        WordsCoverText(s[j..]);
        assert s == s[..j] + s[j..];
        FilterAppend(s[..j], s[j..], IsNotSpace);
        FilterAllKept(s[..j], IsNotSpace);
      }
    }
  }

  /** A whitespace character always ends a word: splitting around it splits the
      text on either side separately. */
  lemma {:induction false} WordsSeparated(a: string, c: char, b: string)
    requires IsSpace(c)
    ensures Words(a + [c] + b) == Words(a) + Words(b)
    decreases |a|
  {
    var s := a + [c] + b;
    if |a| == 0 {
      assert s[1..] == b;
    } else if IsSpace(a[0]) {
      assert s[1..] == a[1..] + [c] + b;
      WordsSeparated(a[1..], c, b);
    } else {
      var j := RunEnd(a, 0, IsNotSpace);
      FirstWordSeparated(a, c, b, j);
      WordsSeparated(a[j..], c, b);
    }
  }

  /** The first word of `a + [c] + b`, for a whitespace `c` and an `a` that starts
      with a word, is the first word of `a`. */
  lemma FirstWordSeparated(a: string, c: char, b: string, j: nat)
    requires IsSpace(c) && 0 < |a| && !IsSpace(a[0])
    requires j == RunEnd(a, 0, IsNotSpace)
    ensures Words(a) == [a[..j]] + Words(a[j..])
    ensures Words(a + [c] + b) == [a[..j]] + Words(a[j..] + [c] + b)
  {
    var s := a + [c] + b;
    assert forall k :: 0 <= k < j ==> s[k] == a[k];
    assert s[j] == if j < |a| then a[j] else c;
    RunEndAt(s, 0, IsNotSpace, j);
    assert s[..j] == a[..j];
    assert s[j..] == a[j..] + [c] + b;
  }

  /** A non-empty string without whitespace is a single word. */
  lemma WordsOfWord(w: string)
    requires |w| > 0
    requires forall k :: 0 <= k < |w| ==> !IsSpace(w[k])
    ensures Words(w) == [w]
  {
    RunEndAt(w, 0, IsNotSpace, |w|);
    assert w[..|w|] == w;
    assert w[|w|..] == "";
  }

  /** `" ".join(ws).split() == ws` for non-empty words without whitespace. */
  lemma {:induction false} WordsOfJoin(ws: seq<string>)
    requires |ws| >= 1
    requires forall i :: 0 <= i < |ws| ==> |ws[i]| > 0
    requires forall i, k :: 0 <= i < |ws| && 0 <= k < |ws[i]| ==> !IsSpace(ws[i][k])
    ensures Words(Join(ws, ' ')) == ws
    decreases |ws|
  {
    WordsOfWord(ws[0]);
    if |ws| > 1 {
      WordsOfJoin(ws[1..]);
      WordsSeparated(ws[0], ' ', Join(ws[1..], ' '));
      assert [ws[0]] + ws[1..] == ws;
    }
  }

  // ---------------------------------------------------------------------------
  // Decimal numbers: f"{n}" and int(digits)

  function DigitChar(d: nat): (c: char)
    requires d < 10
    ensures IsDigit(c)
  {
    (48 + d) as char
  }

  /** f"{n}" for a non-negative integer: its decimal digits, without leading zeros. */
  function NatToString(n: nat): (s: string)
    ensures |s| > 0
    ensures forall k :: 0 <= k < |s| ==> IsDigit(s[k])
    decreases n
  {
    if n < 10 then [DigitChar(n)] else NatToString(n / 10) + [DigitChar(n % 10)]
  }

  /** int(s) for a string of decimal digits. */
  function DigitsValue(s: string): nat
    requires forall k :: 0 <= k < |s| ==> IsDigit(s[k])
    decreases |s|
  {
    if |s| == 0 then 0
    else
      assert IsDigit(s[|s| - 1]);
      DigitsValue(s[..|s| - 1]) * 10 + (s[|s| - 1] as int - '0' as int)
  }

  /** Reading back a formatted number gives the number. */
  lemma {:induction false} DigitsValueOfNatToString(n: nat)
    ensures DigitsValue(NatToString(n)) == n
    decreases n
  {
    var s := NatToString(n);
    if n < 10 {
      assert s[..0] == "";
    } else {
      DigitsValueOfNatToString(n / 10);
      assert s[..|s| - 1] == NatToString(n / 10);
    }
  }
}
