/**
 * The pure computations of the document editor: the word count and spoken-length
 * estimate shown under the document, and the relative "Edited ..." age shown in
 * the document list.
 */
module EditorMetrics {
  import opened Wrappers
  import opened Strings

  /* ---------------------------------------------------------------------------
   * Word count: `text.trim().split(/\s+/).filter(Boolean).length`
   * ------------------------------------------------------------------------- */

  /** The first white-space position at or after `from`, or `|s|`. */
  function FirstWhitespace(s: string, from: nat): (i: nat)
    requires from <= |s|
    ensures from <= i <= |s|
    ensures i < |s| ==> IsWhitespace(s[i])
    ensures forall k :: from <= k < i ==> !IsWhitespace(s[k])
    decreases |s| - from
  {
    if from == |s| || IsWhitespace(s[from]) then from else FirstWhitespace(s, from + 1)
  }

  /** The end of the run of white space starting at `from`. */
  function SkipWhitespace(s: string, from: nat): (j: nat)
    requires from <= |s|
    ensures from <= j <= |s|
    ensures j < |s| ==> !IsWhitespace(s[j])
    ensures forall k :: from <= k < j ==> IsWhitespace(s[k])
    decreases |s| - from
  {
    if from < |s| && IsWhitespace(s[from]) then SkipWhitespace(s, from + 1) else from
  }

  /** `s.split(/\s+/)`: the pieces between maximal runs of white space, including an
      empty first (last) piece when `s` starts (ends) with white space. */
  function SplitWhitespace(s: string): (parts: seq<string>)
    ensures |parts| >= 1
    ensures forall k :: 0 <= k < |parts| ==> NoWhitespace(parts[k])
    decreases |s|
  {
    var i := FirstWhitespace(s, 0);
    if i == |s| then [s]
    else [s[..i]] + SplitWhitespace(s[SkipWhitespace(s, i)..])
  }

  /** `parts.filter(Boolean)`: the non-empty pieces, in order. */
  function NonEmpty(parts: seq<string>): (r: seq<string>)
    ensures |r| <= |parts|
    ensures forall k :: 0 <= k < |r| ==> r[k] != [] && r[k] in parts
  {
    if parts == [] then []
    else if parts[0] == [] then NonEmpty(parts[1..])
    else [parts[0]] + NonEmpty(parts[1..])
  }

  function Concat(parts: seq<string>): string {
    if parts == [] then [] else parts[0] + Concat(parts[1..])
  }

  /** The words of a text, as the editor counts them. */
  function Words(text: string): (words: seq<string>) {
    NonEmpty(SplitWhitespace(Trim(text)))
  }

  function WordCount(text: string): (n: nat) {
    |Words(text)|
  }

  lemma {:induction false} ConcatCons(a: string, rest: seq<string>)
    ensures Concat([a] + rest) == a + Concat(rest)
  {
    assert ([a] + rest)[1..] == rest;
  }

  /** Removing white space from a non-white-space run, a white-space run and a rest. */
  lemma RemoveWhitespaceAtRun(s: string, i: nat, j: nat)
    requires i <= j <= |s|
    requires NoWhitespace(s[..i]) && AllWhitespace(s[i..j])
    ensures RemoveWhitespace(s) == s[..i] + RemoveWhitespace(s[j..])
  {
    var head, run, rest := s[..i], s[i..j], s[j..];
    assert s == (head + run) + rest;
    RemoveWhitespaceAppend(head + run, rest);
    RemoveWhitespaceAppend(head, run);
    RemoveWhitespaceOfNoWhitespace(head);
    RemoveWhitespaceOfAllWhitespace(run);
    assert head + [] == head;
  }

  lemma {:induction false} SplitCoversText(s: string)
    ensures Concat(SplitWhitespace(s)) == RemoveWhitespace(s)
    decreases |s|
  {
    var i := FirstWhitespace(s, 0);
    if i == |s| {
      assert NoWhitespace(s);
      RemoveWhitespaceOfNoWhitespace(s);
      assert Concat([s]) == s + Concat([]);
    } else {
      var j := SkipWhitespace(s, i);
      SplitCoversText(s[j..]);
      assert NoWhitespace(s[..i]);
      assert AllWhitespace(s[i..j]);
      RemoveWhitespaceAtRun(s, i, j);
      ConcatCons(s[..i], SplitWhitespace(s[j..]));
    }
  }

  lemma {:induction false} NonEmptyKeepsConcat(parts: seq<string>)
    ensures Concat(NonEmpty(parts)) == Concat(parts)
  {
    if parts != [] {
      NonEmptyKeepsConcat(parts[1..]);
      if parts[0] != [] {
        ConcatCons(parts[0], NonEmpty(parts[1..]));
      } else {
        assert Concat(parts) == [] + Concat(parts[1..]);
      }
    }
  }

  /** Every counted word is a non-empty run of non-white-space characters, and
      together the words hold exactly the text's non-white-space characters, in
      order. */
  lemma WordsCoverText(text: string)
    ensures forall k :: 0 <= k < |Words(text)| ==> Words(text)[k] != [] && NoWhitespace(Words(text)[k])
    ensures Concat(Words(text)) == RemoveWhitespace(text)
  {
    NonEmptyKeepsConcat(SplitWhitespace(Trim(text)));
    SplitCoversText(Trim(text));
    RemoveWhitespaceOfTrim(text);
  }

  lemma {:induction false} RemoveWhitespaceEmptyIff(s: string)
    ensures RemoveWhitespace(s) == [] <==> AllWhitespace(s)
  {
    if s != [] {
      RemoveWhitespaceEmptyIff(s[1..]);
      if IsWhitespace(s[0]) {
        assert AllWhitespace(s) <==> AllWhitespace(s[1..]) by {
          assert forall k :: 1 <= k < |s| ==> s[k] == s[1..][k - 1];
        }
      }
    }
  }

  lemma {:induction false} ConcatEmptyIff(parts: seq<string>)
    requires forall k :: 0 <= k < |parts| ==> parts[k] != []
    ensures Concat(parts) == [] <==> parts == []
  {
    if parts != [] {
      assert |Concat(parts)| >= |parts[0]|;
    }
  }

  /** A text has no words exactly when it is blank. */
  lemma NoWordsIffBlank(text: string)
    ensures WordCount(text) == 0 <==> AllWhitespace(text)
  {
    WordsCoverText(text);
    ConcatEmptyIff(Words(text));
    RemoveWhitespaceEmptyIff(text);
  }

  /** Words separated by single spaces. */
  function JoinWords(words: seq<string>): string
    decreases |words|
  {
    if words == [] then []
    else if |words| == 1 then words[0]
    else words[0] + " " + JoinWords(words[1..])
  }

  predicate AreWords(words: seq<string>) {
    forall k :: 0 <= k < |words| ==> words[k] != [] && NoWhitespace(words[k])
  }

  lemma {:induction false} JoinWordsEnds(words: seq<string>)
    requires AreWords(words) && words != []
    ensures var j := JoinWords(words); j != [] && !IsWhitespace(j[0]) && !IsWhitespace(j[|j| - 1])
    decreases |words|
  {
    if |words| > 1 {
      assert AreWords(words[1..]) by {
        assert forall k :: 0 <= k < |words| - 1 ==> words[1..][k] == words[k + 1];
      }
      JoinWordsEnds(words[1..]);
    }
  }

  /** A word, one space and a text starting with a non-white-space character
      split into the word followed by the pieces of that text. */
  lemma SplitAtSingleSpace(w: string, tail: string)
    requires w != [] && NoWhitespace(w)
    requires tail != [] && !IsWhitespace(tail[0])
    ensures SplitWhitespace(w + " " + tail) == [w] + SplitWhitespace(tail)
  {
    var s := w + " " + tail;
    var i := FirstWhitespace(s, 0);
    assert s[|w|] == ' ';
    assert i == |w| by {
      assert forall k :: 0 <= k < |w| ==> s[k] == w[k];
    }
    var j := SkipWhitespace(s, i);
    assert j == |w| + 1 by {
      assert s[|w| + 1] == tail[0];
    }
    assert s[..i] == w;
    assert s[j..] == tail;
  }

  lemma {:induction false} SplitJoinWords(words: seq<string>)
    requires AreWords(words) && words != []
    ensures SplitWhitespace(JoinWords(words)) == words
    decreases |words|
  {
    if |words| == 1 {
      var s := JoinWords(words);
      assert NoWhitespace(s);
      assert FirstWhitespace(s, 0) == |s|;
    } else {
      var rest := words[1..];
      assert AreWords(rest) by {
        assert forall k :: 0 <= k < |rest| ==> rest[k] == words[k + 1];
      }
      JoinWordsEnds(rest);
      SplitAtSingleSpace(words[0], JoinWords(rest));
      SplitJoinWords(rest);
      assert words == [words[0]] + rest;
    }
  }

  lemma {:induction false} NonEmptyOfWords(words: seq<string>)
    requires AreWords(words)
    ensures NonEmpty(words) == words
  {
    if words != [] {
      assert AreWords(words[1..]) by {
        assert forall k :: 0 <= k < |words| - 1 ==> words[1..][k] == words[k + 1];
      }
      NonEmptyOfWords(words[1..]);
    }
  }

  /** Counting recovers exactly the words a text was written with when they are
      separated by single spaces: the words of `w1 w2 ... wn` are `w1, ..., wn`. */
  lemma WordsOfJoinedWords(words: seq<string>)
    requires AreWords(words)
    ensures Words(JoinWords(words)) == words
    ensures WordCount(JoinWords(words)) == |words|
  {
    if words == [] {
      assert Trim([]) == [];
      assert SplitWhitespace([]) == [[]];
    } else {
      var s := JoinWords(words);
      JoinWordsEnds(words);
      TrimOfTrimmed(s);
      SplitJoinWords(words);
      NonEmptyOfWords(words);
    }
  }

  /** A word starts at `k`: a non-white-space character at the start of the text or
      right after white space. */
  predicate WordStartsAt(s: string, k: nat) {
    k < |s| && !IsWhitespace(s[k]) && (k == 0 || IsWhitespace(s[k - 1]))
  }

  /** The number of word starts at positions `from` and later. */
  function WordStartsFrom(s: string, from: nat): nat
    requires from <= |s|
    decreases |s| - from
  {
    if from == |s| then 0
    else (if WordStartsAt(s, from) then 1 else 0) + WordStartsFrom(s, from + 1)
  }

  /** The number of maximal runs of non-white-space characters in a text, counted
      by where they begin: the reference for what a word count should be. */
  function WordStarts(s: string): nat {
    WordStartsFrom(s, 0)
  }

  lemma {:induction false} NoStartsBetween(s: string, a: nat, b: nat)
    requires a <= b <= |s|
    requires forall k :: a <= k < b ==> !WordStartsAt(s, k)
    ensures WordStartsFrom(s, a) == WordStartsFrom(s, b)
    decreases b - a
  {
    if a < b {
      NoStartsBetween(s, a + 1, b);
    }
  }

  /** Past a white-space character the count does not depend on what precedes it. */
  lemma {:induction false} StartsAfterWhitespace(s: string, j: nat, m: nat)
    requires 0 < j <= m <= |s| && IsWhitespace(s[j - 1])
    ensures WordStartsFrom(s, m) == WordStartsFrom(s[j..], m - j)
    decreases |s| - m
  {
    if m < |s| {
      StartsAfterWhitespace(s, j, m + 1);
      assert s[j..][m - j] == s[m];
      if m > j {
        assert s[j..][m - j - 1] == s[m - 1];
      }
      assert WordStartsAt(s, m) == WordStartsAt(s[j..], m - j);
    }
  }

  /** The starts in a prefix plus the starts from its end on are all the starts. */
  lemma {:induction false} StartsOfPrefix(s: string, m: nat, from: nat)
    requires from <= m <= |s|
    ensures WordStartsFrom(s, from) == WordStartsFrom(s[..m], from) + WordStartsFrom(s, m)
    decreases m - from
  {
    if from < m {
      StartsOfPrefix(s, m, from + 1);
      assert s[..m][from] == s[from];
      if from > 0 {
        assert s[..m][from - 1] == s[from - 1];
      }
      assert WordStartsAt(s, from) == WordStartsAt(s[..m], from);
    }
  }

  lemma NonEmptyCons(a: string, rest: seq<string>)
    ensures |NonEmpty([a] + rest)| == (if a == [] then 0 else 1) + |NonEmpty(rest)|
  {
    assert ([a] + rest)[1..] == rest;
  }

  /** `split(/\s+/).filter(Boolean)` keeps one piece per word start. */
  lemma {:induction false} SplitCountsStarts(s: string)
    ensures |NonEmpty(SplitWhitespace(s))| == WordStarts(s)
    decreases |s|
  {
    var i := FirstWhitespace(s, 0);
    assert forall k :: 1 <= k < i ==> !WordStartsAt(s, k);
    if i == |s| {
      if s == [] {
        assert NonEmpty([[]]) == [];
      } else {
        NoStartsBetween(s, 1, |s|);
        assert WordStartsAt(s, 0);
        NonEmptyCons(s, []);
      }
    } else {
      var j := SkipWhitespace(s, i);
      assert SplitWhitespace(s) == [s[..i]] + SplitWhitespace(s[j..]);
      SplitCountsStarts(s[j..]);
      NonEmptyCons(s[..i], SplitWhitespace(s[j..]));
      if i > 0 {
        NoStartsBetween(s, 1, i);
        assert WordStartsAt(s, 0);
      }
      NoStartsBetween(s, i, j);
      StartsAfterWhitespace(s, j, j);
    }
  }

  /** Leading white space holds no word start. */
  lemma StartsAfterLeadingWhitespace(s: string, i: nat)
    requires i <= |s| && AllWhitespace(s[..i])
    ensures WordStarts(s) == WordStarts(s[i..])
  {
    assert forall k :: 0 <= k < i ==> IsWhitespace(s[..i][k]);
    NoStartsBetween(s, 0, i);
    if i > 0 {
      StartsAfterWhitespace(s, i, i);
    } else {
      assert s[i..] == s;
    }
  }

  /** Trailing white space holds no word start. */
  lemma StartsBeforeTrailingWhitespace(t: string, m: nat)
    requires m <= |t| && AllWhitespace(t[m..])
    ensures WordStarts(t) == WordStarts(t[..m])
  {
    StartsOfPrefix(t, m, 0);
    forall k | m <= k < |t|
      ensures !WordStartsAt(t, k)
    {
      assert t[k] == t[m..][k - m];
    }
    NoStartsBetween(t, m, |t|);
  }

  /** White space on both sides of a slice holds no word start. */
  lemma StartsOfFlankedSlice(s: string, i: nat, j: nat)
    requires i <= j <= |s|
    requires AllWhitespace(s[..i]) && AllWhitespace(s[j..])
    ensures WordStarts(s) == WordStarts(s[i..j])
  {
    StartsAfterLeadingWhitespace(s, i);
    var t := s[i..];
    assert t[j - i..] == s[j..];
    StartsBeforeTrailingWhitespace(t, j - i);
    assert t[..j - i] == s[i..j];
  }

  /** Trimming removes no word start. */
  lemma TrimKeepsStarts(s: string)
    ensures WordStarts(Trim(s)) == WordStarts(s)
  {
    var i, j := TrimBounds(s);
    StartsOfFlankedSlice(s, i, j);
  }

  /** The word count is the number of maximal runs of non-white-space characters,
      however the words are spaced: `"ab  c"` has two words. */
  lemma WordCountIsWordStarts(text: string)
    ensures WordCount(text) == WordStarts(text)
  {
    SplitCountsStarts(Trim(text));
    TrimKeepsStarts(text);
  }

  /** Two spaces separate two words, not three. */
  lemma DoubleSpaceSeparatesTwoWords()
    ensures WordCount("ab  c") == 2
  {
    var s := "ab  c";
    assert s[0] == 'a' && s[1] == 'b' && s[2] == ' ' && s[3] == ' ' && s[4] == 'c';
    assert WordStartsFrom(s, 4) == 1;
    assert WordStartsFrom(s, 1) == 1;
    assert WordStartsFrom(s, 0) == 2;
    WordCountIsWordStarts(s);
  }

  /* ---------------------------------------------------------------------------
   * Spoken-length estimate at 150 words per minute
   * ------------------------------------------------------------------------- */

  datatype Duration = Duration(minutes: nat, seconds: nat)

  /** `Math.floor(words / 150)` minutes and `Math.floor((words % 150) / 2.5)`
      seconds. The quotient by 2.5 is exact in binary floating point whenever it
      is a whole number, so its floor is the integer `2 * (words % 150) / 5`. */
  function EstimateDuration(words: nat): (d: Duration)
    ensures d.seconds < 60
    ensures 60 * d.minutes + d.seconds == (2 * words) / 5
  {
    var q, r := words / 150, words % 150;
    assert words == 150 * q + r;
    assert 2 * words == 5 * (60 * q) + 2 * r;
    Duration(q, (2 * r) / 5)
  }

  /** `seconds.toString().padStart(2, "0")`. */
  function PadTwo(digits: string): string {
    if |digits| >= 2 then digits else seq(2 - |digits|, _ => '0') + digits
  }

  lemma NatToStringLength(n: nat)
    ensures n < 10 ==> |NatToString(n)| == 1
    ensures 10 <= n < 100 ==> |NatToString(n)| == 2
  {
  }

  /** The `m:ss` label. */
  function DurationLabel(d: Duration): string {
    NatToString(d.minutes) + ":" + PadTwo(NatToString(d.seconds))
  }

  /** The label is the minutes, a colon and exactly two digits whose value is the
      seconds; reading it back gives the estimate. */
  lemma DurationLabelReadsBack(words: nat)
    ensures var d := EstimateDuration(words);
      var shown := DurationLabel(d);
      var k := |NatToString(d.minutes)|;
      |shown| == k + 3 && shown[k] == ':'
      && IsDigits(shown[..k]) && DigitsValue(shown[..k]) == d.minutes
      && IsDigits(shown[k + 1..]) && DigitsValue(shown[k + 1..]) == d.seconds
  {
    var d := EstimateDuration(words);
    var shown := DurationLabel(d);
    var k := |NatToString(d.minutes)|;
    PadTwoReadsBack(d.seconds);
    assert shown[..k] == NatToString(d.minutes);
    assert shown[k + 1..] == PadTwo(NatToString(d.seconds));
  }

  /** A number below 100, padded to two digits, reads back as itself. */
  lemma PadTwoReadsBack(n: nat)
    requires n < 100
    ensures var pad := PadTwo(NatToString(n));
      |pad| == 2 && IsDigits(pad) && DigitsValue(pad) == n
  {
    NatToStringLength(n);
    var sec := NatToString(n);
    var pad := PadTwo(sec);
    if n < 10 {
      assert pad == "0" + sec;
      assert pad[..1] == "0";
      assert DigitsValue(pad[..1]) == DigitsValue(pad[..0]) * 10 + 0;
    }
  }

  /* ---------------------------------------------------------------------------
   * Relative age of a document: formatDate
   * ------------------------------------------------------------------------- */

  const MinuteMs: nat := 60 * 1000
  const HourMs: nat := 60 * 60 * 1000
  const DayMs: nat := 24 * 60 * 60 * 1000
  const WeekMs: nat := 7 * 24 * 60 * 60 * 1000

  datatype Unit = Minute | Hour | Day

  /** The bucket a time difference (in milliseconds, possibly negative) falls in. */
  datatype Age = JustNow | Ago(count: nat, unit: Unit) | OverAWeek

  function UnitMs(u: Unit): nat {
    match u
    case Minute => MinuteMs
    case Hour => HourMs
    case Day => DayMs
  }

  /** The age buckets: under a minute (negative differences included) is "just now";
      then whole minutes below an hour, whole hours below a day, whole days below a
      week; the count is the floor of the difference in that unit. */
  function AgeOf(diff: int): (a: Age)
    ensures a == JustNow <==> diff < MinuteMs
    ensures a.Ago? && a.unit == Minute <==> MinuteMs <= diff < HourMs
    ensures a.Ago? && a.unit == Hour <==> HourMs <= diff < DayMs
    ensures a.Ago? && a.unit == Day <==> DayMs <= diff < WeekMs
    ensures a == OverAWeek <==> WeekMs <= diff
    ensures a.Ago? ==> 1 <= a.count && a.count * UnitMs(a.unit) <= diff < (a.count + 1) * UnitMs(a.unit)
  {
    if diff < MinuteMs then JustNow
    else if diff < HourMs then Ago(diff / MinuteMs, Minute)
    else if diff < DayMs then Ago(diff / HourMs, Hour)
    else if diff < WeekMs then Ago(diff / DayMs, Day)
    else OverAWeek
  }

  function UnitName(u: Unit): string {
    match u
    case Minute => "minute"
    case Hour => "hour"
    case Day => "day"
  }

  /** The text of an age below a week; `None` for a week or more, where the source
      prints the date in the browser's locale. */
  function AgeText(a: Age): Option<string> {
    match a
    case JustNow => Some("Just now")
    case Ago(n, u) => Some(NatToString(n) + " " + UnitName(u) + (if n != 1 then "s" else "") + " ago")
    case OverAWeek => None
  }

  function FormatDate(diff: int): (age: Option<string>) {
    AgeText(AgeOf(diff))
  }

  /** A relative age text is plural ("... minutes ago") exactly when its count is not 1. */
  lemma PluralExactlyWhenCountIsNotOne(diff: int)
    requires MinuteMs <= diff < WeekMs
    ensures var a := AgeOf(diff);
      var t := FormatDate(diff).value;
      FormatDate(diff).Some? && |t| >= 5
      && (t[|t| - 5..] == "s ago" <==> a.count != 1)
  {
    var a := AgeOf(diff);
    var t := FormatDate(diff).value;
    var name := UnitName(a.unit);
    if a.count != 1 {
      assert t == (NatToString(a.count) + " " + name + "s") + " ago";
      assert t[|t| - 5..] == "s ago";
    } else {
      assert t == (NatToString(a.count) + " " + name) + " ago";
      assert t[|t| - 5] == name[|name| - 1];
    }
  }
}
