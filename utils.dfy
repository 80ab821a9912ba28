/** The string and number formatting helpers of the application's utility
    library: `truncate`, `getInitials`, the integer core of
    `formatRelativeTime` and the suffix choice of `formatCompactNumber`. */
module Utils {
  import opened Strings

  // =====================================================================
  // truncate
  // =====================================================================

  /** The end index that JavaScript's `slice(0, end)` uses on a string of
      length `len`: a negative `end` counts back from the end of the string,
      and the index is clamped to `0 .. len`. */
  function SliceEnd(len: nat, end: int): (k: nat)
    ensures k <= len
  {
    if end < 0 then Max(len + end, 0) else Min(end, len)
  }

  /** `truncate(text, maxLength)`: text that fits is returned as it is;
      longer text is cut and given a three-dot ellipsis. */
  function Truncate(text: string, maxLength: int): (r: string)
    ensures |text| <= maxLength ==> r == text
    ensures maxLength < |text| ==> EndsWith(r, "...") && StartsWith(text, r[..|r| - 3])
    // with room for the ellipsis, the result is exactly `maxLength` long
    ensures 3 <= maxLength < |text| ==> |r| == maxLength && r[..maxLength - 3] == text[..maxLength - 3]
    // below that, `slice` counts from the end: all but `3 - maxLength` characters are kept
    ensures maxLength < 3 && maxLength < |text| ==> |r| == Max(|text| + maxLength - 3, 0) + 3
  {
    if |text| <= maxLength then text else text[..SliceEnd(|text|, maxLength - 3)] + "..."
  }

  /** With room for the ellipsis, truncating is idempotent and never lengthens the text. */
  lemma TruncateIdempotent(text: string, maxLength: int)
    requires 3 <= maxLength
    ensures |Truncate(text, maxLength)| <= |text|
    ensures |Truncate(text, maxLength)| <= maxLength || Truncate(text, maxLength) == text
    ensures Truncate(Truncate(text, maxLength), maxLength) == Truncate(text, maxLength)
  {
  }

  /** A limit below 3 lets `truncate` return text longer than its input. */
  lemma TruncateShortLimit()
    ensures Truncate("abcdef", 2) == "abcde..."
    ensures Truncate("abcdef", -10) == "..."
  {
    assert SliceEnd(6, -1) == 5;
    assert "abcdef"[..5] == "abcde";
  }

  // =====================================================================
  // getInitials
  // =====================================================================

  /** Words joined with single spaces: the inverse of `Split`. */
  function Join(words: seq<string>): string
    decreases |words|
  {
    if |words| == 0 then ""
    else if |words| == 1 then words[0]
    else words[0] + " " + Join(words[1..])
  }

  predicate NoSpace(w: string) { forall i :: 0 <= i < |w| ==> w[i] != ' ' }

  /** `s.split(' ')`: the pieces between single spaces, so repeated, leading
      and trailing spaces give empty pieces and the empty string gives `[""]`. */
  function Split(s: string): (words: seq<string>)
    ensures |words| >= 1
    ensures forall k :: 0 <= k < |words| ==> NoSpace(words[k])
    decreases |s|
  {
    if s == [] then [""]
    else
      var rest := Split(s[1..]);
      if s[0] == ' ' then [""] + rest
      else [[s[0]] + rest[0]] + rest[1..]
  }

  /** Joining the pieces of a split gives back the original string. */
  lemma {:induction false} JoinSplit(s: string)
    ensures Join(Split(s)) == s
    decreases |s|
  {
    if s != [] {
      var rest := Split(s[1..]);
      JoinSplit(s[1..]);
      if s[0] == ' ' {
        assert Split(s) == [""] + rest;
        assert Split(s)[1..] == rest;
      } else {
        var words := Split(s);
        assert words[0] == [s[0]] + rest[0];
        assert words[1..] == rest[1..];
        if |rest| > 1 {
          assert Join(rest) == rest[0] + " " + Join(rest[1..]);
        }
      }
    }
  }

  /** Splitting space-free words that were joined gives back the words. */
  lemma {:induction false} SplitJoin(words: seq<string>)
    requires |words| >= 1
    requires forall k :: 0 <= k < |words| ==> NoSpace(words[k])
    ensures Split(Join(words)) == words
    decreases |words|, |words[0]|
  {
    var w := words[0];
    if |words| == 1 {
      SplitWord(w);
    } else if w == [] {
      assert Join(words) == [' '] + Join(words[1..]);
      assert Join(words)[1..] == Join(words[1..]);
      SplitJoin(words[1..]);
    } else {
      var tail := [w[1..]] + words[1..];
      assert Join(words) == [w[0]] + Join(tail) by {
        assert words[1..] == tail[1..];
      }
      assert (([w[0]] + Join(tail))[1..]) == Join(tail);
      assert forall k :: 0 <= k < |tail| ==> NoSpace(tail[k]) by {
        forall k | 0 <= k < |tail| ensures NoSpace(tail[k]) {
          if k > 0 { assert tail[k] == words[k]; }
        }
      }
      SplitJoin(tail);
      var joined := Join(words);
      assert w[0] != ' ';
      assert joined[0] == w[0] && joined[1..] == Join(tail);
      assert Split(joined) == [[w[0]] + tail[0]] + tail[1..];
      assert tail[0] == w[1..] && [w[0]] + w[1..] == w;
      assert words == [w] + tail[1..];
    }
  }

  lemma {:induction false} SplitWord(w: string)
    requires NoSpace(w)
    ensures Split(w) == [w]
    decreases |w|
  {
    if w != [] {
      SplitWord(w[1..]);
      assert w[0] != ' ';
      assert [w[0]] + w[1..] == w;
    }
  }

  /** `word[0]` for every word, joined: an empty word contributes nothing,
      because `undefined` joins as the empty string. */
  function FirstChars(words: seq<string>): (r: string)
    ensures |r| <= |words|
    ensures |words| > 0 && words[0] != [] ==> |r| > 0 && r[0] == words[0][0]
    decreases |words|
  {
    if words == [] then ""
    else (if words[0] == [] then "" else [words[0][0]]) + FirstChars(words[1..])
  }

  /** Reference definition of the word starts of `s`: every non-space
      character that opens the string or follows a space, from left to right.
      `atStart` says whether the character before `s` was a space (or there
      was none). */
  function WordStarts(s: string, atStart: bool): string
    decreases |s|
  {
    if s == [] then ""
    else (if atStart && s[0] != ' ' then [s[0]] else "") + WordStarts(s[1..], s[0] == ' ')
  }

  /** The first characters of the words of a split are the word starts. */
  lemma {:induction false} FirstCharsSplit(s: string)
    ensures FirstChars(Split(s)) == WordStarts(s, true)
    ensures FirstChars(Split(s)[1..]) == WordStarts(s, false)
    decreases |s|
  {
    if s != [] {
      var rest := Split(s[1..]);
      FirstCharsSplit(s[1..]);
      if s[0] == ' ' {
        assert Split(s)[1..] == rest;
        assert FirstChars(Split(s)) == "" + FirstChars(rest);
      } else {
        var words := Split(s);
        assert words[1..] == rest[1..];
        assert FirstChars(words) == [s[0]] + FirstChars(words[1..]);
      }
    }
  }

  /** Position `i` of `s` opens a word: a non-space character at the very
      start (when `atStart`) or right after a space. */
  predicate OpensWord(s: string, atStart: bool, i: nat)
    requires i < |s|
  {
    s[i] != ' ' && (if i == 0 then atStart else s[i - 1] == ' ')
  }

  /** Every character of `WordStarts` is a character of `s` that opens a word. */
  lemma {:induction false} WordStartsOpenWords(s: string, atStart: bool, j: nat)
    requires j < |WordStarts(s, atStart)|
    ensures exists i :: 0 <= i < |s| && OpensWord(s, atStart, i) && s[i] == WordStarts(s, atStart)[j]
    decreases |s|
  {
    var head := if atStart && s[0] != ' ' then [s[0]] else "";
    assert WordStarts(s, atStart) == head + WordStarts(s[1..], s[0] == ' ');
    if j < |head| {
      assert OpensWord(s, atStart, 0) && s[0] == WordStarts(s, atStart)[j];
    } else {
      WordStartsOpenWords(s[1..], s[0] == ' ', j - |head|);
      var i :| 0 <= i < |s[1..]| && OpensWord(s[1..], s[0] == ' ', i)
               && s[1..][i] == WordStarts(s[1..], s[0] == ' ')[j - |head|];
      assert OpensWord(s, atStart, i + 1) && s[i + 1] == WordStarts(s, atStart)[j];
    }
  }

  /** Conversely, every character of `s` that opens a word is among the word starts. */
  lemma {:induction false} WordStartsComplete(s: string, atStart: bool, i: nat)
    requires i < |s| && OpensWord(s, atStart, i)
    ensures s[i] in WordStarts(s, atStart)
    decreases |s|
  {
    var head := if atStart && s[0] != ' ' then [s[0]] else "";
    assert WordStarts(s, atStart) == head + WordStarts(s[1..], s[0] == ' ');
    if i > 0 {
      assert OpensWord(s[1..], s[0] == ' ', i - 1);
      WordStartsComplete(s[1..], s[0] == ' ', i - 1);
    }
  }

  /** `getInitials(name)` as the source chains it: split on ' ', first
      character of each word, join, upper-case, keep at most two. */
  function GetInitials(name: string): (r: string)
    ensures |r| <= 2
    ensures |r| == Min(2, |WordStarts(name, true)|)
    // the k-th initial is the upper-cased first character of the k-th non-empty word
    ensures forall k :: 0 <= k < |r| ==> r[k] == UpperChar(WordStarts(name, true)[k])
  {
    FirstCharsSplit(name);
    var joined := Upper(FirstChars(Split(name)));
    joined[..Min(2, |joined|)]
  }

  /** Initials are upper case and never a space. */
  lemma GetInitialsUpper(name: string)
    ensures forall k :: 0 <= k < |GetInitials(name)| ==> !IsLower(GetInitials(name)[k]) && GetInitials(name)[k] != ' '
  {
    WordStartsNoSpace(name, true);
    forall k | 0 <= k < |GetInitials(name)| ensures GetInitials(name)[k] != ' ' {
      UpperNotSpace(WordStarts(name, true), k);
    }
  }

  /** A name made of space-free words joined by single spaces has as initials
      the upper-cased first characters of its first two non-empty words. */
  lemma GetInitialsOfWords(words: seq<string>)
    requires |words| >= 1
    requires forall k :: 0 <= k < |words| ==> NoSpace(words[k])
    ensures var ws := Upper(FirstChars(words)); GetInitials(Join(words)) == ws[..Min(2, |ws|)]
  {
    SplitJoin(words);
  }

  /** Two words give the upper-cased first letter of each. */
  lemma GetInitialsTwoWords(first: string, last: string)
    requires first != [] && last != [] && NoSpace(first) && NoSpace(last)
    ensures GetInitials(first + " " + last) == [UpperChar(first[0]), UpperChar(last[0])]
  {
    var words := [first, last];
    assert Join(words) == first + " " + last;
    GetInitialsOfWords(words);
    assert words[1..] == [last] && [last][1..] == [];
    assert FirstChars([last]) == [last[0]];
    assert FirstChars(words) == [first[0], last[0]];
  }

  lemma UpperNotSpace(starts: string, k: nat)
    requires k < |starts|
    requires forall i :: 0 <= i < |starts| ==> starts[i] != ' '
    ensures UpperChar(starts[k]) != ' '
  {
  }

  lemma {:induction false} WordStartsNoSpace(s: string, atStart: bool)
    ensures forall i :: 0 <= i < |WordStarts(s, atStart)| ==> WordStarts(s, atStart)[i] != ' '
    decreases |s|
  {
    if s != [] { WordStartsNoSpace(s[1..], s[0] == ' '); }
  }

  lemma GetInitialsExamples()
    ensures GetInitials("John Doe") == "JD"
    ensures GetInitials("") == ""
  {
    assert "John" + " " + "Doe" == "John Doe";
    GetInitialsTwoWords("John", "Doe");
  }

  // =====================================================================
  // formatRelativeTime
  // =====================================================================

  datatype Interval = Interval(name: string, seconds: nat)

  /** The named units, largest first. */
  const Intervals: seq<Interval> := [
    Interval("year", 31536000),
    Interval("month", 2592000),
    Interval("week", 604800),
    Interval("day", 86400),
    Interval("hour", 3600),
    Interval("minute", 60)
  ]

  /** The table is ordered largest first, strictly, and each unit is a
      whole number of minutes, the minute being the smallest. */
  lemma IntervalsDescending()
    ensures |Intervals| == 6
    ensures forall i, j :: 0 <= i < j < |Intervals| ==> Intervals[i].seconds > Intervals[j].seconds
    ensures forall i :: 0 <= i < |Intervals| ==> Intervals[i].seconds % 60 == 0
    ensures Intervals[5] == Interval("minute", 60)
  {
  }

  /** The unit for a distance of at least a minute, read off a chain of
      thresholds: the largest unit that fits at least once. */
  function UnitFor(absDiff: nat): (i: nat)
    ensures i < |Intervals|
  {
    if absDiff >= 31536000 then 0
    else if absDiff >= 2592000 then 1
    else if absDiff >= 604800 then 2
    else if absDiff >= 86400 then 3
    else if absDiff >= 3600 then 4
    else 5
  }

  /** The label, made plural unless the count is exactly one. */
  function UnitLabel(i: nat, count: nat): (r: string)
    requires i < |Intervals|
    ensures StartsWith(r, Intervals[i].name)
    ensures r == Intervals[i].name <==> count == 1
    ensures r[|r| - 1] == 's' <==> count != 1
  {
    if count == 1 then Intervals[i].name else Intervals[i].name + "s"
  }

  /** "<n> <label> ago" for the past, "in <n> <label>" otherwise. */
  function Phrase(past: bool, count: nat, unitName: string): (r: string)
    ensures past ==> EndsWith(r, " " + unitName + " ago") && IsDigit(r[0])
    ensures !past ==> StartsWith(r, "in ") && EndsWith(r, " " + unitName)
    ensures r != "just now"
  {
    if past then
      var r := NatToString(count) + " " + unitName + " ago";
      assert r[0] == NatToString(count)[0];
      r
    else
      var r := "in " + NatToString(count) + " " + unitName;
      assert r[1] == 'n' && "just now"[1] == 'u';
      r
  }

  /** How many whole units of the chosen interval fit into the distance. */
  function Count(diffInSeconds: int): (r: nat)
    // `Math.floor` of the quotient: the largest count that still fits
    ensures var secs := Intervals[UnitFor(Abs(diffInSeconds))].seconds;
            r * secs <= Abs(diffInSeconds) < (r + 1) * secs
  {
    Abs(diffInSeconds) / Intervals[UnitFor(Abs(diffInSeconds))].seconds
  }

  /** What `formatRelativeTime` says for a signed distance in seconds
      (negative: the date lies in the past). */
  function RelativeTime(diffInSeconds: int): (r: string)
    ensures r == "just now" <==> Abs(diffInSeconds) < 60
    ensures diffInSeconds <= -60 ==> EndsWith(r, " ago") && IsDigit(r[0])
    ensures 60 <= diffInSeconds ==> StartsWith(r, "in ")
  {
    var absDiff := Abs(diffInSeconds);
    if absDiff < 60 then "just now"
    else
      var i := UnitFor(absDiff);
      Phrase(diffInSeconds < 0, Count(diffInSeconds), UnitLabel(i, Count(diffInSeconds)))
  }

  /** The threshold chain picks the first interval, largest first, that the distance reaches. */
  lemma UnitForFirstFit(absDiff: nat, i: nat)
    requires i < |Intervals| && absDiff >= Intervals[i].seconds
    requires forall j :: 0 <= j < i ==> absDiff < Intervals[j].seconds
    ensures UnitFor(absDiff) == i
  {
    var secs := seq(|Intervals|, k requires 0 <= k < |Intervals| => Intervals[k].seconds);
    assert secs == [31536000, 2592000, 604800, 86400, 3600, 60];
    if i > 0 { assert absDiff < secs[0]; }
    if i > 1 { assert absDiff < secs[1]; }
    if i > 2 { assert absDiff < secs[2]; }
    if i > 3 { assert absDiff < secs[3]; }
    if i > 4 { assert absDiff < secs[4]; }
    assert absDiff >= secs[i];
  }

  /** A whole unit fits exactly when the distance reaches the unit. */
  lemma DivAtLeastOne(a: nat, b: nat)
    requires b > 0
    ensures a / b >= 1 <==> a >= b
  {
    var q, m := a / b, a % b;
    assert a == b * q + m && 0 <= m < b;
    if q == 0 {
      assert a == m;
    } else {
      assert b * q == b + b * (q - 1);
      assert b * (q - 1) >= 0;
    }
  }

  /** The loop of `formatRelativeTime`: the first interval, largest first,
      that fits at least once decides the phrase; if none fits, "just now". */
  method FormatRelativeTime(diffInSeconds: int) returns (s: string)
    ensures s == RelativeTime(diffInSeconds)
  {
    var absDiff := Abs(diffInSeconds);
    for i := 0 to |Intervals|
      invariant forall j :: 0 <= j < i ==> absDiff < Intervals[j].seconds
    {
      var interval := Intervals[i];
      var count := absDiff / interval.seconds;
      DivAtLeastOne(absDiff, interval.seconds);
      if count >= 1 {
        var unitName := if count == 1 then interval.name else interval.name + "s";
        s := if diffInSeconds < 0 then NatToString(count) + " " + unitName + " ago"
             else "in " + NatToString(count) + " " + unitName;
        UnitForFirstFit(absDiff, i);
        assert Count(diffInSeconds) == count;
        assert s == Phrase(diffInSeconds < 0, count, UnitLabel(i, count));
        return;
      }
    }
    s := "just now";
  }

  /** The chosen unit is the first, largest first, whose count is at least
      one: every larger unit counts zero, and the count is below the number
      of this unit in the next larger one. */
  lemma ChosenUnit(diffInSeconds: int)
    requires Abs(diffInSeconds) >= 60
    ensures var i := UnitFor(Abs(diffInSeconds));
            Count(diffInSeconds) >= 1
            && (forall j :: 0 <= j < i ==> Abs(diffInSeconds) / Intervals[j].seconds == 0)
            && (i > 0 ==> Count(diffInSeconds) * Intervals[i].seconds < Intervals[i - 1].seconds)
  {
  }

  /** The tense is visible in the phrase: the past reads "… ago", the
      future "in …", and a distance and its negation give the same count and
      unit. */
  lemma Tense(diffInSeconds: int)
    requires diffInSeconds >= 60
    ensures StartsWith(RelativeTime(diffInSeconds), "in ")
    ensures EndsWith(RelativeTime(-diffInSeconds), " ago")
    ensures RelativeTime(-diffInSeconds) == RelativeTime(diffInSeconds)[3..] + " ago"
  {
    var r := RelativeTime(diffInSeconds);
    var count := Count(diffInSeconds);
    var unitName := UnitLabel(UnitFor(diffInSeconds), count);
    assert Count(-diffInSeconds) == count;
    assert r == "in " + (NatToString(count) + " " + unitName);
    assert r[3..] == NatToString(count) + " " + unitName;
  }

  /** The label is singular exactly when the count is one. */
  lemma PluralIff(diffInSeconds: int)
    requires Abs(diffInSeconds) >= 60
    ensures var r := RelativeTime(diffInSeconds);
            (diffInSeconds < 0 ==> (EndsWith(r, "s ago") <==> Count(diffInSeconds) != 1))
            && (diffInSeconds >= 0 ==> (EndsWith(r, "s") <==> Count(diffInSeconds) != 1))
  {
    PhrasePlural(diffInSeconds < 0, Count(diffInSeconds), UnitFor(Abs(diffInSeconds)));
  }

  lemma PhrasePlural(past: bool, count: nat, i: nat)
    requires i < |Intervals|
    ensures var r := Phrase(past, count, UnitLabel(i, count));
            (past ==> (EndsWith(r, "s ago") <==> count != 1))
            && (!past ==> (EndsWith(r, "s") <==> count != 1))
  {
    var unitName := UnitLabel(i, count);
    var r := Phrase(past, count, unitName);
    if past {
      var tail := " " + unitName + " ago";
      assert r[|r| - |tail|..] == tail;
      assert r[|r| - 5] == tail[|tail| - 5] == unitName[|unitName| - 1];
      assert r[|r| - 5..] == [r[|r| - 5]] + " ago";
    } else {
      var tail := " " + unitName;
      assert r[|r| - |tail|..] == tail;
      assert r[|r| - 1] == tail[|tail| - 1] == unitName[|unitName| - 1];
    }
  }

  lemma RelativeTimeExamples()
    ensures RelativeTime(59) == "just now"
    ensures RelativeTime(-90) == "1 minute ago"
    ensures RelativeTime(7200) == "in 2 hours"
  {
    assert UnitFor(90) == 5 && Count(-90) == 1;
    assert NatToString(1) == "1";
    assert UnitFor(7200) == 4 && Count(7200) == 2;
    assert NatToString(2) == "2";
    assert UnitLabel(4, 2) == "hours";
    assert Phrase(false, 2, "hours") == "in 2 hours";
  }

  // =====================================================================
  // formatCompactNumber
  // =====================================================================

  /** `formatCompactNumber(num)` for an integer `num`. The rendering of the
      scaled value, `(num / divisor).toFixed(1)` with a trailing ".0" removed,
      is floating-point work and is passed in as `scaled(num, divisor)`. */
  function FormatCompactNumber(num: int, scaled: (int, nat) -> string): (r: string)
    ensures |r| >= 1
    ensures num < 1000 ==> r == IntToString(num) && ParseInt(r) == num
    ensures 1000000 <= num ==> r[|r| - 1] == 'M'
    ensures 1000 <= num < 1000000 ==> r[|r| - 1] == 'K'
  {
    if num >= 1000000 then scaled(num, 1000000) + "M"
    else if num >= 1000 then scaled(num, 1000) + "K"
    else
      ParseIntToString(num);
      IntToString(num)
  }

  /** The last character names the magnitude, whatever the scaled rendering is:
      'M' from a million up, 'K' from a thousand up, a digit below. */
  lemma CompactSuffixIff(num: int, scaled: (int, nat) -> string)
    ensures var r := FormatCompactNumber(num, scaled);
            (r[|r| - 1] == 'M' <==> 1000000 <= num)
            && (r[|r| - 1] == 'K' <==> 1000 <= num < 1000000)
            && (IsDigit(r[|r| - 1]) <==> num < 1000)
  {
  }
}
