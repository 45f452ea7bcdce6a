/**
  Challenge 1: the calibration value of a line is the two-digit number made of
  its first and last numeral. In digit mode a numeral is one decimal digit; in
  word mode it may also be one of the spelled numerals "one" .. "nine".

  The source finds numerals with `regex_search` and resumes the search on the
  suffix after each match, so the numerals it collects never overlap. That
  scanner is `Scan` below; `IntendedCalibrationValue` is the overlapping
  reading the function's own documentation describes (see README, Findings).
 */
module Calibration {
  import opened Text

  /** The spelled numerals, in the order the regex alternation lists them. */
  const NumberWords: seq<string> :=
    ["one", "two", "three", "four", "five", "six", "seven", "eight", "nine"]

  /** The lookup table `convertToNumber` consults before parsing digits. */
  const WordValues: map<string, int> :=
    map["one" := 1, "two" := 2, "three" := 3, "four" := 4, "five" := 5,
        "six" := 6, "seven" := 7, "eight" := 8, "nine" := 9]

  /** The lookup table gives each spelled numeral its position in the list,
      counting from one. */
  lemma WordValuesOfTable(k: nat)
    requires k < |NumberWords|
    ensures NumberWords[k] in WordValues && WordValues[NumberWords[k]] == k + 1
  {
    if k == 0 { assert NumberWords[0] == "one"; }
    else if k == 1 { assert NumberWords[1] == "two"; }
    else if k == 2 { assert NumberWords[2] == "three"; }
    else if k == 3 { assert NumberWords[3] == "four"; }
    else if k == 4 { assert NumberWords[4] == "five"; }
    else if k == 5 { assert NumberWords[5] == "six"; }
    else if k == 6 { assert NumberWords[6] == "seven"; }
    else if k == 7 { assert NumberWords[7] == "eight"; }
    else { assert NumberWords[8] == "nine"; }
  }

  /** `t` is a single digit, or (in word mode) a spelled numeral. */
  predicate IsNumeral(t: string, words: bool) {
    (|t| == 1 && IsDigit(t[0])) || (words && t in NumberWords)
  }

  /** A numeral starts at column `p` of `line`. */
  predicate NumeralStartsAt(line: string, words: bool, p: nat) {
    p < |line| && (IsDigit(line[p]) || (words && exists k :: 0 <= k < |NumberWords| && OccursAt(line, p, NumberWords[k])))
  }

  /** The numeral starting at column `p` stands for the number `v`. */
  predicate Denotes(line: string, words: bool, p: nat, v: int) {
    p < |line| &&
    ((IsDigit(line[p]) && v == DigitValue(line[p])) || (words && 1 <= v <= |NumberWords| && OccursAt(line, p, NumberWords[v - 1])))
  }

  /** `p` is the leftmost column at which a numeral starts. */
  predicate IsFirstNumeral(line: string, words: bool, p: nat) {
    NumeralStartsAt(line, words, p) && forall q :: 0 <= q < p ==> !NumeralStartsAt(line, words, q)
  }

  /** `p` is the rightmost column at which a numeral starts. */
  predicate IsLastNumeral(line: string, words: bool, p: nat) {
    NumeralStartsAt(line, words, p) && forall q :: p < q < |line| ==> !NumeralStartsAt(line, words, q)
  }

  /** The line holds at least one numeral; without one the source aborts. */
  predicate HasNumeral(line: string, words: bool) {
    exists p :: 0 <= p < |line| && NumeralStartsAt(line, words, p)
  }

  /** The first spelled numeral, from table index `k` on, occurring at column `i`. */
  function WordAt(line: string, i: nat, k: nat): (r: Option<string>)
    ensures r.Some? ==> exists j :: k <= j < |NumberWords| && r.value == NumberWords[j] && OccursAt(line, i, r.value)
    ensures r.None? ==> forall j :: k <= j < |NumberWords| ==> !OccursAt(line, i, NumberWords[j])
    decreases |NumberWords| - k
  {
    if k >= |NumberWords| then None
    else if OccursAt(line, i, NumberWords[k]) then Some(NumberWords[k])
    else WordAt(line, i, k + 1)
  }

  /** What the regex matches when its search starts exactly at column `i`:
      a digit first, then the spelled numerals in table order. */
  function NumeralAt(line: string, i: nat, words: bool): (r: Option<string>)
    requires i < |line|
    ensures r.Some? <==> NumeralStartsAt(line, words, i)
    ensures r.Some? ==> IsNumeral(r.value, words) && 1 <= |r.value| && OccursAt(line, i, r.value)
  {
    if IsDigit(line[i]) then Some([line[i]])
    else if words then WordAt(line, i, 0)
    else None
  }

  /** A numeral occurrence: its column and its text. */
  datatype Occurrence = Occurrence(start: nat, text: string)

  /** A table giving, per column, the match a search starting there finds
      first; every match is non-empty and ends inside the line. */
  predicate WellFormed(m: seq<Option<string>>) {
    forall p :: 0 <= p < |m| && m[p].Some? ==> 1 <= |m[p].value| && p + |m[p].value| <= |m|
  }

  /** The numeral match at every column of `line`. */
  function Matches(line: string, words: bool): (m: seq<Option<string>>)
    ensures |m| == |line| && WellFormed(m)
    ensures forall p :: 0 <= p < |line| ==> m[p] == NumeralAt(line, p, words)
  {
    seq(|line|, p requires 0 <= p < |line| => NumeralAt(line, p, words))
  }

  /** Repeated `regex_search` on the remaining suffix, from column `i` on:
      take the leftmost match, record it, continue after its last character. */
  function ScanFrom(m: seq<Option<string>>, i: nat): (r: seq<Occurrence>)
    requires WellFormed(m) && i <= |m|
    ensures forall k :: 0 <= k < |r| ==> i <= r[k].start < |m| && m[r[k].start] == Some(r[k].text)
    ensures forall k :: 0 <= k < |r| - 1 ==> r[k].start + |r[k].text| <= r[k + 1].start
    decreases |m| - i
  {
    if i == |m| then []
    else if m[i].Some? then [Occurrence(i, m[i].value)] + ScanFrom(m, i + |m[i].value|)
    else ScanFrom(m, i + 1)
  }

  /** No match starts from `i` up to the first occurrence the scan takes,
      nor anywhere from `i` on when it takes none. */
  lemma {:induction false} ScanSkipsNothingBefore(m: seq<Option<string>>, i: nat, p: nat)
    requires WellFormed(m) && i <= p < |m|
    requires |ScanFrom(m, i)| == 0 || p < ScanFrom(m, i)[0].start
    ensures m[p].None?
    decreases |m| - i
  {
    if m[i].None? && p > i {
      assert ScanFrom(m, i) == ScanFrom(m, i + 1);
      ScanSkipsNothingBefore(m, i + 1, p);
    }
  }

  /** Between two neighbouring occurrences no match starts: the only matches
      the scan passes over are those overlapping one it took. */
  lemma {:induction false} ScanGapsAreEmpty(m: seq<Option<string>>, i: nat, k: nat, p: nat)
    requires WellFormed(m) && i <= |m|
    requires k + 1 < |ScanFrom(m, i)|
    requires ScanFrom(m, i)[k].start + |ScanFrom(m, i)[k].text| <= p < ScanFrom(m, i)[k + 1].start
    ensures m[p].None?
    decreases |m| - i, 2
  {
    if m[i].Some? {
      ScanGapsAreEmptyTaken(m, i, k, p);
    } else {
      assert ScanFrom(m, i) == ScanFrom(m, i + 1);
      ScanGapsAreEmpty(m, i + 1, k, p);
    }
  }

  /** The case of `ScanGapsAreEmpty` where the scan takes the match at `i`. */
  lemma {:induction false} ScanGapsAreEmptyTaken(m: seq<Option<string>>, i: nat, k: nat, p: nat)
    requires WellFormed(m) && i < |m| && m[i].Some?
    requires k + 1 < |ScanFrom(m, i)|
    requires ScanFrom(m, i)[k].start + |ScanFrom(m, i)[k].text| <= p < ScanFrom(m, i)[k + 1].start
    ensures m[p].None?
    decreases |m| - i, 1
  {
    var r := ScanFrom(m, i);
    var rest := ScanFrom(m, i + |m[i].value|);
    assert r == [Occurrence(i, m[i].value)] + rest;
    if k > 0 {
      ScanGapsAreEmptyLater(m, i, k, p);
    } else {
      assert r[1] == rest[0];
      ScanSkipsNothingBefore(m, i + |m[i].value|, p);
    }
  }

  /** The gap lies after the match the scan takes at `i`. */
  lemma {:induction false} ScanGapsAreEmptyLater(m: seq<Option<string>>, i: nat, k: nat, p: nat)
    requires WellFormed(m) && i < |m| && m[i].Some? && k > 0
    requires k + 1 < |ScanFrom(m, i)|
    requires ScanFrom(m, i)[k].start + |ScanFrom(m, i)[k].text| <= p < ScanFrom(m, i)[k + 1].start
    ensures m[p].None?
    decreases |m| - i, 0
  {
    var r := ScanFrom(m, i);
    var rest := ScanFrom(m, i + |m[i].value|);
    assert r == [Occurrence(i, m[i].value)] + rest;
    assert r[k] == rest[k - 1] && r[k + 1] == rest[k];
    ScanGapsAreEmpty(m, i + |m[i].value|, k - 1, p);
  }

  /** No match starts after the end of the last occurrence the scan takes. */
  lemma {:induction false} ScanSkipsNothingAfter(m: seq<Option<string>>, i: nat, p: nat)
    requires WellFormed(m) && i <= |m|
    requires |ScanFrom(m, i)| > 0
    requires ScanFrom(m, i)[|ScanFrom(m, i)| - 1].start + |ScanFrom(m, i)[|ScanFrom(m, i)| - 1].text| <= p < |m|
    ensures m[p].None?
    decreases |m| - i, 1
  {
    if m[i].Some? {
      ScanSkipsNothingAfterTaken(m, i, p);
    } else {
      ScanSkipsNothingAfterSkipped(m, i, p);
    }
  }

  /** The case of `ScanSkipsNothingAfter` where no match starts at `i`. */
  lemma {:induction false} ScanSkipsNothingAfterSkipped(m: seq<Option<string>>, i: nat, p: nat)
    requires WellFormed(m) && i < |m| && m[i].None?
    requires |ScanFrom(m, i)| > 0
    requires ScanFrom(m, i)[|ScanFrom(m, i)| - 1].start + |ScanFrom(m, i)[|ScanFrom(m, i)| - 1].text| <= p < |m|
    ensures m[p].None?
    decreases |m| - i, 0
  {
    assert ScanFrom(m, i) == ScanFrom(m, i + 1);
    ScanSkipsNothingAfter(m, i + 1, p);
  }

  /** The case of `ScanSkipsNothingAfter` where the scan takes the match at `i`. */
  lemma {:induction false} ScanSkipsNothingAfterTaken(m: seq<Option<string>>, i: nat, p: nat)
    requires WellFormed(m) && i < |m| && m[i].Some?
    requires ScanFrom(m, i)[|ScanFrom(m, i)| - 1].start + |ScanFrom(m, i)[|ScanFrom(m, i)| - 1].text| <= p < |m|
    ensures m[p].None?
    decreases |m| - i, 0
  {
    var r := ScanFrom(m, i);
    var rest := ScanFrom(m, i + |m[i].value|);
    assert r == [Occurrence(i, m[i].value)] + rest;
    if |rest| == 0 {
      ScanSkipsNothingBefore(m, i + |m[i].value|, p);
    } else {
      assert r[|r| - 1] == rest[|rest| - 1];
      ScanSkipsNothingAfter(m, i + |m[i].value|, p);
    }
  }

  /** The numerals `findNumberStrings` collects from a line, left to right. */
  function Scan(line: string, words: bool): (r: seq<Occurrence>)
    ensures forall k :: 0 <= k < |r| ==> r[k].start < |line| && NumeralAt(line, r[k].start, words) == Some(r[k].text)
    ensures forall k :: 0 <= k < |r| - 1 ==> r[k].start + |r[k].text| <= r[k + 1].start
  {
    ScanFrom(Matches(line, words), 0)
  }

  /** Scanning a whole line: the scan is non-empty exactly when the line has
      a numeral, and it starts at the leftmost numeral. */
  lemma ScanOfLine(line: string, words: bool)
    ensures HasNumeral(line, words) <==> |Scan(line, words)| > 0
    ensures |Scan(line, words)| > 0 ==> IsFirstNumeral(line, words, Scan(line, words)[0].start)
  {
    var m := Matches(line, words);
    var r := Scan(line, words);
    if |r| > 0 {
      assert NumeralStartsAt(line, words, r[0].start);
      forall q | 0 <= q < r[0].start
        ensures !NumeralStartsAt(line, words, q)
      {
        ScanSkipsNothingBefore(m, 0, q);
      }
    } else if HasNumeral(line, words) {
      var p :| 0 <= p < |line| && NumeralStartsAt(line, words, p);
      ScanSkipsNothingBefore(m, 0, p);
    }
  }

  /** The scan passes over a numeral only when it overlaps one already
      taken: none starts between two occurrences or after the last one. */
  lemma ScanMissesOnlyOverlaps(line: string, words: bool)
    ensures forall k, p :: (0 <= k < |Scan(line, words)| - 1 &&
      Scan(line, words)[k].start + |Scan(line, words)[k].text| <= p < Scan(line, words)[k + 1].start) ==>
      !NumeralStartsAt(line, words, p)
    ensures |Scan(line, words)| > 0 ==> forall p ::
      Scan(line, words)[|Scan(line, words)| - 1].start + |Scan(line, words)[|Scan(line, words)| - 1].text| <= p < |line| ==>
      !NumeralStartsAt(line, words, p)
  {
    ScanMissesNothingBetween(line, words);
    ScanMissesNothingAfter(line, words);
  }

  lemma ScanMissesNothingBetween(line: string, words: bool)
    ensures forall k, p :: (0 <= k < |Scan(line, words)| - 1 &&
      Scan(line, words)[k].start + |Scan(line, words)[k].text| <= p < Scan(line, words)[k + 1].start) ==>
      !NumeralStartsAt(line, words, p)
  {
    var m := Matches(line, words);
    var r := Scan(line, words);
    forall k, p | 0 <= k < |r| - 1 && r[k].start + |r[k].text| <= p < r[k + 1].start
      ensures !NumeralStartsAt(line, words, p)
    {
      ScanGapsAreEmpty(m, 0, k, p);
    }
  }

  lemma ScanMissesNothingAfter(line: string, words: bool)
    ensures |Scan(line, words)| > 0 ==> forall p ::
      Scan(line, words)[|Scan(line, words)| - 1].start + |Scan(line, words)[|Scan(line, words)| - 1].text| <= p < |line| ==>
      !NumeralStartsAt(line, words, p)
  {
    var m := Matches(line, words);
    var r := Scan(line, words);
    if |r| > 0 {
      forall p | r[|r| - 1].start + |r[|r| - 1].text| <= p < |line|
        ensures !NumeralStartsAt(line, words, p)
      {
        ScanSkipsNothingAfter(m, 0, p);
      }
    }
  }

  /** The numeral at column `q` can be the last one the scan collects: no
      numeral starts after its end. */
  predicate EndsScan(line: string, words: bool, q: nat) {
    q < |line| && NumeralAt(line, q, words).Some? &&
    forall p :: q + |NumeralAt(line, q, words).value| <= p < |line| ==> !NumeralStartsAt(line, words, p)
  }

  /** The last occurrence the scan of a line with a numeral takes. It ends
      the scan: no numeral starts after it. It need not be the line's last
      numeral, which may overlap it. */
  function LastTaken(line: string, words: bool): (o: Occurrence)
    requires HasNumeral(line, words)
    ensures EndsScan(line, words, o.start) && NumeralAt(line, o.start, words) == Some(o.text)
  {
    ScanEnds(line, words);
    Scan(line, words)[|Scan(line, words)| - 1]
  }

  /** `findNumberStrings`: the texts of the first and the last numeral the
      scan collects. The first is the numeral at the leftmost column where
      one starts; the second is the scan's last occurrence. */
  function FindNumberStrings(line: string, words: bool): (r: (string, string))
    requires HasNumeral(line, words)
    ensures IsNumeral(r.0, words) && IsNumeral(r.1, words)
    ensures forall p :: IsFirstNumeral(line, words, p) ==> NumeralAt(line, p, words) == Some(r.0)
    ensures r.1 == LastTaken(line, words).text
  {
    ScanEnds(line, words);
    var occ := Scan(line, words);
    (occ[0].text, occ[|occ| - 1].text)
  }

  /** The scan of a line with a numeral starts with the line's first numeral
      and its last match ends the scan. */
  lemma ScanEnds(line: string, words: bool)
    requires HasNumeral(line, words)
    ensures |Scan(line, words)| > 0
    ensures IsFirstNumeral(line, words, Scan(line, words)[0].start)
    ensures NumeralAt(line, Scan(line, words)[0].start, words) == Some(Scan(line, words)[0].text)
    ensures var last := Scan(line, words)[|Scan(line, words)| - 1];
      EndsScan(line, words, last.start) && NumeralAt(line, last.start, words) == Some(last.text)
  {
    ScanOfLine(line, words);
    ScanMissesOnlyOverlaps(line, words);
    var occ := Scan(line, words);
    var last := occ[|occ| - 1];
    assert NumeralAt(line, last.start, words) == Some(last.text);
    assert EndsScan(line, words, last.start);
  }

  /** `convertToNumber`: look the text up among the spelled numerals, else
      read it with `stoi`. */
  function ConvertToNumber(t: string): Option<int> {
    if t in WordValues then Some(WordValues[t]) else ParseInt(t)
  }

  /** A single digit converts to its value, and a spelled numeral to its
      position in the list, counting from one. */
  lemma ConvertToNumberValues(t: string)
    ensures |t| == 1 && IsDigit(t[0]) ==> ConvertToNumber(t) == Some(DigitValue(t[0]))
    ensures forall k :: 0 <= k < |NumberWords| && t == NumberWords[k] ==> ConvertToNumber(t) == Some(k + 1)
  {
    if |t| == 1 && IsDigit(t[0]) {
      assert t == [t[0]];
      ConvertDigit(t[0]);
    }
    forall k | 0 <= k < |NumberWords| && t == NumberWords[k]
      ensures ConvertToNumber(t) == Some(k + 1)
    {
      WordValuesOfTable(k);
    }
  }

  lemma ConvertDigit(c: char)
    requires IsDigit(c)
    ensures ConvertToNumber([c]) == Some(DigitValue(c))
  {
    SingleCharNotWord([c]);
    ConvertNonWord([c]);
    DigitParses(c);
  }

  lemma ConvertNonWord(t: string)
    requires t !in WordValues
    ensures ConvertToNumber(t) == ParseInt(t)
  {
  }

  /** `stoi` reads a single digit as its value. */
  lemma DigitParses(c: char)
    requires IsDigit(c)
    ensures ParseInt([c]) == Some(DigitValue(c))
  {
    var t := [c];
    DigitFacts(c);
    assert t[..1] == t;
  }

  lemma DigitFacts(c: char)
    requires IsDigit(c)
    ensures TrimStart([c]) == [c] && RunLength([c], 0) == 1 && DecimalValue([c]) == DigitValue(c)
  {
    DigitRun(c);
    DigitDecimal(c);
  }

  lemma DigitRun(c: char)
    requires IsDigit(c)
    ensures RunLength([c], 0) == 1
  {
    assert RunLength([c], 1) == 0;
  }

  lemma DigitDecimal(c: char)
    requires IsDigit(c)
    ensures DecimalValue([c]) == DigitValue(c)
  {
    assert [c][..0] == [];
  }

  /** A single character is not in the lookup table. */
  lemma SingleCharNotWord(t: string)
    requires |t| == 1
    ensures t !in WordValues
  {
  }

  /** Every numeral converts to a number in 0..9, the one it denotes. */
  lemma NumeralValue(line: string, words: bool, p: nat)
    requires p < |line|
    requires NumeralStartsAt(line, words, p)
    ensures ConvertToNumber(NumeralAt(line, p, words).value).Some?
    ensures 0 <= ConvertToNumber(NumeralAt(line, p, words).value).value <= 9
    ensures Denotes(line, words, p, ConvertToNumber(NumeralAt(line, p, words).value).value)
  {
    var t := NumeralAt(line, p, words).value;
    ConvertToNumberValues(t);
    if !IsDigit(line[p]) {
      var k :| 0 <= k < |NumberWords| && t == NumberWords[k];
      assert ConvertToNumber(t) == Some(k + 1);
    }
  }

  /** `findNumbers`: the values of the first and the last numeral. */
  function FindNumbers(line: string, words: bool): (r: (int, int))
    requires HasNumeral(line, words)
    ensures 0 <= r.0 <= 9 && 0 <= r.1 <= 9
    ensures forall p :: IsFirstNumeral(line, words, p) ==> Denotes(line, words, p, r.0)
    ensures Denotes(line, words, LastTaken(line, words).start, r.1)
  {
    var (first, last) := FindNumberStrings(line, words);
    NumberStringValues(line, words);
    (ConvertToNumber(first).value, ConvertToNumber(last).value)
  }

  /** The two numeral texts convert to the numbers they denote. */
  lemma NumberStringValues(line: string, words: bool)
    requires HasNumeral(line, words)
    ensures ConvertToNumber(FindNumberStrings(line, words).0).Some?
    ensures ConvertToNumber(FindNumberStrings(line, words).1).Some?
    ensures 0 <= ConvertToNumber(FindNumberStrings(line, words).0).value <= 9
    ensures 0 <= ConvertToNumber(FindNumberStrings(line, words).1).value <= 9
    ensures forall p :: IsFirstNumeral(line, words, p) ==>
      Denotes(line, words, p, ConvertToNumber(FindNumberStrings(line, words).0).value)
    ensures Denotes(line, words, LastTaken(line, words).start, ConvertToNumber(FindNumberStrings(line, words).1).value)
  {
    var (first, last) := FindNumberStrings(line, words);
    var q := LastTaken(line, words).start;
    NumeralValue(line, words, q);
    FirstNumeralExists(line, words);
    var f :| IsFirstNumeral(line, words, f);
    NumeralValue(line, words, f);
    forall p | IsFirstNumeral(line, words, p)
      ensures Denotes(line, words, p, ConvertToNumber(first).value)
    {
      assert p == f;
    }
  }

  /** A line with a numeral has a leftmost one. */
  lemma FirstNumeralExists(line: string, words: bool)
    requires HasNumeral(line, words)
    ensures exists f :: IsFirstNumeral(line, words, f)
  {
    ScanOfLine(line, words);
  }

  /** `extractCalibrationValue`: ten times the first numeral plus the last. */
  function ExtractCalibrationValue(line: string, words: bool): int
    requires HasNumeral(line, words)
  {
    var (first, last) := FindNumbers(line, words);
    first * 10 + last
  }

  /** The calibration value is a two-digit number whose tens digit is the
      line's first numeral and whose units digit is the last occurrence the
      scan takes. */
  lemma CalibrationValueDigits(line: string, words: bool)
    requires HasNumeral(line, words)
    ensures 0 <= ExtractCalibrationValue(line, words) <= 99
    ensures forall p :: IsFirstNumeral(line, words, p) ==> Denotes(line, words, p, ExtractCalibrationValue(line, words) / 10)
    ensures Denotes(line, words, LastTaken(line, words).start, ExtractCalibrationValue(line, words) % 10)
  {
    var v := FindNumbers(line, words);
    CalibrationDigits(line, words, v.0, v.1, ExtractCalibrationValue(line, words));
  }

  /** Two digit values joined into a number split back into its tens and its
      units. */
  lemma CalibrationDigits(line: string, words: bool, a: int, b: int, r: int)
    requires 0 <= a <= 9 && 0 <= b <= 9 && r == a * 10 + b
    requires forall p :: IsFirstNumeral(line, words, p) ==> Denotes(line, words, p, a)
    requires HasNumeral(line, words) && Denotes(line, words, LastTaken(line, words).start, b)
    ensures 0 <= r <= 99
    ensures forall p :: IsFirstNumeral(line, words, p) ==> Denotes(line, words, p, r / 10)
    ensures Denotes(line, words, LastTaken(line, words).start, r % 10)
  {
    TwoDigits(a, b);
  }

  /** At most one numeral starts at a column: a digit is not a letter and no
      spelled numeral is a prefix of another. So the order in which the regex
      tries its alternatives does not matter. */
  lemma DenotesUnique(line: string, words: bool, p: nat, v: int, w: int)
    requires Denotes(line, words, p, v) && Denotes(line, words, p, w)
    ensures v == w
  {
    if !IsDigit(line[p]) && v != w {
      HeadOfWord(line, p, v - 1);
      HeadOfWord(line, p, w - 1);
      WordHeadsDistinct(v - 1, w - 1);
      assert false;
    }
  }

  /** A spelled numeral occurring at column `p` starts with the two
      characters found there. */
  lemma HeadOfWord(line: string, p: nat, k: nat)
    requires k < |NumberWords| && OccursAt(line, p, NumberWords[k])
    ensures p + 2 <= |line| && NumberWords[k][..2] == line[p..p + 2]
  {
    var t := NumberWords[k];
    assert |t| >= 3;
    assert line[p..p + |t|] == t;
    assert line[p..p + 2] == line[p..p + |t|][..2];
  }

  /** The spelled numerals differ in their first two letters. */
  lemma WordHeadsDistinct(i: nat, j: nat)
    requires i < |NumberWords| && j < |NumberWords| && i != j
    ensures NumberWords[i][..2] != NumberWords[j][..2]
  {
    var heads := ["on", "tw", "th", "fo", "fi", "si", "se", "ei", "ni"];
    assert forall k :: 0 <= k < |NumberWords| ==> NumberWords[k][..2] == heads[k];
  }

  /** In digit mode the value is the first digit of the line followed by
      its last digit. */
  lemma DigitModeValue(line: string, p: nat, q: nat)
    requires IsFirstNumeral(line, false, p) && IsLastNumeral(line, false, q)
    ensures HasNumeral(line, false)
    ensures ExtractCalibrationValue(line, false) == 10 * DigitValue(line[p]) + DigitValue(line[q])
  {
    var r := ExtractCalibrationValue(line, false);
    CalibrationValueDigits(line, false);
    var q' := LastTaken(line, false).start;
    assert EndsScan(line, false, q');
    assert q' == q;
  }

  /** A line with a single numeral uses it for both digits: "7" gives 77. */
  lemma SingleNumeralTwice(line: string, words: bool, p: nat)
    requires NumeralStartsAt(line, words, p)
    requires forall q :: 0 <= q < |line| && NumeralStartsAt(line, words, q) ==> q == p
    ensures HasNumeral(line, words)
    ensures ExtractCalibrationValue(line, words) == 11 * (ExtractCalibrationValue(line, words) / 10)
  {
    var r := ExtractCalibrationValue(line, words);
    CalibrationValueDigits(line, words);
    var a, b := r / 10, r % 10;
    assert IsFirstNumeral(line, words, p);
    assert Denotes(line, words, p, a);
    OnlyNumeralEndsScan(line, words, p, b);
    DenotesUnique(line, words, p, a, b);
    ElevenTimes(r, a, b);
  }

  lemma ElevenTimes(r: int, a: int, b: int)
    requires 0 <= r && a == r / 10 && b == r % 10 && a == b
    ensures r == 11 * a
  {
    DivModTen(r);
  }

  /** On a line with a single numeral, the scan ends with that numeral. */
  lemma OnlyNumeralEndsScan(line: string, words: bool, p: nat, v: int)
    requires forall q :: 0 <= q < |line| && NumeralStartsAt(line, words, q) ==> q == p
    requires HasNumeral(line, words) && Denotes(line, words, LastTaken(line, words).start, v)
    ensures Denotes(line, words, p, v)
  {
    var q := LastTaken(line, words).start;
    assert NumeralStartsAt(line, words, q);
  }

  /** On a line where no spelled numeral occurs, word mode and digit mode
      agree: on whether there is a numeral, and on the value. */
  lemma WordModeWithoutWords(line: string)
    requires forall p, k :: 0 <= k < |NumberWords| ==> !OccursAt(line, p, NumberWords[k])
    ensures HasNumeral(line, true) <==> HasNumeral(line, false)
    ensures HasNumeral(line, false) ==> ExtractCalibrationValue(line, true) == ExtractCalibrationValue(line, false)
  {
    assert forall p :: NumeralStartsAt(line, true, p) <==> NumeralStartsAt(line, false, p);
    assert Matches(line, true) == Matches(line, false);
  }

  /** Examples of the puzzle statement in digit mode. */
  lemma ExampleDigits()
    ensures HasNumeral("1abc2", false) && ExtractCalibrationValue("1abc2", false) == 12
  {
    var line := "1abc2";
    assert forall q :: 0 <= q < |line| ==> (IsDigit(line[q]) <==> q == 0 || q == 4);
    DigitModeValue(line, 0, 4);
  }

  lemma ExampleDigitsInside()
    ensures HasNumeral("pqr3stu8vwx", false) && ExtractCalibrationValue("pqr3stu8vwx", false) == 38
  {
    var line := "pqr3stu8vwx";
    assert forall q :: 0 <= q < |line| ==> (IsDigit(line[q]) <==> q == 3 || q == 7);
    DigitModeValue(line, 3, 7);
  }

  lemma ExampleSingleDigit()
    ensures HasNumeral("7", false) && ExtractCalibrationValue("7", false) == 77
  {
    DigitModeValue("7", 0, 0);
  }

  /* ---------------------------------------------------------------- */
  /* The overlapping reading (README, Findings)                        */
  /* ---------------------------------------------------------------- */

  /** Every match of the table from column `i` on, overlapping or not. */
  function AllFrom(m: seq<Option<string>>, i: nat): (r: seq<Occurrence>)
    requires WellFormed(m) && i <= |m|
    ensures forall k :: 0 <= k < |r| ==> i <= r[k].start < |m| && m[r[k].start] == Some(r[k].text)
    ensures |r| == 0 ==> forall p :: i <= p < |m| ==> m[p].None?
    ensures |r| > 0 ==> forall p :: i <= p < r[0].start ==> m[p].None?
    ensures |r| > 0 ==> forall p :: r[|r| - 1].start < p < |m| ==> m[p].None?
    decreases |m| - i
  {
    if i == |m| then []
    else if m[i].Some? then [Occurrence(i, m[i].value)] + AllFrom(m, i + 1)
    else AllFrom(m, i + 1)
  }

  /** The column of the line's first numeral. */
  function FirstStart(line: string, words: bool): (f: nat)
    requires HasNumeral(line, words)
    ensures IsFirstNumeral(line, words, f)
  {
    AllOfLine(line, words);
    AllFrom(Matches(line, words), 0)[0].start
  }

  /** The column of the line's last numeral. */
  function LastStart(line: string, words: bool): (l: nat)
    requires HasNumeral(line, words)
    ensures IsLastNumeral(line, words, l)
  {
    AllOfLine(line, words);
    var all := AllFrom(Matches(line, words), 0);
    all[|all| - 1].start
  }

  /** The number the numeral at column `p` converts to. */
  function NumeralNumber(line: string, words: bool, p: nat): (v: int)
    requires NumeralStartsAt(line, words, p)
    ensures 0 <= v <= 9 && Denotes(line, words, p, v)
  {
    NumeralValue(line, words, p);
    ConvertToNumber(NumeralAt(line, p, words).value).value
  }

  /** The calibration value as documented: the first and the last numeral
      that appear in the line, overlapping ones included. */
  function IntendedCalibrationValue(line: string, words: bool): int
    requires HasNumeral(line, words)
  {
    NumeralNumber(line, words, FirstStart(line, words)) * 10 + NumeralNumber(line, words, LastStart(line, words))
  }

  /** The documented value is a two-digit number whose tens digit is the
      line's first numeral and whose units digit is its last numeral. */
  lemma IntendedValueDigits(line: string, words: bool)
    requires HasNumeral(line, words)
    ensures 0 <= IntendedCalibrationValue(line, words) <= 99
    ensures forall p :: IsFirstNumeral(line, words, p) ==> Denotes(line, words, p, IntendedCalibrationValue(line, words) / 10)
    ensures forall q :: IsLastNumeral(line, words, q) ==> Denotes(line, words, q, IntendedCalibrationValue(line, words) % 10)
  {
    var f, l := FirstStart(line, words), LastStart(line, words);
    var a, b := NumeralNumber(line, words, f), NumeralNumber(line, words, l);
    IntendedDigits(line, words, f, l, a, b, IntendedCalibrationValue(line, words));
  }

  /** Joining the first and the last numeral's values gives a number whose
      digits are those values. */
  lemma IntendedDigits(line: string, words: bool, f: nat, l: nat, a: int, b: int, r: int)
    requires 0 <= a <= 9 && 0 <= b <= 9 && r == a * 10 + b
    requires IsFirstNumeral(line, words, f) && Denotes(line, words, f, a)
    requires IsLastNumeral(line, words, l) && Denotes(line, words, l, b)
    ensures 0 <= r <= 99
    ensures forall p :: IsFirstNumeral(line, words, p) ==> Denotes(line, words, p, r / 10)
    ensures forall q :: IsLastNumeral(line, words, q) ==> Denotes(line, words, q, r % 10)
  {
    TwoDigits(a, b);
    assert forall p :: IsFirstNumeral(line, words, p) ==> p == f;
    assert forall q :: IsLastNumeral(line, words, q) ==> q == l;
  }

  lemma TwoDigits(a: int, b: int)
    requires 0 <= a <= 9 && 0 <= b <= 9
    ensures (a * 10 + b) / 10 == a && (a * 10 + b) % 10 == b
  {
  }

  /** The list of every numeral of a line runs from its leftmost numeral to
      its rightmost one. */
  lemma AllOfLine(line: string, words: bool)
    requires HasNumeral(line, words)
    ensures |AllFrom(Matches(line, words), 0)| > 0
    ensures IsFirstNumeral(line, words, AllFrom(Matches(line, words), 0)[0].start)
    ensures var all := AllFrom(Matches(line, words), 0); IsLastNumeral(line, words, all[|all| - 1].start)
  {
    AllNonEmpty(line, words);
    AllStartsFirst(line, words);
    AllEndsLast(line, words);
  }

  lemma AllNonEmpty(line: string, words: bool)
    requires HasNumeral(line, words)
    ensures |AllFrom(Matches(line, words), 0)| > 0
  {
    var m := Matches(line, words);
    var p :| 0 <= p < |line| && NumeralStartsAt(line, words, p);
    assert m[p].Some?;
  }

  lemma AllStartsFirst(line: string, words: bool)
    requires |AllFrom(Matches(line, words), 0)| > 0
    ensures IsFirstNumeral(line, words, AllFrom(Matches(line, words), 0)[0].start)
  {
    var m := Matches(line, words);
    var all := AllFrom(m, 0);
    assert NumeralStartsAt(line, words, all[0].start);
    forall q | 0 <= q < all[0].start
      ensures !NumeralStartsAt(line, words, q)
    {
      assert m[q].None?;
    }
  }

  lemma AllEndsLast(line: string, words: bool)
    requires |AllFrom(Matches(line, words), 0)| > 0
    ensures var all := AllFrom(Matches(line, words), 0); IsLastNumeral(line, words, all[|all| - 1].start)
  {
    var m := Matches(line, words);
    var all := AllFrom(m, 0);
    var last := all[|all| - 1];
    assert m[last.start] == NumeralAt(line, last.start, words) == Some(last.text);
    forall q | last.start < q < |line|
      ensures !NumeralStartsAt(line, words, q)
    {
      NoneAfterAll(line, words, q);
    }
  }

  lemma NoneAfterAll(line: string, words: bool, q: nat)
    requires |AllFrom(Matches(line, words), 0)| > 0
    requires AllFrom(Matches(line, words), 0)[|AllFrom(Matches(line, words), 0)| - 1].start < q < |line|
    ensures !NumeralStartsAt(line, words, q)
  {
    var m := Matches(line, words);
    assert m[q] == NumeralAt(line, q, words);
    assert m[q].None?;
  }

  /** In digit mode the documented and the implemented values agree on every
      line: the discrepancy needs overlapping spelled numerals. */
  lemma IntendedAgreesInDigitMode(line: string)
    requires HasNumeral(line, false)
    ensures IntendedCalibrationValue(line, false) == ExtractCalibrationValue(line, false)
  {
    FirstNumeralExists(line, false);
    LastNumeralExists(line, false);
    var p :| IsFirstNumeral(line, false, p);
    var q :| IsLastNumeral(line, false, q);
    DigitModeValue(line, p, q);
    IntendedDigitModeValue(line, p, q);
  }

  /** A line with a numeral has a rightmost one. */
  lemma LastNumeralExists(line: string, words: bool)
    requires HasNumeral(line, words)
    ensures exists q :: IsLastNumeral(line, words, q)
  {
    AllOfLine(line, words);
  }

  /** In digit mode the documented value is the first digit of the line
      followed by its last digit. */
  lemma IntendedDigitModeValue(line: string, p: nat, q: nat)
    requires IsFirstNumeral(line, false, p) && IsLastNumeral(line, false, q)
    ensures HasNumeral(line, false)
    ensures IntendedCalibrationValue(line, false) == 10 * DigitValue(line[p]) + DigitValue(line[q])
  {
    var r := IntendedCalibrationValue(line, false);
    IntendedValueDigits(line, false);
    assert r / 10 == DigitValue(line[p]);
    assert r % 10 == DigitValue(line[q]);
    DivModTen(r);
  }

  lemma DivModTen(r: int)
    requires 0 <= r
    ensures r == 10 * (r / 10) + r % 10
  {
  }

  /** "eightwo" in word mode as written: the source matches "eight",
      resumes at "wo" and finds nothing more, giving 88. */
  lemma OverlapAsWritten()
    ensures HasNumeral("eightwo", true)
    ensures ExtractCalibrationValue("eightwo", true) == 88
  {
    EightwoStrings();
    assert ConvertToNumber("eight") == Some(8) by {
      WordValuesOfTable(7);
    }
  }

  lemma EightwoStrings()
    ensures HasNumeral("eightwo", true)
    ensures FindNumberStrings("eightwo", true) == ("eight", "eight")
  {
    EightwoScan();
    assert OccursAt("eightwo", 0, NumberWords[7]);
    assert NumeralStartsAt("eightwo", true, 0);
  }

  lemma EightwoScan()
    ensures Scan("eightwo", true) == [Occurrence(0, "eight")]
  {
    var line := "eightwo";
    var m := Matches(line, true);
    EightwoMatches();
    assert ScanFrom(m, 7) == [];
    assert ScanFrom(m, 6) == [];
    assert ScanFrom(m, 5) == [];
    assert ScanFrom(m, 0) == [Occurrence(0, "eight")] + ScanFrom(m, 5);
  }

  lemma EightwoMatches()
    ensures |Matches("eightwo", true)| == 7
    ensures Matches("eightwo", true)[0] == Some("eight")
    ensures Matches("eightwo", true)[5].None? && Matches("eightwo", true)[6].None?
  {
    var line := "eightwo";
    assert OccursAt(line, 0, NumberWords[7]);
    assert WordAt(line, 0, 7) == Some("eight");
    NoWordBefore(line, 7);
    assert NumeralAt(line, 0, true) == Some("eight");
    NoWordNearEnd(line, 5);
    NoWordNearEnd(line, 6);
  }

  /** Only "eight" starts with an 'e': the table search at a column holding
      an 'e' passes over the first seven words. */
  lemma {:induction false} NoWordBefore(line: string, k: nat)
    requires 0 < |line| && line[0] == 'e' && k <= 7
    ensures WordAt(line, 0, 0) == WordAt(line, 0, k)
    decreases k
  {
    if k > 0 {
      assert NumberWords[k - 1][0] != 'e';
      assert !OccursAt(line, 0, NumberWords[k - 1]);
      NoWordBefore(line, k - 1);
    }
  }

  /** Every spelled numeral has at least three letters, so none starts in
      the last two columns of a line. */
  lemma NoWordNearEnd(line: string, p: nat)
    requires p < |line| < p + 3 && !IsDigit(line[p])
    ensures !NumeralStartsAt(line, true, p)
  {
    assert forall k :: 0 <= k < |NumberWords| ==> |NumberWords[k]| >= 3;
  }

  /** "eightwo" read as documented: its last numeral is "two", so 82. */
  lemma OverlapIntended()
    ensures HasNumeral("eightwo", true)
    ensures IntendedCalibrationValue("eightwo", true) == 82
  {
    var line := "eightwo";
    assert OccursAt(line, 0, NumberWords[7]);
    assert IsFirstNumeral(line, true, 0);
    assert OccursAt(line, 4, NumberWords[1]);
    assert !NumeralStartsAt(line, true, 5);
    assert !NumeralStartsAt(line, true, 6);
    assert IsLastNumeral(line, true, 4);
    var r := IntendedCalibrationValue(line, true);
    IntendedValueDigits(line, true);
    DenotesUnique(line, true, 0, r / 10, 8);
    DenotesUnique(line, true, 4, r % 10, 2);
  }

  /** No earlier numeral runs over column `q`: every numeral starting before
      `q` ends at or before it. */
  predicate NotInsideEarlier(line: string, words: bool, q: nat) {
    forall p :: 0 <= p < q && NumeralStartsAt(line, words, p) ==> p + |NumeralAt(line, p, words).value| <= q
  }

  /** When the line's last numeral does not start inside an earlier one, the
      scan's last match is that numeral. */
  lemma LastTakenIsLast(line: string, words: bool, q: nat)
    requires IsLastNumeral(line, words, q) && NotInsideEarlier(line, words, q)
    ensures HasNumeral(line, words) && LastTaken(line, words).start == q
  {
    assert NumeralStartsAt(line, words, q);
    var o := LastTaken(line, words);
    assert NumeralStartsAt(line, words, o.start);
  }

  /** The value as written, read off the first and the last numeral when the
      last does not start inside an earlier one. */
  lemma ValueWithoutLastOverlap(line: string, words: bool, p: nat, q: nat, a: int, b: int)
    requires IsFirstNumeral(line, words, p) && Denotes(line, words, p, a)
    requires IsLastNumeral(line, words, q) && Denotes(line, words, q, b)
    requires NotInsideEarlier(line, words, q)
    ensures HasNumeral(line, words)
    ensures ExtractCalibrationValue(line, words) == 10 * a + b
  {
    LastTakenIsLast(line, words, q);
    var r := ExtractCalibrationValue(line, words);
    CalibrationValueDigits(line, words);
    DenotesUnique(line, words, p, a, r / 10);
    DenotesUnique(line, words, q, b, r % 10);
    DivModTen(r);
  }

  /** The as-written and the documented values differ only when the line's
      last numeral starts inside an earlier numeral, as in "eightwo". */
  lemma AgreesUnlessLastOverlaps(line: string, words: bool)
    requires HasNumeral(line, words)
    requires forall q :: IsLastNumeral(line, words, q) ==> NotInsideEarlier(line, words, q)
    ensures ExtractCalibrationValue(line, words) == IntendedCalibrationValue(line, words)
  {
    var f, l := FirstStart(line, words), LastStart(line, words);
    ValueWithoutLastOverlap(line, words, f, l, NumeralNumber(line, words, f), NumeralNumber(line, words, l));
  }

  /** The spelled numeral found at a column is the one occurring there. */
  lemma WordFound(line: string, p: nat, k: nat)
    requires k < |NumberWords| && OccursAt(line, p, NumberWords[k]) && !IsDigit(line[p])
    ensures NumeralAt(line, p, true) == Some(NumberWords[k])
  {
    var t := NumeralAt(line, p, true).value;
    var j :| 0 <= j < |NumberWords| && t == NumberWords[j] && OccursAt(line, p, t);
    if j != k {
      HeadOfWord(line, p, j);
      HeadOfWord(line, p, k);
      WordHeadsDistinct(j, k);
    }
  }

  /** `c` followed by `d` begins a spelled numeral. */
  predicate IsWordHead(c: char, d: char) {
    (c == 'o' && d == 'n') || (c == 't' && (d == 'w' || d == 'h')) || (c == 'f' && (d == 'o' || d == 'i'))
    || (c == 's' && (d == 'i' || d == 'e')) || (c == 'e' && d == 'i') || (c == 'n' && d == 'i')
  }

  /** A spelled numeral occurring at column `p` begins with the two
      characters found there. */
  lemma HeadIsWordHead(line: string, p: nat, k: nat)
    requires k < |NumberWords| && OccursAt(line, p, NumberWords[k])
    ensures p + 2 <= |line| && IsWordHead(line[p], line[p + 1])
  {
    HeadOfWord(line, p, k);
    assert line[p] == line[p..p + 2][0] && line[p + 1] == line[p..p + 2][1];
    assert IsWordHead(NumberWords[k][0], NumberWords[k][1]);
  }

  /** No numeral starts at a letter when it and the next character begin no
      spelled numeral. */
  lemma NoWordAt(line: string, p: nat)
    requires p + 2 <= |line| && !IsDigit(line[p]) && !IsWordHead(line[p], line[p + 1])
    ensures !NumeralStartsAt(line, true, p)
  {
    forall k | 0 <= k < |NumberWords|
      ensures !OccursAt(line, p, NumberWords[k])
    {
      if OccursAt(line, p, NumberWords[k]) {
        HeadIsWordHead(line, p, k);
      }
    }
  }

  /** Example of the puzzle statement in word mode: "two1nine" gives 29. */
  lemma ExampleWords()
    ensures HasNumeral("two1nine", true) && ExtractCalibrationValue("two1nine", true) == 29
  {
    TwoOneNineNumerals("two1nine");
    ValueWithoutLastOverlap("two1nine", true, 0, 4, 2, 9);
  }

  lemma TwoOneNineNumerals(line: string)
    requires line == "two1nine"
    ensures IsFirstNumeral(line, true, 0) && Denotes(line, true, 0, 2)
    ensures IsLastNumeral(line, true, 4) && Denotes(line, true, 4, 9)
    ensures NotInsideEarlier(line, true, 4)
  {
    assert OccursAt(line, 0, NumberWords[1]);
    assert OccursAt(line, 4, NumberWords[8]);
    forall q | 4 < q < |line|
      ensures !NumeralStartsAt(line, true, q)
    {
      if q == 5 {
        NoWordAt(line, q);
      } else {
        NoWordNearEnd(line, q);
      }
    }
    forall p | 0 <= p < 4 && NumeralStartsAt(line, true, p)
      ensures p + |NumeralAt(line, p, true).value| <= 4
    {
      if p == 0 {
        WordFound(line, 0, 1);
      } else if p != 3 {
        NoWordAt(line, p);
      }
    }
  }

  /** "eightwothree" in word mode gives 83: "two" overlaps "eight", but the
      last numeral "three" stands clear of both. */
  lemma ExampleOverlapInside()
    ensures HasNumeral("eightwothree", true) && ExtractCalibrationValue("eightwothree", true) == 83
  {
    EightwothreeFirst("eightwothree");
    EightwothreeLast("eightwothree");
    ValueWithoutLastOverlap("eightwothree", true, 0, 7, 8, 3);
  }

  /** The documented value of "eightwothree" is the same 83. */
  lemma ExampleOverlapInsideAgrees()
    ensures HasNumeral("eightwothree", true) && IntendedCalibrationValue("eightwothree", true) == 83
  {
    ExampleOverlapInside();
    EightwothreeLast("eightwothree");
    AgreesUnlessLastOverlaps("eightwothree", true);
  }

  lemma EightwothreeFirst(line: string)
    requires line == "eightwothree"
    ensures IsFirstNumeral(line, true, 0) && Denotes(line, true, 0, 8)
  {
    assert OccursAt(line, 0, NumberWords[7]);
  }

  lemma EightwothreeLast(line: string)
    requires line == "eightwothree"
    ensures IsLastNumeral(line, true, 7) && Denotes(line, true, 7, 3)
    ensures forall q :: IsLastNumeral(line, true, q) ==> q == 7
    ensures NotInsideEarlier(line, true, 7)
  {
    assert OccursAt(line, 7, NumberWords[2]);
    EightwothreeNoneAfter(line);
    EightwothreeClear(line);
  }

  lemma EightwothreeNoneAfter(line: string)
    requires line == "eightwothree"
    ensures forall q :: 7 < q < |line| ==> !NumeralStartsAt(line, true, q)
  {
    forall q | 7 < q < |line|
      ensures !NumeralStartsAt(line, true, q)
    {
      if q < 10 {
        NoWordAt(line, q);
      } else {
        NoWordNearEnd(line, q);
      }
    }
  }

  lemma EightwothreeClear(line: string)
    requires line == "eightwothree"
    ensures NotInsideEarlier(line, true, 7)
  {
    forall p | 0 <= p < 7 && NumeralStartsAt(line, true, p)
      ensures p + |NumeralAt(line, p, true).value| <= 7
    {
      if p == 0 {
        assert OccursAt(line, 0, NumberWords[7]);
        WordFound(line, 0, 7);
      } else if p == 4 {
        assert OccursAt(line, 4, NumberWords[1]);
        WordFound(line, 4, 1);
      } else {
        NoWordAt(line, p);
      }
    }
  }
}
