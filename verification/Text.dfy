/**
  Character classes and small scanners shared by the four puzzle solvers:
  decimal digit runs, the `std::stoi`-style integer parser, and splitting a
  line at a set of delimiter characters.
 */
module Text {

  /** The conventional optional value; `None` stands for a parse that throws. */
  datatype Option<T> = None | Some(value: T)

  predicate IsDigit(c: char) {
    '0' <= c <= '9'
  }

  /** The whitespace class of `std::isspace` and of the regex `\s`:
      space, tab, line feed, vertical tab, form feed, carriage return. */
  predicate IsSpace(c: char) {
    c == ' ' || '\t' <= c <= '\r'
  }

  predicate AllDigits(s: string) {
    forall i :: 0 <= i < |s| ==> IsDigit(s[i])
  }

  function DigitValue(c: char): (d: nat)
    requires IsDigit(c)
    ensures d <= 9
  {
    c as int - '0' as int
  }

  function DigitChar(d: nat): (c: char)
    requires d <= 9
    ensures IsDigit(c) && DigitValue(c) == d
  {
    ('0' as int + d) as char
  }

  /** True iff `w` occurs in `s` starting at index `i`. */
  predicate OccursAt(s: string, i: nat, w: string) {
    i + |w| <= |s| && s[i..i + |w|] == w
  }

  /** The value of a string of decimal digits, most significant first. */
  function DecimalValue(s: string): nat
    requires AllDigits(s)
    decreases |s|
  {
    if |s| == 0 then 0 else DecimalValue(s[..|s| - 1]) * 10 + DigitValue(s[|s| - 1])
  }

  /** The decimal representation of `n` without leading zeros. */
  function Show(n: nat): (s: string)
    ensures 1 <= |s| && AllDigits(s)
    ensures n < 10 <==> |s| == 1
  {
    if n < 10 then [DigitChar(n)] else Show(n / 10) + [DigitChar(n % 10)]
  }

  /** Reading back what `Show` writes gives the number again. */
  lemma {:induction false} DecimalValueOfShow(n: nat)
    ensures DecimalValue(Show(n)) == n
  {
    if n >= 10 {
      var s := Show(n);
      assert s[..|s| - 1] == Show(n / 10);
      DecimalValueOfShow(n / 10);
    }
  }

  /** The length of the run of digits of `s` that starts at `i`. */
  function RunLength(s: string, i: nat): (k: nat)
    requires i <= |s|
    ensures i + k <= |s|
    ensures forall j :: i <= j < i + k ==> IsDigit(s[j])
    ensures i + k == |s| || !IsDigit(s[i + k])
    decreases |s| - i
  {
    if i < |s| && IsDigit(s[i]) then 1 + RunLength(s, i + 1) else 0
  }

  /** `s[a..b]` is a maximal non-empty run of digits. */
  predicate IsMaximalRun(s: string, a: nat, b: nat) {
    && a < b <= |s|
    && (forall j :: a <= j < b ==> IsDigit(s[j]))
    && (a == 0 || !IsDigit(s[a - 1]))
    && (b == |s| || !IsDigit(s[b]))
  }

  /** A digit run by its first column and its length. */
  datatype Run = Run(start: nat, len: nat)

  /** The maximal digit runs of `s` at or after `i`, left to right: what
      repeated `regex_search` with `\d+` on the remaining suffix returns. */
  function DigitRuns(s: string, i: nat): (r: seq<Run>)
    requires i <= |s|
    requires i == 0 || i == |s| || !IsDigit(s[i - 1]) || !IsDigit(s[i])
    ensures forall k :: 0 <= k < |r| ==> i <= r[k].start && IsMaximalRun(s, r[k].start, r[k].start + r[k].len)
    ensures forall k :: 0 <= k < |r| - 1 ==> r[k].start + r[k].len < r[k + 1].start
    decreases |s| - i
  {
    if i == |s| then []
    else if IsDigit(s[i]) then
      var k := RunLength(s, i);
      [Run(i, k)] + DigitRuns(s, i + k)
    else
      DigitRuns(s, i + 1)
  }

  /** Column `p` lies inside `run`. */
  predicate InRun(run: Run, p: int) {
    run.start <= p < run.start + run.len
  }

  /** Every digit at or after `i` lies inside one of the runs. */
  lemma {:induction false} DigitRunsCover(s: string, i: nat, p: nat) returns (k: nat)
    requires i <= p < |s| && IsDigit(s[p])
    requires i == 0 || !IsDigit(s[i - 1]) || !IsDigit(s[i])
    ensures k < |DigitRuns(s, i)| && InRun(DigitRuns(s, i)[k], p)
    decreases |s| - i, 1
  {
    if IsDigit(s[i]) {
      k := DigitRunsCoverAt(s, i, p);
    } else {
      assert DigitRuns(s, i) == DigitRuns(s, i + 1);
      k := DigitRunsCover(s, i + 1, p);
    }
  }

  /** The case of `DigitRunsCover` where a run starts at `i`. */
  lemma {:induction false} DigitRunsCoverAt(s: string, i: nat, p: nat) returns (k: nat)
    requires i <= p < |s| && IsDigit(s[p]) && IsDigit(s[i])
    requires i == 0 || !IsDigit(s[i - 1])
    ensures k < |DigitRuns(s, i)| && InRun(DigitRuns(s, i)[k], p)
    decreases |s| - i, 0
  {
    var n := RunLength(s, i);
    var rest := DigitRuns(s, i + n);
    var all := DigitRuns(s, i);
    assert all == [Run(i, n)] + rest;
    if p >= i + n {
      var j := DigitRunsCover(s, i + n, p);
      assert all[j + 1] == rest[j];
      k := j + 1;
    } else {
      assert all[0] == Run(i, n);
      k := 0;
    }
  }

  /** Every maximal run at or after `i` is one of the runs found. */
  lemma DigitRunsComplete(s: string, i: nat, a: nat, b: nat)
    requires i <= a && IsMaximalRun(s, a, b)
    requires i == 0 || !IsDigit(s[i - 1]) || i == |s| || !IsDigit(s[i])
    ensures Run(a, b - a) in DigitRuns(s, i)
  {
    var r := DigitRuns(s, i);
    var k := DigitRunsCover(s, i, a);
    assert IsMaximalRun(s, r[k].start, r[k].start + r[k].len);
    assert r[k] == Run(a, b - a);
  }

  /** No digit lies between `i` and the first run. */
  lemma {:induction false} DigitRunsFirst(s: string, i: nat)
    requires i <= |s|
    requires i == 0 || i == |s| || !IsDigit(s[i - 1]) || !IsDigit(s[i])
    ensures |DigitRuns(s, i)| == 0 ==> forall j :: i <= j < |s| ==> !IsDigit(s[j])
    ensures |DigitRuns(s, i)| > 0 ==> forall j :: i <= j < DigitRuns(s, i)[0].start ==> !IsDigit(s[j])
    decreases |s| - i
  {
    if i < |s| && !IsDigit(s[i]) {
      DigitRunsFirst(s, i + 1);
    }
  }

  /** The digits of a run. */
  function RunText(s: string, run: Run): (t: string)
    requires run.start + run.len <= |s|
    requires forall j :: run.start <= j < run.start + run.len ==> IsDigit(s[j])
    ensures AllDigits(t) && |t| == run.len
  {
    s[run.start..run.start + run.len]
  }

  /** A digit run does not look behind its start. */
  lemma {:induction false} RunLengthShift(pre: string, t: string, q: nat)
    requires q <= |t|
    ensures RunLength(pre + t, |pre| + q) == RunLength(t, q)
    decreases |t| - q
  {
    if q < |t| {
      assert (pre + t)[|pre| + q] == t[q];
      RunLengthShift(pre, t, q + 1);
    }
  }

  /** Drops leading whitespace. */
  function TrimStart(s: string): (t: string)
    ensures |t| <= |s| && t == s[|s| - |t|..]
    ensures |t| == 0 || !IsSpace(t[0])
    ensures forall j :: 0 <= j < |s| - |t| ==> IsSpace(s[j])
  {
    if |s| > 0 && IsSpace(s[0]) then TrimStart(s[1..]) else s
  }

  /** The integer that `std::stoi` reads from `s`: leading whitespace is
      skipped, an optional sign is read, then the longest run of digits;
      `None` when no digit follows (where `stoi` throws). Range errors are
      not modelled. */
  function ParseInt(s: string): (r: Option<int>)
  {
    var t := TrimStart(s);
    if |t| > 0 && (t[0] == '+' || t[0] == '-') then
      var k := RunLength(t, 1);
      if k == 0 then None
      else
        var v: int := DecimalValue(t[1..1 + k]);
        if t[0] == '-' then Some(-v) else Some(v)
    else
      var k := RunLength(t, 0);
      if k == 0 then None else Some(DecimalValue(t[..k]))
  }

  /** `ParseInt` reads back a number written by `Show` behind any amount of
      whitespace and in front of anything that is not a digit. */
  lemma ParseIntOfShow(ws: string, n: nat, rest: string)
    requires forall j :: 0 <= j < |ws| ==> IsSpace(ws[j])
    requires |rest| == 0 || !IsDigit(rest[0])
    ensures ParseInt(ws + Show(n) + rest) == Some(n)
  {
    var d := Show(n);
    var t := d + rest;
    assert ws + d + rest == ws + t;
    assert IsDigit(t[0]);
    TrimAfterSpaces(ws, t);
    assert TrimStart(ws + d + rest) == t;
    assert !(t[0] == '+' || t[0] == '-');
    RunLengthOfBlock(d, rest);
    assert RunLength(t, 0) == |d|;
    assert t[..|d|] == d;
    DecimalValueOfShow(n);
    assert ParseInt(ws + d + rest) == Some(DecimalValue(d));
  }

  lemma {:induction false} TrimAfterSpaces(ws: string, t: string)
    requires forall j :: 0 <= j < |ws| ==> IsSpace(ws[j])
    requires |t| > 0 && !IsSpace(t[0])
    ensures TrimStart(ws + t) == t
  {
    if |ws| > 0 {
      assert (ws + t)[1..] == ws[1..] + t;
      TrimAfterSpaces(ws[1..], t);
    }
  }

  /** A block of digits followed by a non-digit is one run. */
  lemma {:induction false} RunLengthOfBlock(d: string, rest: string)
    requires AllDigits(d)
    requires |rest| == 0 || !IsDigit(rest[0])
    ensures RunLength(d + rest, 0) == |d|
  {
    RunLengthFrom(d + rest, 0, |d|);
  }

  lemma {:induction false} RunLengthFrom(s: string, i: nat, e: nat)
    requires i <= e <= |s|
    requires forall j :: i <= j < e ==> IsDigit(s[j])
    requires e == |s| || !IsDigit(s[e])
    ensures RunLength(s, i) == e - i
    decreases e - i
  {
    if i < e {
      RunLengthFrom(s, i + 1, e);
    }
  }

  /* ---------------------------------------------------------------- */
  /* Splitting at delimiter characters                                 */
  /* ---------------------------------------------------------------- */

  predicate NoneIn(s: string, delims: set<char>) {
    forall j :: 0 <= j < |s| ==> s[j] !in delims
  }

  /** The delimiter characters of `s`, in order. */
  function Delimiters(s: string, delims: set<char>): (r: string)
    ensures |r| <= |s|
    ensures forall j :: 0 <= j < |r| ==> r[j] in delims
  {
    if |s| == 0 then []
    else if s[0] in delims then [s[0]] + Delimiters(s[1..], delims)
    else Delimiters(s[1..], delims)
  }

  /** Glues fields back together, one separator between neighbours. */
  function Join(fields: seq<string>, seps: string): string
    requires |fields| == |seps| + 1
    decreases |seps|
  {
    if |seps| == 0 then fields[0] else fields[0] + [seps[0]] + Join(fields[1..], seps[1..])
  }

  /** `s` cut at every delimiter character, keeping empty fields: the pieces
      a `find_first_of` loop visits. */
  function Fields(s: string, delims: set<char>): (r: seq<string>)
    ensures |r| == |Delimiters(s, delims)| + 1
    ensures forall k :: 0 <= k < |r| ==> NoneIn(r[k], delims)
    ensures Join(r, Delimiters(s, delims)) == s
  {
    if |s| == 0 then [""]
    else
      var rest := Fields(s[1..], delims);
      if s[0] in delims then
        assert [""] + rest == [""] + rest;
        [""] + rest
      else
        var r := [[s[0]] + rest[0]] + rest[1..];
        assert r[1..] == rest[1..];
        JoinConsChar(s[0], rest, Delimiters(s[1..], delims));
        r
  }

  lemma JoinConsChar(c: char, fields: seq<string>, seps: string)
    requires |fields| == |seps| + 1
    ensures Join([[c] + fields[0]] + fields[1..], seps) == [c] + Join(fields, seps)
  {
    var f := [[c] + fields[0]] + fields[1..];
    assert f[1..] == fields[1..];
  }

  /** Cutting a joined line gives back its fields. */
  lemma {:induction false} FieldsOfJoin(fields: seq<string>, seps: string, delims: set<char>)
    requires |fields| == |seps| + 1
    requires forall k :: 0 <= k < |fields| ==> NoneIn(fields[k], delims)
    requires forall j :: 0 <= j < |seps| ==> seps[j] in delims
    ensures Fields(Join(fields, seps), delims) == fields
    decreases |seps|
  {
    if |seps| == 0 {
      FieldsOfPlain(fields[0], delims);
    } else {
      FieldsOfJoin(fields[1..], seps[1..], delims);
      FieldsOfPrefix(fields[0], seps[0], Join(fields[1..], seps[1..]), delims);
      assert [fields[0]] + fields[1..] == fields;
    }
  }

  lemma {:induction false} FieldsOfPlain(x: string, delims: set<char>)
    requires NoneIn(x, delims)
    ensures Fields(x, delims) == [x]
  {
    if |x| > 0 {
      FieldsOfPlain(x[1..], delims);
      assert [x[0]] + x[1..] == x;
    }
  }

  lemma {:induction false} FieldsOfPrefix(x: string, c: char, y: string, delims: set<char>)
    requires NoneIn(x, delims) && c in delims
    ensures Fields(x + [c] + y, delims) == [x] + Fields(y, delims)
  {
    if |x| == 0 {
      assert x + [c] + y == [c] + y;
      assert ([c] + y)[1..] == y;
    } else {
      var s := x + [c] + y;
      assert s[1..] == x[1..] + [c] + y;
      FieldsOfPrefix(x[1..], c, y, delims);
      assert [x[0]] + x[1..] == x;
    }
  }

  /** The non-empty elements of `pieces`, in order. */
  function NonEmpty(pieces: seq<string>): (r: seq<string>)
    ensures |r| <= |pieces|
    ensures forall k :: 0 <= k < |r| ==> |r[k]| > 0
    ensures forall x :: x in r <==> x in pieces && |x| > 0
  {
    if |pieces| == 0 then []
    else if |pieces[0]| > 0 then [pieces[0]] + NonEmpty(pieces[1..])
    else NonEmpty(pieces[1..])
  }

  /** All characters of `s` but the delimiters. */
  function Strip(s: string, delims: set<char>): (r: string)
    ensures NoneIn(r, delims)
  {
    if |s| == 0 then ""
    else if s[0] in delims then Strip(s[1..], delims)
    else [s[0]] + Strip(s[1..], delims)
  }

  function Concat(pieces: seq<string>): string {
    if |pieces| == 0 then "" else pieces[0] + Concat(pieces[1..])
  }

  lemma {:induction false} ConcatNonEmpty(pieces: seq<string>)
    ensures Concat(NonEmpty(pieces)) == Concat(pieces)
  {
    if |pieces| > 0 {
      ConcatNonEmpty(pieces[1..]);
    }
  }

  lemma {:induction false} ConcatFields(s: string, delims: set<char>)
    ensures Concat(Fields(s, delims)) == Strip(s, delims)
  {
    if |s| > 0 {
      ConcatFields(s[1..], delims);
      var rest := Fields(s[1..], delims);
      if s[0] !in delims {
        var r := [[s[0]] + rest[0]] + rest[1..];
        assert r[1..] == rest[1..];
        assert Concat(rest) == rest[0] + Concat(rest[1..]);
      }
    }
  }
}
