/**
  Challenge 4: scratchcards. A line reads `Card <n>: <winning> | <owned>`.
  A card scores 0 without matches and 2^(n-1) with n matches. In part 2 a
  card with n matches wins one copy of each of the next n cards, once per
  copy of itself, and the answer is the number of cards held at the end.
 */
module Scratchcards {
  import opened Text

  /** The number of slots `splitLine` fills. */
  const LineParts: nat := 3

  /** The separators `splitLine` cuts at. */
  const CardDelims: set<char> := {':', '|'}

  datatype CardContent = CardContent(cardNum: nat, winningNumbers: set<nat>, actualNumbers: set<nat>)

  datatype Card = Card(cardContents: CardContent, numCards: nat)

  /* ---------------------------------------------------------------- */
  /* Parsing                                                           */
  /* ---------------------------------------------------------------- */

  /** The fields of `line` fit the three slots of `splitLine`: every field
      after the third is empty. The source writes a slot only for a non-empty
      field, so a non-empty fourth field would be written past the end of its
      array; empty ones (a trailing `|`, say) are never written. */
  predicate SplitFits(line: string) {
    forall k :: LineParts <= k < |Fields(line, CardDelims)| ==> Fields(line, CardDelims)[k] == ""
  }

  /** `splitLine`: header, winning numbers and owned numbers. A slot with no
      field stays empty, and empty fields after the third are dropped. */
  function SplitLine(line: string): (r: seq<string>)
    requires SplitFits(line)
    ensures |r| == LineParts
    ensures forall i :: 0 <= i < |r| ==> NoneIn(r[i], CardDelims)
    ensures Concat(r) == Strip(line, CardDelims)
  {
    var f := Fields(line, CardDelims);
    ConcatFields(line, CardDelims);
    var r := seq(LineParts, i requires 0 <= i < LineParts => if i < |f| then f[i] else "");
    SlotsConcat(f, r);
    r
  }

  /** The three slots hold what all the fields hold, when the fields after
      the third are empty. */
  lemma SlotsConcat(f: seq<string>, r: seq<string>)
    requires |r| == LineParts
    requires forall i :: 0 <= i < LineParts ==> r[i] == if i < |f| then f[i] else ""
    requires forall k :: LineParts <= k < |f| ==> f[k] == ""
    ensures Concat(r) == Concat(f)
  {
    if |f| <= LineParts {
      assert r == f + seq(LineParts - |f|, _ => "");
      ConcatPadded(f, LineParts - |f|);
    } else {
      assert r == f[..LineParts];
      assert f == r + f[LineParts..];
      ConcatAppend(r, f[LineParts..]);
      ConcatOfEmpties(f[LineParts..]);
    }
  }

  lemma {:induction false} ConcatAppend(a: seq<string>, b: seq<string>)
    ensures Concat(a + b) == Concat(a) + Concat(b)
  {
    if |a| > 0 {
      assert (a + b)[1..] == a[1..] + b;
      ConcatAppend(a[1..], b);
    } else {
      assert a + b == b;
    }
  }

  lemma {:induction false} ConcatOfEmpties(ps: seq<string>)
    requires forall k :: 0 <= k < |ps| ==> ps[k] == ""
    ensures Concat(ps) == ""
  {
    if |ps| > 0 {
      ConcatOfEmpties(ps[1..]);
    }
  }

  lemma {:induction false} ConcatPadded(f: seq<string>, n: nat)
    ensures Concat(f + seq(n, _ => "")) == Concat(f)
    decreases |f|
  {
    if |f| == 0 {
      ConcatEmpties(n);
      assert f + seq(n, _ => "") == seq(n, _ => "");
    } else {
      assert (f + seq(n, _ => ""))[1..] == f[1..] + seq(n, _ => "");
      ConcatPadded(f[1..], n);
    }
  }

  lemma {:induction false} ConcatEmpties(n: nat)
    ensures Concat(seq(n, _ => "")) == ""
  {
    if n > 0 {
      assert seq(n, _ => "")[1..] == seq(n - 1, _ => "");
      ConcatEmpties(n - 1);
    }
  }

  /** A line written as header, `:`, winning numbers, `|`, owned numbers is
      cut back into those three. */
  lemma SplitLineOfParts(header: string, winning: string, owned: string)
    requires NoneIn(header, CardDelims) && NoneIn(winning, CardDelims) && NoneIn(owned, CardDelims)
    ensures |Delimiters(header + ":" + winning + "|" + owned, CardDelims)| == 2
    ensures SplitLine(header + ":" + winning + "|" + owned) == [header, winning, owned]
  {
    var line := header + ":" + winning + "|" + owned;
    assert Join([header, winning, owned], ":|") == line by {
      assert Join([header, winning, owned][1..], "|") == winning + "|" + owned by {
        assert [header, winning, owned][1..][1..] == [owned];
      }
    }
    FieldsOfJoin([header, winning, owned], ":|", CardDelims);
  }

  lemma JoinTrailingBar(header: string, winning: string, owned: string)
    ensures Join([header, winning, owned, ""], ":||") == header + ":" + winning + "|" + owned + "|"
  {
    var t := [header, winning, owned, ""];
    assert t[1..] == [winning, owned, ""] && t[1..][1..] == [owned, ""] && t[1..][1..][1..] == [""];
    assert Join([owned, ""], "|") == owned + "|";
    assert Join([winning, owned, ""], "||") == winning + "|" + (owned + "|");
  }

  /** A trailing `|` after the owned numbers gives an empty fourth field,
      which the split accepts and drops. */
  lemma SplitLineTrailingBar(header: string, winning: string, owned: string)
    requires NoneIn(header, CardDelims) && NoneIn(winning, CardDelims) && NoneIn(owned, CardDelims)
    ensures |Delimiters(header + ":" + winning + "|" + owned + "|", CardDelims)| == 3
    ensures SplitFits(header + ":" + winning + "|" + owned + "|")
    ensures SplitLine(header + ":" + winning + "|" + owned + "|") == [header, winning, owned]
  {
    JoinTrailingBar(header, winning, owned);
    FieldsOfJoin([header, winning, owned, ""], ":||", CardDelims);
  }

  /** The value of the maximal run `s[a..b]`. */
  function RunValue(s: string, a: nat, b: nat): nat
    requires IsMaximalRun(s, a, b)
  {
    DecimalValue(RunText(s, Run(a, b - a)))
  }

  /** `s[a..b]` is the first run of digits of `s`. */
  predicate IsFirstRun(s: string, a: nat, b: nat) {
    IsMaximalRun(s, a, b) && forall j :: 0 <= j < a ==> !IsDigit(s[j])
  }

  /** `extractCardNum`: the first digit run read with `stoul`; `None` when
      there is no digit, where `stoul` of the empty match throws. */
  function ExtractCardNum(cardNumString: string): (r: Option<nat>)
    ensures r.None? <==> forall j :: 0 <= j < |cardNumString| ==> !IsDigit(cardNumString[j])
    ensures r.Some? ==> exists a: nat, b: nat :: IsFirstRun(cardNumString, a, b) && r.value == RunValue(cardNumString, a, b)
  {
    var runs := DigitRuns(cardNumString, 0);
    DigitRunsFirst(cardNumString, 0);
    if |runs| == 0 then None
    else
      var a, b := runs[0].start, runs[0].start + runs[0].len;
      assert runs[0] == Run(a, b - a);
      assert IsFirstRun(cardNumString, a, b);
      Some(RunValue(cardNumString, a, b))
  }

  /** The card number is read back from a header such as `Card 12`. */
  lemma ExtractCardNumOfShow(prefix: string, n: nat, rest: string)
    requires forall j :: 0 <= j < |prefix| ==> !IsDigit(prefix[j])
    requires |rest| == 0 || !IsDigit(rest[0])
    ensures ExtractCardNum(prefix + Show(n) + rest) == Some(n)
  {
    var s := prefix + Show(n) + rest;
    var e := |prefix| + |Show(n)|;
    ShowIsFirstRun(prefix, n, rest);
    var r := ExtractCardNum(s);
    assert r.Some? by {
      assert IsDigit(s[|prefix|]);
    }
    var a: nat, b: nat :| IsFirstRun(s, a, b) && r.value == RunValue(s, a, b);
    FirstRunUnique(s, a, b, |prefix|, e);
    DecimalValueOfShow(n);
  }

  /** The digits `Show` writes after a digit-free prefix form the first run
      of the string. */
  lemma ShowIsFirstRun(prefix: string, n: nat, rest: string)
    requires forall j :: 0 <= j < |prefix| ==> !IsDigit(prefix[j])
    requires |rest| == 0 || !IsDigit(rest[0])
    ensures IsFirstRun(prefix + Show(n) + rest, |prefix|, |prefix| + |Show(n)|)
    ensures RunText(prefix + Show(n) + rest, Run(|prefix|, |Show(n)|)) == Show(n)
  {
    var s := prefix + Show(n) + rest;
    var d := Show(n);
    var e := |prefix| + |d|;
    assert forall j :: 0 <= j < |prefix| ==> s[j] == prefix[j];
    assert forall j :: |prefix| <= j < e ==> s[j] == d[j - |prefix|];
    assert e == |s| || s[e] == rest[0];
    assert s[|prefix|..e] == d;
  }

  /** A string has only one first run. */
  lemma FirstRunUnique(s: string, a: nat, b: nat, a': nat, b': nat)
    requires IsFirstRun(s, a, b) && IsFirstRun(s, a', b')
    ensures a == a' && b == b'
  {
    assert a >= a' by { assert IsDigit(s[a]); }
    assert a' >= a by { assert IsDigit(s[a']); }
    assert b <= b' by { assert b' == |s| || !IsDigit(s[b']); }
    assert b' <= b by { assert b == |s| || !IsDigit(s[b]); }
  }

  /** `extractNumbers`: the values of all digit runs, as a set. */
  function ExtractNumbers(numsStr: string): set<nat> {
    var runs := DigitRuns(numsStr, 0);
    set k | 0 <= k < |runs| :: DecimalValue(RunText(numsStr, runs[k]))
  }

  /** A number is collected exactly when some maximal digit run spells it;
      repeated numbers collapse into one element. */
  lemma ExtractNumbersAreRunValues(numsStr: string, v: nat)
    ensures v in ExtractNumbers(numsStr) <==>
      exists a: nat, b: nat :: IsMaximalRun(numsStr, a, b) && v == RunValue(numsStr, a, b)
  {
    if v in ExtractNumbers(numsStr) {
      ExtractedIsRunValue(numsStr, v);
    } else {
      forall a: nat, b: nat | IsMaximalRun(numsStr, a, b)
        ensures v != RunValue(numsStr, a, b)
      {
        RunValueExtracted(numsStr, a, b);
      }
    }
  }

  lemma ExtractedIsRunValue(numsStr: string, v: nat)
    requires v in ExtractNumbers(numsStr)
    ensures exists a: nat, b: nat :: IsMaximalRun(numsStr, a, b) && v == RunValue(numsStr, a, b)
  {
    var runs := DigitRuns(numsStr, 0);
    var k :| 0 <= k < |runs| && v == DecimalValue(RunText(numsStr, runs[k]));
    var a, b := FoundRunValue(numsStr, k);
    assert IsMaximalRun(numsStr, a, b) && v == RunValue(numsStr, a, b);
  }

  /** Each run found is a maximal run, and its value is the run's value. */
  lemma FoundRunValue(numsStr: string, k: nat) returns (a: nat, b: nat)
    requires k < |DigitRuns(numsStr, 0)|
    ensures IsMaximalRun(numsStr, a, b) && DigitRuns(numsStr, 0)[k] == Run(a, b - a)
    ensures DecimalValue(RunText(numsStr, DigitRuns(numsStr, 0)[k])) == RunValue(numsStr, a, b)
  {
    var run := DigitRuns(numsStr, 0)[k];
    a, b := run.start, run.start + run.len;
  }

  lemma RunValueExtracted(numsStr: string, a: nat, b: nat)
    requires IsMaximalRun(numsStr, a, b)
    ensures RunValue(numsStr, a, b) in ExtractNumbers(numsStr)
  {
    var k := DigitRunsCover(numsStr, 0, a);
    RunFoundIsRun(numsStr, k, a, b);
    ExtractsRun(numsStr, k);
  }

  /** The run found around the start of a maximal run is that run. */
  lemma RunFoundIsRun(numsStr: string, k: nat, a: nat, b: nat)
    requires IsMaximalRun(numsStr, a, b)
    requires k < |DigitRuns(numsStr, 0)| && InRun(DigitRuns(numsStr, 0)[k], a)
    ensures DigitRuns(numsStr, 0)[k] == Run(a, b - a)
  {
    var run := DigitRuns(numsStr, 0)[k];
    assert IsMaximalRun(numsStr, run.start, run.start + run.len);
  }

  /** The value of each run found is collected. */
  lemma ExtractsRun(numsStr: string, k: nat)
    requires k < |DigitRuns(numsStr, 0)|
    ensures DecimalValue(RunText(numsStr, DigitRuns(numsStr, 0)[k])) in ExtractNumbers(numsStr)
  {
  }

  /** `parseLine`: one more card, held once. `None` where the source throws
      (a header without a digit). */
  function ParseLine(line: string, cards: seq<Card>): (r: Option<seq<Card>>)
    requires SplitFits(line)
    ensures r.None? <==> ExtractCardNum(SplitLine(line)[0]).None?
    ensures r.Some? ==> |r.value| == |cards| + 1 && r.value[..|cards|] == cards && r.value[|cards|].numCards == 1
    ensures r.Some? ==> r.value[|cards|].cardContents.cardNum == ExtractCardNum(SplitLine(line)[0]).value
    ensures r.Some? ==> r.value[|cards|].cardContents.winningNumbers == ExtractNumbers(SplitLine(line)[1])
    ensures r.Some? ==> r.value[|cards|].cardContents.actualNumbers == ExtractNumbers(SplitLine(line)[2])
  {
    var lineSplit := SplitLine(line);
    match ExtractCardNum(lineSplit[0])
    case None => None
    case Some(cardNum) =>
      var content := CardContent(cardNum, ExtractNumbers(lineSplit[1]), ExtractNumbers(lineSplit[2]));
      assert (cards + [Card(content, 1)])[..|cards|] == cards;
      Some(cards + [Card(content, 1)])
  }

  /** A card line as the puzzle input writes it. */
  function CardText(n: nat, winning: string, owned: string): string {
    "Card " + Show(n) + ":" + winning + "|" + owned
  }

  /** A written card line parses into one more card held once, with its
      number and the numbers spelled in its two lists. */
  lemma ParseCardText(n: nat, winning: string, owned: string, cards: seq<Card>)
    requires NoneIn(winning, CardDelims) && NoneIn(owned, CardDelims)
    ensures |Delimiters(CardText(n, winning, owned), CardDelims)| == 2
    ensures ParseLine(CardText(n, winning, owned), cards) ==
      Some(cards + [Card(CardContent(n, ExtractNumbers(winning), ExtractNumbers(owned)), 1)])
  {
    var header := "Card " + Show(n);
    assert NoneIn(header, CardDelims) by {
      assert forall j :: 5 <= j < |header| ==> header[j] == Show(n)[j - 5];
    }
    assert CardText(n, winning, owned) == header + ":" + winning + "|" + owned;
    SplitLineOfParts(header, winning, owned);
    assert header == "Card " + Show(n) + "";
    ExtractCardNumOfShow("Card ", n, "");
  }

  /* ---------------------------------------------------------------- */
  /* Scoring                                                           */
  /* ---------------------------------------------------------------- */

  /** `getWinningMatches`: the owned numbers that are winning numbers. */
  function WinningMatches(c: CardContent): (r: set<nat>)
    ensures forall v :: v in r <==> v in c.winningNumbers && v in c.actualNumbers
  {
    c.winningNumbers * c.actualNumbers
  }

  /** `numWinningMatches`. */
  function NumWinningMatches(c: CardContent): (n: nat)
    ensures n <= |c.winningNumbers| && n <= |c.actualNumbers|
    ensures n == 0 <==> c.winningNumbers !! c.actualNumbers
    ensures n == |WinningMatches(c)|
  {
    var m := WinningMatches(c);
    assert m <= c.winningNumbers && m <= c.actualNumbers;
    SubsetSize(m, c.winningNumbers);
    SubsetSize(m, c.actualNumbers);
    assert |m| == 0 <==> forall v :: v !in m;
    |m|
  }

  /** The winning numbers split into those owned, which are the matches,
      and those not owned. */
  lemma MatchesPartition(c: CardContent)
    ensures NumWinningMatches(c) + |c.winningNumbers - c.actualNumbers| == |c.winningNumbers|
  {
    var m := WinningMatches(c);
    var missed := c.winningNumbers - c.actualNumbers;
    assert c.winningNumbers == m + missed;
    assert m * missed == {};
  }

  lemma {:induction false} SubsetSize(a: set<nat>, b: set<nat>)
    requires a <= b
    ensures |a| <= |b|
    decreases |b|
  {
    if exists x :: x in a {
      var x :| x in a;
      SubsetSize(a - {x}, b - {x});
    }
  }

  function Pow2(n: nat): (p: nat)
    ensures p >= 1
  {
    if n == 0 then 1 else 2 * Pow2(n - 1)
  }

  /** `score`: 0 without matches, else 1 doubled once per further match. */
  function Score(c: CardContent): (r: nat)
    ensures r == 0 <==> NumWinningMatches(c) == 0
    ensures r > 0 ==> 2 * r == Pow2(NumWinningMatches(c))
  {
    var nWinningMatches := NumWinningMatches(c);
    if nWinningMatches == 0 then 0 else Pow2(nWinningMatches - 1)
  }

  /** One more match doubles the score, once there is any. */
  lemma ScoreDoubles(c: CardContent, d: CardContent)
    requires NumWinningMatches(d) == NumWinningMatches(c) + 1 && NumWinningMatches(c) > 0
    ensures Score(d) == 2 * Score(c)
  {
  }

  function SumScores(cards: seq<Card>): nat {
    if |cards| == 0 then 0 else Score(cards[0].cardContents) + SumScores(cards[1..])
  }

  /** `part1`: the sum of the cards' scores; zero exactly when no card has a
      match. */
  function Part1(cards: seq<Card>): (score: nat)
    ensures score == 0 <==> forall i :: 0 <= i < |cards| ==> NumWinningMatches(cards[i].cardContents) == 0
    ensures |cards| == 1 ==> score == Score(cards[0].cardContents)
  {
    SumScoresZero(cards);
    SumScores(cards)
  }

  lemma {:induction false} SumScoresZero(cards: seq<Card>)
    ensures SumScores(cards) == 0 <==> forall i :: 0 <= i < |cards| ==> NumWinningMatches(cards[i].cardContents) == 0
  {
    if |cards| > 0 {
      SumScoresZero(cards[1..]);
      assert forall i :: 1 <= i < |cards| ==> cards[i] == cards[1..][i - 1];
    }
  }

  /** Cards score independently. */
  lemma {:induction false} Part1Append(a: seq<Card>, b: seq<Card>)
    ensures Part1(a + b) == Part1(a) + Part1(b)
  {
    if |a| > 0 {
      assert (a + b)[1..] == a[1..] + b;
      Part1Append(a[1..], b);
    } else {
      assert a + b == b;
    }
  }

  /* ---------------------------------------------------------------- */
  /* The copy cascade                                                  */
  /* ---------------------------------------------------------------- */

  function Matches(cards: seq<Card>, i: nat): nat
    requires i < |cards|
  {
    NumWinningMatches(cards[i].cardContents)
  }

  /** Card `i` hands copies to card `j`: `j` is among the next `m_i` cards,
      and `i` is not the last card (whose matches the loop never applies). */
  predicate Feeds(cards: seq<Card>, i: nat, j: nat)
    requires i < |cards|
  {
    i + 1 < |cards| && i < j <= i + Matches(cards, i)
  }

  /** How many copies of card `j` are held at the end: its own count plus
      what every earlier card feeding it holds. The reference definition the
      cascade is measured against. */
  function Copies(cards: seq<Card>, j: nat): nat
    requires j < |cards|
    decreases j, j + 1
  {
    cards[j].numCards + Inflow(cards, j, j)
  }

  /** What cards `0` to `k - 1` hand to card `j`. */
  function Inflow(cards: seq<Card>, j: nat, k: nat): nat
    requires k <= j < |cards|
    decreases j, k
  {
    if k == 0 then 0
    else Inflow(cards, j, k - 1) + (if Feeds(cards, k - 1, j) then Copies(cards, k - 1) else 0)
  }

  function SumCopies(cards: seq<Card>, n: nat): nat
    requires n <= |cards|
  {
    if n == 0 then 0 else SumCopies(cards, n - 1) + Copies(cards, n - 1)
  }

  /** The precondition of `part2`: a card list that is not empty (the loop
      bound `size() - 1` would wrap round) and whose matches never reach past
      the last card (the writes would leave the vector). */
  predicate CascadeFits(cards: seq<Card>) {
    |cards| > 0 && forall i :: 0 <= i < |cards| - 1 ==> i + Matches(cards, i) < |cards|
  }

  /** `part2`: push each card's count forward to the cards it wins, then add
      up the counts. The argument is a value: the caller's cards are not
      touched. */
  method Part2(cards: seq<Card>) returns (score: nat)
    requires CascadeFits(cards)
    ensures score == SumCopies(cards, |cards|)
  {
    var n := |cards|;
    var counts := new nat[n](i requires 0 <= i < n reads {} => cards[i].numCards);
    var cardIdx := 0;
    while cardIdx < n - 1
      invariant 0 <= cardIdx <= n - 1
      invariant forall j :: 0 <= j < n ==> counts[j] == cards[j].numCards + Inflow(cards, j, Level(j, cardIdx, cardIdx + 1))
    {
      PushCopies(cards, counts, cardIdx);
      cardIdx := cardIdx + 1;
    }
    forall j | 0 <= j < n
      ensures counts[j] == Copies(cards, j)
    {
      assert Level(j, n - 1, n) == j;
    }
    score := SumCounts(cards, counts);
  }

  /** One pass of the outer loop of `part2`: card `cardIdx` hands its count
      to each of the next `m` cards. */
  method PushCopies(cards: seq<Card>, counts: array<nat>, cardIdx: nat)
    requires CascadeFits(cards) && counts.Length == |cards| && cardIdx + 1 < |cards|
    requires forall j :: 0 <= j < |cards| ==> counts[j] == cards[j].numCards + Inflow(cards, j, Level(j, cardIdx, cardIdx + 1))
    modifies counts
    ensures forall j :: 0 <= j < |cards| ==> counts[j] == cards[j].numCards + Inflow(cards, j, Level(j, cardIdx + 1, cardIdx + 2))
  {
    var n := |cards|;
    var numMatches := Matches(cards, cardIdx);
    assert counts[cardIdx] == Copies(cards, cardIdx);
    var nextCardIdx := cardIdx + 1;
    while nextCardIdx < cardIdx + numMatches + 1
      invariant cardIdx + 1 <= nextCardIdx <= cardIdx + numMatches + 1
      invariant counts[cardIdx] == Copies(cards, cardIdx)
      invariant forall j :: 0 <= j < n ==> counts[j] == cards[j].numCards + Inflow(cards, j, Level(j, cardIdx, nextCardIdx))
    {
      forall j | 0 <= j < n
        ensures Inflow(cards, j, Level(j, cardIdx, nextCardIdx + 1))
          == Inflow(cards, j, Level(j, cardIdx, nextCardIdx)) + (if j == nextCardIdx then Copies(cards, cardIdx) else 0)
      {
        LevelStep(cards, cardIdx, nextCardIdx, j);
      }
      counts[nextCardIdx] := counts[nextCardIdx] + counts[cardIdx];
      nextCardIdx := nextCardIdx + 1;
    }
    forall j | 0 <= j < n
      ensures Inflow(cards, j, Level(j, cardIdx + 1, cardIdx + 2)) == Inflow(cards, j, Level(j, cardIdx, nextCardIdx))
    {
      LevelAdvance(cards, cardIdx, j);
    }
  }

  /** The closing loop of `part2`: the total number of cards held. */
  method SumCounts(cards: seq<Card>, counts: array<nat>) returns (score: nat)
    requires counts.Length == |cards|
    requires forall j :: 0 <= j < |cards| ==> counts[j] == Copies(cards, j)
    ensures score == SumCopies(cards, |cards|)
  {
    score := 0;
    var k := 0;
    while k < counts.Length
      invariant 0 <= k <= counts.Length
      invariant score == SumCopies(cards, k)
    {
      score := score + counts[k];
      k := k + 1;
    }
  }

  /** Once card `k` has handed out its copies, the cards it does not feed
      have had nothing from it. */
  lemma LevelAdvance(cards: seq<Card>, k: nat, j: nat)
    requires k + 1 < |cards| && j < |cards|
    ensures Inflow(cards, j, Level(j, k + 1, k + 2)) == Inflow(cards, j, Level(j, k, k + Matches(cards, k) + 1))
  {
    var m := Matches(cards, k);
    if k + m < j {
      assert Level(j, k + 1, k + 2) == k + 1;
      assert Level(j, k, k + m + 1) == k;
      assert !Feeds(cards, k, j);
    } else if k < j {
      assert Level(j, k + 1, k + 2) == k + 1;
      assert Level(j, k, k + m + 1) == k + 1;
    } else {
      assert Level(j, k + 1, k + 2) == j;
      assert Level(j, k, k + m + 1) == j;
    }
  }

  /** Card `k` handing its copies to card `next` raises the level of that
      card alone, by what card `k` holds. */
  lemma LevelStep(cards: seq<Card>, k: nat, next: nat, j: nat)
    requires next < |cards| && j < |cards| && k < next <= k + Matches(cards, k)
    ensures Inflow(cards, j, Level(j, k, next + 1))
      == Inflow(cards, j, Level(j, k, next)) + (if j == next then Copies(cards, k) else 0)
  {
    if j == next {
      assert Feeds(cards, k, j);
      assert Level(j, k, next + 1) == k + 1 && Level(j, k, next) == k;
    } else {
      assert Level(j, k, next + 1) == Level(j, k, next);
    }
  }

  /** How many earlier cards have handed their copies to card `j` while the
      cascade is at card `k`, about to hand to card `next`. */
  function Level(j: nat, k: nat, next: nat): nat {
    if k < j < next then k + 1 else if k < j then k else j
  }

  /** Copies are only ever added: a card ends with at least its own count. */
  lemma CopiesAtLeastOwn(cards: seq<Card>, j: nat)
    requires j < |cards|
    ensures Copies(cards, j) >= cards[j].numCards
  {
  }

  /** Nothing comes before the first card, so its count is unchanged. */
  lemma FirstCardUnchanged(cards: seq<Card>)
    requires |cards| > 0
    ensures Copies(cards, 0) == cards[0].numCards
  {
  }

  /** With every card held at least once, the total is at least the number
      of cards. */
  lemma {:induction false} TotalAtLeastCards(cards: seq<Card>, n: nat)
    requires n <= |cards|
    requires forall i :: 0 <= i < |cards| ==> cards[i].numCards >= 1
    ensures SumCopies(cards, n) >= n
  {
    if n > 0 {
      TotalAtLeastCards(cards, n - 1);
    }
  }

  /** Without any match the cascade changes nothing. */
  lemma {:induction false} NoMatchesNoCopies(cards: seq<Card>, j: nat, k: nat)
    requires k <= j < |cards|
    requires forall i :: 0 <= i < |cards| ==> Matches(cards, i) == 0
    ensures Inflow(cards, j, k) == 0
    decreases k
  {
    if k > 0 {
      NoMatchesNoCopies(cards, j, k - 1);
    }
  }

  /** Two cards, the first winning one copy of the second: three cards in
      all, and the cascade method agrees. */
  lemma ExampleCascade()
    ensures var cards := [Card(CardContent(1, {5}, {5}), 1), Card(CardContent(2, {5}, {6}), 1)];
      CascadeFits(cards) && Copies(cards, 1) == 2 && SumCopies(cards, 2) == 3
  {
    var cards := [Card(CardContent(1, {5}, {5}), 1), Card(CardContent(2, {5}, {6}), 1)];
    assert cards[0].cardContents.winningNumbers * cards[0].cardContents.actualNumbers == {5};
    assert Matches(cards, 0) == 1;
    assert Feeds(cards, 0, 1);
  }

  /** Card 1 of the puzzle statement: four of its winning numbers are owned
      (48, 83, 86 and 17), so it scores 8. */
  lemma ExampleScore()
    ensures var c := CardContent(1, {41, 48, 83, 86, 17}, {83, 86, 6, 31, 17, 9, 48, 53});
      NumWinningMatches(c) == 4 && Score(c) == 8
  {
    var c := CardContent(1, {41, 48, 83, 86, 17}, {83, 86, 6, 31, 17, 9, 48, 53});
    assert WinningMatches(c) == {48, 83, 86, 17};
  }
}
