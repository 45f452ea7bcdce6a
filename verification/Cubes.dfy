/**
  Challenge 2: games of cubes drawn from a bag. A line reads
  `Game <id>: <round>; <round>; ...` and a round lists `<count> <colour>`
  entries separated by commas. A game is possible when no round shows more
  than 12 red, 13 green or 14 blue cubes; its power is the product of the
  per-colour maxima over its rounds.
 */
module Cubes {
  import opened Text

  const MaxReds: nat := 12
  const MaxGreens: nat := 13
  const MaxBlues: nat := 14

  /** The separators `Game::splitLine` cuts at. */
  const GameDelims: set<char> := {':', ';'}

  /** The length of the keyword `Game` that `getGameId` drops. */
  const GameKeywordLength: nat := 4

  datatype CubeColors = CubeColors(numReds: nat, numBlues: nat, numGreens: nat)

  datatype Round = Round(colors: CubeColors)

  datatype Game = Game(gameId: int, rounds: seq<Round>)

  datatype Colour = Red | Green | Blue

  function Name(c: Colour): string {
    match c
    case Red => "red"
    case Green => "green"
    case Blue => "blue"
  }

  /* ---------------------------------------------------------------- */
  /* Reading one colour count out of a round                           */
  /* ---------------------------------------------------------------- */

  /** The regex `(\d+)\s<colour>` matches when its search reaches column
      `p`: the digits from `p` on, one whitespace character, then the colour
      word. (A shorter digit prefix never matches, because `\s` cannot match
      a digit, so the greedy run is the only candidate.) */
  predicate CountAt(s: string, colour: string, p: nat) {
    p < |s| &&
    var k := RunLength(s, p);
    k >= 1 && p + k < |s| && IsSpace(s[p + k]) && OccursAt(s, p + k + 1, colour)
  }

  /** The number the match at `p` captures. */
  function CountValue(s: string, p: nat): nat
    requires p <= |s|
  {
    DecimalValue(s[p..p + RunLength(s, p)])
  }

  /** No match starts in columns `i` to `j - 1`. */
  predicate NoCountIn(s: string, colour: string, i: nat, j: nat) {
    forall q :: i <= q < j ==> !CountAt(s, colour, q)
  }

  /** `regex_search` from column `i`: the count of the leftmost match, or 0
      (the `CubeColors` default) when there is none. */
  function CountFrom(s: string, colour: string, i: nat): nat
    requires i <= |s|
    decreases |s| - i
  {
    if i == |s| then 0
    else if CountAt(s, colour, i) then CountValue(s, i)
    else CountFrom(s, colour, i + 1)
  }

  /** The search finds the leftmost match from `i`, and 0 when there is none. */
  lemma {:induction false} CountFromIsLeftmost(s: string, colour: string, i: nat)
    requires i <= |s|
    ensures NoCountIn(s, colour, i, |s|) ==> CountFrom(s, colour, i) == 0
    ensures forall p :: i <= p < |s| && CountAt(s, colour, p) && NoCountIn(s, colour, i, p) ==>
              CountFrom(s, colour, i) == CountValue(s, p)
    decreases |s| - i
  {
    if NoCountIn(s, colour, i, |s|) {
      CountFromNone(s, colour, i);
    }
    forall p | i <= p < |s| && CountAt(s, colour, p) && NoCountIn(s, colour, i, p)
      ensures CountFrom(s, colour, i) == CountValue(s, p)
    {
      CountFromFirst(s, colour, i, p);
    }
  }

  lemma {:induction false} CountFromNone(s: string, colour: string, i: nat)
    requires i <= |s| && NoCountIn(s, colour, i, |s|)
    ensures CountFrom(s, colour, i) == 0
    decreases |s| - i
  {
    if i < |s| {
      assert !CountAt(s, colour, i);
      CountFromNone(s, colour, i + 1);
    }
  }

  lemma {:induction false} CountFromFirst(s: string, colour: string, i: nat, p: nat)
    requires i <= p < |s| && CountAt(s, colour, p) && NoCountIn(s, colour, i, p)
    ensures CountFrom(s, colour, i) == CountValue(s, p)
    decreases p - i
  {
    if i < p {
      assert !CountAt(s, colour, i);
      CountFromFirst(s, colour, i + 1, p);
    }
  }

  /** How many cubes of `colour` a round string shows. */
  function ColourCount(s: string, colour: Colour): nat {
    CountFrom(s, Name(colour), 0)
  }

  /** The `Round` constructor: one search per colour. */
  function ParseRound(roundStr: string): Round {
    Round(CubeColors(ColourCount(roundStr, Red), ColourCount(roundStr, Blue), ColourCount(roundStr, Green)))
  }

  /* ---------------------------------------------------------------- */
  /* Writing a round, and reading it back                              */
  /* ---------------------------------------------------------------- */

  /** One `<count> <colour>` entry of a round. */
  datatype Entry = Entry(count: nat, colour: Colour)

  /** An entry as the puzzle input writes it, with its leading blank. */
  function EntryText(e: Entry): string {
    " " + Show(e.count) + " " + Name(e.colour)
  }

  /** A round as the puzzle input writes it: entries separated by commas. */
  function RoundText(es: seq<Entry>): string
    decreases |es|
  {
    if |es| == 0 then ""
    else if |es| == 1 then EntryText(es[0])
    else EntryText(es[0]) + "," + RoundText(es[1..])
  }

  /** The count of the first entry of `colour`, or 0 when none has it. */
  function FirstCount(es: seq<Entry>, colour: Colour): nat {
    if |es| == 0 then 0
    else if es[0].colour == colour then es[0].count
    else FirstCount(es[1..], colour)
  }

  /** The round a list of entries describes. */
  function RoundOf(es: seq<Entry>): Round {
    Round(CubeColors(FirstCount(es, Red), FirstCount(es, Blue), FirstCount(es, Green)))
  }

  /** A match does not look behind its start, so a prefix does not change it. */
  lemma CountAtShift(pre: string, t: string, colour: string, q: nat)
    requires q < |t|
    ensures CountAt(pre + t, colour, |pre| + q) == CountAt(t, colour, q)
  {
    RunLengthShift(pre, t, q);
    var k := RunLength(t, q);
    var s := pre + t;
    if k >= 1 && q + k < |t| {
      assert s[|pre| + q + k] == t[q + k];
      if q + k + 1 + |colour| <= |t| {
        assert s[|pre| + q + k + 1..|pre| + q + k + 1 + |colour|] == t[q + k + 1..q + k + 1 + |colour|];
      }
    }
  }

  lemma {:induction false} CountFromShift(pre: string, t: string, colour: string, q: nat)
    requires q <= |t|
    ensures CountFrom(pre + t, colour, |pre| + q) == CountFrom(t, colour, q)
    decreases |t| - q
  {
    var s := pre + t;
    if q < |t| {
      CountAtShift(pre, t, colour, q);
      if CountAt(t, colour, q) {
        RunLengthShift(pre, t, q);
        var k := RunLength(t, q);
        assert s[|pre| + q..|pre| + q + k] == t[q..q + k];
        assert CountFrom(s, colour, |pre| + q) == CountValue(s, |pre| + q);
        assert CountFrom(t, colour, q) == CountValue(t, q);
      } else {
        assert CountFrom(s, colour, |pre| + q) == CountFrom(s, colour, |pre| + q + 1);
        assert CountFrom(t, colour, q) == CountFrom(t, colour, q + 1);
        CountFromShift(pre, t, colour, q + 1);
        assert CountFrom(s, colour, |pre| + q) == CountFrom(t, colour, q);
      }
    } else {
      assert |pre| + q == |s|;
      assert CountFrom(s, colour, |pre| + q) == 0;
    }
  }

  /** Columns where nothing matches can be skipped. */
  lemma {:induction false} CountFromSkip(s: string, colour: string, i: nat, j: nat)
    requires i <= j <= |s|
    requires NoCountIn(s, colour, i, j)
    ensures CountFrom(s, colour, i) == CountFrom(s, colour, j)
    decreases j - i
  {
    if i < j {
      assert !CountAt(s, colour, i);
      assert CountFrom(s, colour, i) == CountFrom(s, colour, i + 1);
      CountFromSkip(s, colour, i + 1, j);
    }
  }

  /** The colour words start with different letters, none of them a digit. */
  lemma NameFacts(c: Colour, d: Colour)
    ensures 3 <= |Name(c)| && !IsDigit(Name(c)[0])
    ensures forall j :: 0 <= j < |Name(c)| ==> !IsDigit(Name(c)[j]) && Name(c)[j] !in GameDelims && Name(c)[j] != ','
    ensures c != d ==> Name(c)[0] != Name(d)[0]
  {
  }

  /** The layout of an entry followed by `tail`. */
  lemma EntryShape(e: Entry, tail: string)
    ensures var s := EntryText(e) + tail; var L := |Show(e.count)|;
      |EntryText(e)| == 2 + L + |Name(e.colour)| &&
      s[0] == ' ' && s[1..1 + L] == Show(e.count) && s[1 + L] == ' ' &&
      OccursAt(s, 2 + L, Name(e.colour)) &&
      (forall p :: 1 + L <= p < |EntryText(e)| ==> !IsDigit(s[p]))
  {
    var d := Show(e.count);
    var L := |d|;
    var word := Name(e.colour);
    var s := EntryText(e) + tail;
    assert s == " " + d + " " + word + tail;
    NameFacts(e.colour, e.colour);
    assert s[2 + L..2 + L + |word|] == word;
    forall p | 2 + L <= p < |EntryText(e)|
      ensures !IsDigit(s[p])
    {
      assert s[p] == word[p - 2 - L];
    }
  }

  /** Inside the count of an entry the digit run ends at the blank after it. */
  lemma EntryRuns(e: Entry, tail: string, p: nat)
    requires 1 <= p <= 1 + |Show(e.count)|
    ensures RunLength(EntryText(e) + tail, p) == 1 + |Show(e.count)| - p
    ensures (EntryText(e) + tail)[1..1 + |Show(e.count)|] == Show(e.count)
  {
    EntryShape(e, tail);
    var s := EntryText(e) + tail;
    var L := |Show(e.count)|;
    assert forall j :: p <= j < 1 + L ==> s[j] == Show(e.count)[j - 1];
    RunLengthFrom(s, p, 1 + L);
  }

  /** An entry matches the colour it names inside its count, and nowhere
      else. */
  lemma EntryMatches(e: Entry, tail: string, c: Colour, p: nat)
    requires p < |EntryText(e)|
    ensures CountAt(EntryText(e) + tail, Name(c), p) <==> 1 <= p <= |Show(e.count)| && e.colour == c
  {
    if 1 <= p <= |Show(e.count)| {
      EntryMatchesInCount(e, tail, c, p);
    } else {
      EntryNoMatchOutside(e, tail, c, p);
    }
  }

  /** From any digit of the count the run reaches the blank before the
      colour word, so the match depends on the colour alone. */
  lemma EntryMatchesInCount(e: Entry, tail: string, c: Colour, p: nat)
    requires 1 <= p <= |Show(e.count)|
    ensures CountAt(EntryText(e) + tail, Name(c), p) <==> e.colour == c
  {
    EntryShape(e, tail);
    NameFacts(e.colour, c);
    var s := EntryText(e) + tail;
    var L := |Show(e.count)|;
    EntryRuns(e, tail, p);
    assert s[1 + L] == ' ';
    if e.colour == c {
      assert OccursAt(s, 2 + L, Name(c));
    } else {
      assert s[2 + L] == Name(e.colour)[0];
    }
  }

  /** Outside the count no digit run starts. */
  lemma EntryNoMatchOutside(e: Entry, tail: string, c: Colour, p: nat)
    requires p == 0 || |Show(e.count)| < p < |EntryText(e)|
    ensures !CountAt(EntryText(e) + tail, Name(c), p)
  {
    EntryShape(e, tail);
    var s := EntryText(e) + tail;
    if p == 0 {
      RunLengthFrom(s, 0, 0);
    } else {
      assert !IsDigit(s[p]);
      RunLengthFrom(s, p, p);
    }
  }

  lemma EntryCountSame(e: Entry, tail: string)
    ensures CountFrom(EntryText(e) + tail, Name(e.colour), 0) == e.count
  {
    var s := EntryText(e) + tail;
    var w := Name(e.colour);
    EntryMatches(e, tail, e.colour, 0);
    EntryMatches(e, tail, e.colour, 1);
    EntryRuns(e, tail, 1);
    assert CountFrom(s, w, 0) == CountFrom(s, w, 1);
    assert CountFrom(s, w, 1) == CountValue(s, 1);
    DecimalValueOfShow(e.count);
  }

  lemma EntryCountOther(e: Entry, tail: string, c: Colour)
    requires e.colour != c
    ensures CountFrom(EntryText(e) + tail, Name(c), 0) == CountFrom(tail, Name(c), 0)
  {
    var s := EntryText(e) + tail;
    forall p | 0 <= p < |EntryText(e)|
      ensures !CountAt(s, Name(c), p)
    {
      EntryMatches(e, tail, c, p);
    }
    CountFromSkip(s, Name(c), 0, |EntryText(e)|);
    CountFromShift(EntryText(e), tail, Name(c), 0);
  }

  /** Reading a colour from an entry followed by `tail`: the entry's count
      when it is of that colour, else whatever `tail` holds. */
  lemma EntryCount(e: Entry, tail: string, c: Colour)
    ensures CountFrom(EntryText(e) + tail, Name(c), 0) ==
            (if e.colour == c then e.count else CountFrom(tail, Name(c), 0))
  {
    if e.colour == c {
      EntryCountSame(e, tail);
    } else {
      EntryCountOther(e, tail, c);
    }
  }

  /** A written round reads back as the counts it lists: each colour takes
      the count of its first entry, and a colour it does not list reads 0. */
  lemma {:induction false} ColourCountOfRoundText(es: seq<Entry>, c: Colour)
    ensures ColourCount(RoundText(es), c) == FirstCount(es, c)
    decreases |es|
  {
    if |es| == 1 {
      EntryCount(es[0], "", c);
      assert EntryText(es[0]) + "" == EntryText(es[0]);
    } else if |es| > 1 {
      var tail := "," + RoundText(es[1..]);
      EntryCount(es[0], tail, c);
      assert EntryText(es[0]) + "," + RoundText(es[1..]) == EntryText(es[0]) + tail;
      assert !CountAt(tail, Name(c), 0);
      CountFromSkip(tail, Name(c), 0, 1);
      CountFromShift(",", RoundText(es[1..]), Name(c), 0);
      ColourCountOfRoundText(es[1..], c);
    }
  }

  /** The `Round` constructor reads a written round back. */
  lemma ParseRoundText(es: seq<Entry>)
    ensures ParseRound(RoundText(es)) == RoundOf(es)
  {
    ColourCountOfRoundText(es, Red);
    ColourCountOfRoundText(es, Green);
    ColourCountOfRoundText(es, Blue);
  }

  /* ---------------------------------------------------------------- */
  /* Splitting a line and reading the game id                          */
  /* ---------------------------------------------------------------- */

  /** `Game::splitLine`: the non-empty pieces between `:` and `;`. The first
      is the header, the rest are the rounds in order. Only the delimiters
      are lost. */
  function SplitLine(line: string): (r: seq<string>)
    ensures forall k :: 0 <= k < |r| ==> |r[k]| > 0 && NoneIn(r[k], GameDelims)
    ensures Concat(r) == Strip(line, GameDelims)
  {
    ConcatFields(line, GameDelims);
    ConcatNonEmpty(Fields(line, GameDelims));
    NonEmpty(Fields(line, GameDelims))
  }

  lemma {:induction false} NonEmptyOfNonEmpty(pieces: seq<string>)
    requires forall k :: 0 <= k < |pieces| ==> |pieces[k]| > 0
    ensures NonEmpty(pieces) == pieces
  {
    if |pieces| > 0 {
      NonEmptyOfNonEmpty(pieces[1..]);
      assert [pieces[0]] + pieces[1..] == pieces;
    }
  }

  /** Joining delimiter-free pieces and splitting gives back the non-empty
      ones in order (two delimiters in a row, or one at either end, make an
      empty piece, which is skipped); when none is empty, all of them. */
  lemma SplitLineOfJoin(pieces: seq<string>, seps: string)
    requires |pieces| == |seps| + 1
    requires forall k :: 0 <= k < |pieces| ==> NoneIn(pieces[k], GameDelims)
    requires forall j :: 0 <= j < |seps| ==> seps[j] in GameDelims
    ensures SplitLine(Join(pieces, seps)) == NonEmpty(pieces)
    ensures (forall k :: 0 <= k < |pieces| ==> |pieces[k]| > 0) ==> SplitLine(Join(pieces, seps)) == pieces
  {
    FieldsOfJoin(pieces, seps, GameDelims);
    if forall k :: 0 <= k < |pieces| ==> |pieces[k]| > 0 {
      NonEmptyOfNonEmpty(pieces);
    }
  }

  /** `Game::getGameId`: drop the keyword, read the integer with `stoi`;
      `None` where `substr` or `stoi` throws. */
  function GameId(header: string): Option<int> {
    if |header| < GameKeywordLength then None else ParseInt(header[GameKeywordLength..])
  }

  lemma GameIdOfShow(id: nat)
    ensures GameId("Game " + Show(id)) == Some(id)
  {
    assert ("Game " + Show(id))[GameKeywordLength..] == " " + Show(id) + "";
    ParseIntOfShow(" ", id, "");
  }

  /** The `Game` constructor. `None` where the source fails: a line with no
      piece at all (indexing an empty vector) or a header without an id. */
  function ParseGame(line: string): Option<Game> {
    GameOfPieces(SplitLine(line))
  }

  /** The game a split line describes: the id from the header, one round
      per remaining piece. */
  function GameOfPieces(parsed: seq<string>): (r: Option<Game>)
    ensures r.Some? <==> |parsed| > 0 && GameId(parsed[0]).Some?
    ensures r.Some? ==> r.value.gameId == GameId(parsed[0]).value && |r.value.rounds| == |parsed| - 1
    ensures r.Some? ==> forall i :: 0 <= i < |r.value.rounds| ==> r.value.rounds[i] == ParseRound(parsed[i + 1])
  {
    if |parsed| == 0 then None
    else match GameId(parsed[0])
      case None => None
      case Some(id) => Some(Game(id, seq(|parsed| - 1, i requires 0 <= i < |parsed| - 1 => ParseRound(parsed[i + 1]))))
  }

  /** `n` semicolons. */
  function Semicolons(n: nat): (r: string)
    ensures |r| == n && forall j :: 0 <= j < n ==> r[j] == ';'
  {
    if n == 0 then "" else ";" + Semicolons(n - 1)
  }

  /** A game line as the puzzle input writes it. */
  function GameText(id: nat, rounds: seq<seq<Entry>>): string {
    Join(GamePieces(id, rounds), if |rounds| == 0 then "" else ":" + Semicolons(|rounds| - 1))
  }

  lemma {:induction false} RoundTextShape(es: seq<Entry>)
    ensures |es| > 0 ==> |RoundText(es)| > 0
    ensures NoneIn(RoundText(es), GameDelims)
    decreases |es|
  {
    if |es| > 0 {
      NameFacts(es[0].colour, es[0].colour);
      var e := EntryText(es[0]);
      assert forall j :: 0 <= j < |e| ==> e[j] !in GameDelims by {
        assert e == " " + Show(es[0].count) + " " + Name(es[0].colour);
      }
      if |es| > 1 {
        RoundTextShape(es[1..]);
      }
    }
  }

  /** The pieces a game line is written from: its header, then its rounds. */
  function GamePieces(id: nat, rounds: seq<seq<Entry>>): (r: seq<string>)
    ensures |r| == |rounds| + 1 && r[0] == "Game " + Show(id)
    ensures forall i :: 0 <= i < |rounds| ==> r[i + 1] == RoundText(rounds[i])
  {
    ["Game " + Show(id)] + seq(|rounds|, i requires 0 <= i < |rounds| => RoundText(rounds[i]))
  }

  lemma SplitGameText(id: nat, rounds: seq<seq<Entry>>)
    requires forall i :: 0 <= i < |rounds| ==> |rounds[i]| > 0
    ensures SplitLine(GameText(id, rounds)) == GamePieces(id, rounds)
  {
    var pieces := GamePieces(id, rounds);
    var seps := if |rounds| == 0 then "" else ":" + Semicolons(|rounds| - 1);
    forall k | 0 <= k < |pieces|
      ensures |pieces[k]| > 0 && NoneIn(pieces[k], GameDelims)
    {
      if k > 0 {
        RoundTextShape(rounds[k - 1]);
      }
    }
    SplitLineOfJoin(pieces, seps);
  }

  /** A written game line parses back to its id and rounds. */
  lemma ParseGameText(id: nat, rounds: seq<seq<Entry>>)
    requires forall i :: 0 <= i < |rounds| ==> |rounds[i]| > 0
    ensures ParseGame(GameText(id, rounds)).Some?
    ensures ParseGame(GameText(id, rounds)).value.gameId == id
    ensures |ParseGame(GameText(id, rounds)).value.rounds| == |rounds|
    ensures forall i :: 0 <= i < |rounds| ==> ParseGame(GameText(id, rounds)).value.rounds[i] == RoundOf(rounds[i])
  {
    var pieces := GamePieces(id, rounds);
    SplitGameText(id, rounds);
    GameIdOfShow(id);
    assert ParseGame(GameText(id, rounds)) == GameOfPieces(pieces);
    forall i | 0 <= i < |rounds|
      ensures ParseRound(pieces[i + 1]) == RoundOf(rounds[i])
    {
      ParseRoundText(rounds[i]);
    }
  }

  /* ---------------------------------------------------------------- */
  /* Validity, maxima and the two answers                              */
  /* ---------------------------------------------------------------- */

  predicate WithinLimits(c: CubeColors) {
    c.numReds <= MaxReds && c.numGreens <= MaxGreens && c.numBlues <= MaxBlues
  }

  /** The loop of `isValidGame`: the first round over a limit ends it. */
  function AllRoundsValid(rounds: seq<Round>): (b: bool)
    ensures b <==> forall i :: 0 <= i < |rounds| ==> WithinLimits(rounds[i].colors)
  {
    if |rounds| == 0 then true
    else
      var c := rounds[0].colors;
      if c.numReds > MaxReds || c.numBlues > MaxBlues || c.numGreens > MaxGreens then false
      else AllRoundsValid(rounds[1..])
  }

  /** `isValidGame`: every round within the limits; a game without rounds
      is valid. */
  predicate IsValidGame(game: Game) {
    AllRoundsValid(game.rounds)
  }

  function Larger(a: nat, b: nat): nat {
    if a > b then a else b
  }

  /** `getMaxColors`: start from zero and raise each colour to the count of
      every round in turn. */
  function MaxColors(rounds: seq<Round>): (m: CubeColors)
    ensures forall i :: 0 <= i < |rounds| ==>
      rounds[i].colors.numReds <= m.numReds && rounds[i].colors.numGreens <= m.numGreens && rounds[i].colors.numBlues <= m.numBlues
    ensures m.numReds == 0 || exists i :: 0 <= i < |rounds| && rounds[i].colors.numReds == m.numReds
    ensures m.numGreens == 0 || exists i :: 0 <= i < |rounds| && rounds[i].colors.numGreens == m.numGreens
    ensures m.numBlues == 0 || exists i :: 0 <= i < |rounds| && rounds[i].colors.numBlues == m.numBlues
  {
    if |rounds| == 0 then CubeColors(0, 0, 0)
    else
      var before := rounds[..|rounds| - 1];
      var m := MaxColors(before);
      var c := rounds[|rounds| - 1].colors;
      assert forall i :: 0 <= i < |before| ==> before[i] == rounds[i];
      CubeColors(Larger(c.numReds, m.numReds), Larger(c.numBlues, m.numBlues), Larger(c.numGreens, m.numGreens))
  }

  /** A game is valid exactly when its maxima are within the limits. */
  lemma ValidIffMaximaWithin(game: Game)
    ensures IsValidGame(game) <==> WithinLimits(MaxColors(game.rounds))
  {
    var m := MaxColors(game.rounds);
    if IsValidGame(game) {
      if m.numReds != 0 {
        var i :| 0 <= i < |game.rounds| && game.rounds[i].colors.numReds == m.numReds;
      }
      if m.numGreens != 0 {
        var i :| 0 <= i < |game.rounds| && game.rounds[i].colors.numGreens == m.numGreens;
      }
      if m.numBlues != 0 {
        var i :| 0 <= i < |game.rounds| && game.rounds[i].colors.numBlues == m.numBlues;
      }
    }
  }

  /** The power of a set of cubes. */
  function Power(c: CubeColors): nat {
    c.numReds * c.numBlues * c.numGreens
  }

  /** A colour that no round shows. */
  predicate Absent(rounds: seq<Round>, colour: Colour) {
    forall i :: 0 <= i < |rounds| ==> CountOf(rounds[i].colors, colour) == 0
  }

  function CountOf(c: CubeColors, colour: Colour): nat {
    match colour
    case Red => c.numReds
    case Green => c.numGreens
    case Blue => c.numBlues
  }

  /** A game's power is zero exactly when some colour is absent from all its
      rounds (in particular when it has no rounds). */
  lemma PowerZeroIffAbsent(rounds: seq<Round>)
    ensures Power(MaxColors(rounds)) == 0 <==> (Absent(rounds, Red) || Absent(rounds, Green) || Absent(rounds, Blue))
  {
    var m := MaxColors(rounds);
    MaxZeroIffAbsent(rounds, Red);
    MaxZeroIffAbsent(rounds, Green);
    MaxZeroIffAbsent(rounds, Blue);
    ProductZero(m.numReds, m.numBlues, m.numGreens);
  }

  lemma ProductZero(a: nat, b: nat, c: nat)
    ensures a * b * c == 0 <==> a == 0 || b == 0 || c == 0
  {
    if a > 0 && b > 0 && c > 0 {
      assert a * b >= b;
      assert a * b * c >= c;
    }
  }

  /** A colour's maximum is zero exactly when no round shows that colour. */
  lemma MaxZeroIffAbsent(rounds: seq<Round>, colour: Colour)
    ensures CountOf(MaxColors(rounds), colour) == 0 <==> Absent(rounds, colour)
  {
    var m := MaxColors(rounds);
    if CountOf(m, colour) != 0 {
      var i :| 0 <= i < |rounds| && CountOf(rounds[i].colors, colour) == CountOf(m, colour);
    }
  }

  function SumIds(games: seq<Game>): int {
    if |games| == 0 then 0 else games[0].gameId + SumIds(games[1..])
  }

  /** `part1`: the sum of the ids of the valid games. */
  function Part1(games: seq<Game>): (score: int)
    ensures (forall i :: 0 <= i < |games| ==> IsValidGame(games[i])) ==> score == SumIds(games)
    ensures (forall i :: 0 <= i < |games| ==> !IsValidGame(games[i])) ==> score == 0
    ensures |games| == 1 ==> score == if IsValidGame(games[0]) then games[0].gameId else 0
  {
    if |games| == 0 then 0
    else (if IsValidGame(games[0]) then games[0].gameId else 0) + Part1(games[1..])
  }

  /** Games contribute independently to `part1`. */
  lemma {:induction false} Part1Append(a: seq<Game>, b: seq<Game>)
    ensures Part1(a + b) == Part1(a) + Part1(b)
  {
    if |a| > 0 {
      assert (a + b)[1..] == a[1..] + b;
      Part1Append(a[1..], b);
    } else {
      assert a + b == b;
    }
  }

  /** `part2`: the sum of the games' powers. */
  function Part2(games: seq<Game>): (score: nat)
    ensures forall i :: 0 <= i < |games| ==> Power(MaxColors(games[i].rounds)) <= score
    ensures |games| == 0 ==> score == 0
    ensures |games| == 1 ==> score == Power(MaxColors(games[0].rounds))
  {
    if |games| == 0 then 0
    else Power(MaxColors(games[0].rounds)) + Part2(games[1..])
  }

  /** Games contribute independently to `part2`; one whose power is zero
      adds nothing. */
  lemma {:induction false} Part2Append(a: seq<Game>, b: seq<Game>)
    ensures Part2(a + b) == Part2(a) + Part2(b)
  {
    if |a| > 0 {
      assert (a + b)[1..] == a[1..] + b;
      Part2Append(a[1..], b);
    } else {
      assert a + b == b;
    }
  }

  /** The first game of the puzzle statement,
      "Game 1: 3 blue, 4 red; 1 red, 2 green, 6 blue" (its rounds read as
      `ExampleRounds` shows): it is possible and its power is 4 * 6 * 2. */
  lemma ExampleGame()
    ensures var g := Game(1, [Round(CubeColors(4, 3, 0)), Round(CubeColors(1, 6, 2))]);
      IsValidGame(g) && MaxColors(g.rounds) == CubeColors(4, 6, 2) && Power(MaxColors(g.rounds)) == 48
  {
    ExampleMaxima();
  }

  lemma ExampleRounds()
    ensures RoundOf([Entry(3, Blue), Entry(4, Red)]) == Round(CubeColors(4, 3, 0))
    ensures RoundOf([Entry(1, Red), Entry(2, Green), Entry(6, Blue)]) == Round(CubeColors(1, 6, 2))
  {
    var r0 := [Entry(3, Blue), Entry(4, Red)];
    var r1 := [Entry(1, Red), Entry(2, Green), Entry(6, Blue)];
    assert r0[1..][1..] == [];
    assert r1[1..][1..] == [Entry(6, Blue)];
    assert r1[1..][1..][1..] == [];
  }

  lemma ExampleMaxima()
    ensures MaxColors([Round(CubeColors(4, 3, 0)), Round(CubeColors(1, 6, 2))]) == CubeColors(4, 6, 2)
  {
    var rounds := [Round(CubeColors(4, 3, 0)), Round(CubeColors(1, 6, 2))];
    assert rounds[..1] == [Round(CubeColors(4, 3, 0))];
    assert rounds[..1][..0] == [];
  }
}
