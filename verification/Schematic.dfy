/**
  Challenge 3: an engine schematic. Every maximal digit run is a part
  number; every character that is not a word character, `.` or a newline is
  a symbol, and `*` marks a gear. Part 1 adds, for each symbol, the values
  of the parts in the three rows around it whose span comes within one
  column of it; part 2 adds, for each gear with exactly two such parts, the
  product of their values.
 */
module Schematic {
  import opened Text

  datatype Part = Part(val: int, colIdx: int, length: int)

  datatype Symbol = Symbol(startLoc: int, isGear: bool)

  /** The regex class `\w`. */
  predicate IsWordChar(c: char) {
    IsDigit(c) || 'a' <= c <= 'z' || 'A' <= c <= 'Z' || c == '_'
  }

  /** The regex class `[^\w\.\n]`: blanks and carriage returns included. */
  predicate IsSymbolChar(c: char) {
    !IsWordChar(c) && c != '.' && c != '\n'
  }

  /* ---------------------------------------------------------------- */
  /* Scanning one line                                                 */
  /* ---------------------------------------------------------------- */

  /** The symbols of `line` at or after column `i`, left to right. */
  function SymbolsFrom(line: string, i: nat): (r: seq<Symbol>)
    requires i <= |line|
    ensures forall k :: 0 <= k < |r| ==>
      i <= r[k].startLoc < |line| && IsSymbolChar(line[r[k].startLoc]) && (r[k].isGear <==> line[r[k].startLoc] == '*')
    ensures forall k :: 0 <= k < |r| - 1 ==> r[k].startLoc < r[k + 1].startLoc
    decreases |line| - i
  {
    if i == |line| then []
    else if IsSymbolChar(line[i]) then [Symbol(i, line[i] == '*')] + SymbolsFrom(line, i + 1)
    else SymbolsFrom(line, i + 1)
  }

  /** Every symbol character at or after `i` is recorded. */
  lemma {:induction false} SymbolsFromComplete(line: string, i: nat, j: nat) returns (k: nat)
    requires i <= j < |line| && IsSymbolChar(line[j])
    ensures k < |SymbolsFrom(line, i)| && SymbolsFrom(line, i)[k].startLoc == j
    decreases |line| - i
  {
    if i == j {
      k := 0;
    } else if IsSymbolChar(line[i]) {
      var k' := SymbolsFromComplete(line, i + 1, j);
      k := k' + 1;
    } else {
      k := SymbolsFromComplete(line, i + 1, j);
    }
  }

  /** The symbols `findSymbols` collects from one line. The regex matches
      one character at a time and the search resumes right after it, so
      `pos` is the column of each symbol in the whole line. */
  function RowSymbols(line: string): seq<Symbol> {
    SymbolsFrom(line, 0)
  }

  /** `findSymbols`: a row gets an entry only when it has a symbol, and
      `std::map::insert` leaves an existing entry alone. */
  function FindSymbols(line: string, lineCounter: int, symbols: map<int, seq<Symbol>>): (r: map<int, seq<Symbol>>)
    ensures forall k :: k in symbols ==> k in r && r[k] == symbols[k]
    ensures forall k :: k in r && k !in symbols ==> k == lineCounter && r[k] == RowSymbols(line) && |r[k]| > 0
    ensures lineCounter !in symbols && |RowSymbols(line)| > 0 ==> lineCounter in r
  {
    var found := RowSymbols(line);
    if |found| > 0 && lineCounter !in symbols then symbols[lineCounter := found] else symbols
  }

  /** Column `c` lies inside the span of `part`. */
  predicate Covers(part: Part, c: int) {
    part.colIdx <= c < part.colIdx + part.length
  }

  /** `part` is a maximal digit run of `line`, with its value. */
  predicate IsPartOf(line: string, part: Part) {
    && 0 <= part.colIdx && 0 < part.length
    && IsMaximalRun(line, part.colIdx, part.colIdx + part.length)
    && part.val == DecimalValue(RunText(line, Run(part.colIdx, part.length)))
  }

  function PartOfRun(line: string, run: Run): (p: Part)
    requires IsMaximalRun(line, run.start, run.start + run.len)
    ensures IsPartOf(line, p) && p.colIdx == run.start && p.length == run.len
  {
    Part(DecimalValue(RunText(line, run)), run.start, run.len)
  }

  /** The parts `findParts` collects from one line: its maximal digit runs
      left to right (the greedy `\d+` resumed after each match), each with
      the value `stoi` reads from it. */
  function RowParts(line: string): (r: seq<Part>)
    ensures forall k :: 0 <= k < |r| ==> IsPartOf(line, r[k])
    ensures forall k :: 0 <= k < |r| - 1 ==> r[k].colIdx + r[k].length < r[k + 1].colIdx
  {
    var runs := DigitRuns(line, 0);
    seq(|runs|, k requires 0 <= k < |runs| => PartOfRun(line, runs[k]))
  }

  /** Every maximal digit run of the line is one of its parts. */
  lemma RowPartsComplete(line: string, a: nat, b: nat) returns (k: nat)
    requires IsMaximalRun(line, a, b)
    ensures k < |RowParts(line)| && RowParts(line)[k].colIdx == a && RowParts(line)[k].length == b - a
  {
    DigitRunsComplete(line, 0, a, b);
    var runs := DigitRuns(line, 0);
    k :| 0 <= k < |runs| && runs[k] == Run(a, b - a);
  }

  /** `findParts`: every row gets an entry, possibly empty, unless it has
      one already. */
  function FindParts(line: string, lineCounter: int, parts: map<int, seq<Part>>): (r: map<int, seq<Part>>)
    ensures forall k :: k in parts ==> k in r && r[k] == parts[k]
    ensures forall k :: k in r && k !in parts ==> k == lineCounter && r[k] == RowParts(line)
    ensures lineCounter in r
  {
    if lineCounter in parts then parts else parts[lineCounter := RowParts(line)]
  }

  /** `parseLine`. */
  function ParseLine(line: string, lineCounter: int, symbols: map<int, seq<Symbol>>, parts: map<int, seq<Part>>): (map<int, seq<Symbol>>, map<int, seq<Part>>) {
    (FindSymbols(line, lineCounter, symbols), FindParts(line, lineCounter, parts))
  }

  /** The schematic read line by line, the line counter starting at 0. */
  function ParseLines(lines: seq<string>): (r: (map<int, seq<Symbol>>, map<int, seq<Part>>))
    ensures forall k :: k in r.1 <==> 0 <= k < |lines|
    ensures forall k :: 0 <= k < |lines| ==> r.1[k] == RowParts(lines[k])
    ensures forall k :: k in r.0 <==> 0 <= k < |lines| && |RowSymbols(lines[k])| > 0
    ensures forall k :: k in r.0 ==> r.0[k] == RowSymbols(lines[k])
  {
    if |lines| == 0 then (map[], map[])
    else
      var n := |lines| - 1;
      var before := ParseLines(lines[..n]);
      assert forall k :: 0 <= k < n ==> lines[..n][k] == lines[k];
      ParseLine(lines[n], n, before.0, before.1)
  }

  /* ---------------------------------------------------------------- */
  /* Adjacency                                                         */
  /* ---------------------------------------------------------------- */

  /** Column `c` is at most one column away from `symbol`. */
  predicate Near(symbol: Symbol, c: int) {
    symbol.startLoc - 1 <= c <= symbol.startLoc + 1
  }

  /** Some column of `part` is next to `symbol`, diagonals included. */
  ghost predicate Touches(symbol: Symbol, part: Part) {
    exists c :: Covers(part, c) && Near(symbol, c)
  }

  /** The span test of `adjacentRowParts` is the neighbourhood test. */
  lemma TouchesIff(symbol: Symbol, part: Part)
    ensures part.length > 0 ==> (Touches(symbol, part) <==>
      (symbol.startLoc - 1 <= part.colIdx + part.length - 1 && part.colIdx <= symbol.startLoc - 1 + 2))
  {
    if part.length > 0 && symbol.startLoc - 1 <= part.colIdx + part.length - 1 && part.colIdx <= symbol.startLoc + 1 {
      var c := if part.colIdx < symbol.startLoc - 1 then symbol.startLoc - 1 else part.colIdx;
      assert Covers(part, c) && Near(symbol, c);
    }
  }

  /** `adjacentRowParts`: the parts of one row that touch `symbol`, in
      their order. */
  function AdjacentRowParts(symbol: Symbol, partsAtRow: seq<Part>): (r: seq<Part>)
    ensures |r| <= |partsAtRow|
    ensures forall x :: x in r ==> x in partsAtRow
    ensures forall x :: x in partsAtRow && x.length > 0 ==> (x in r <==> Touches(symbol, x))
  {
    if |partsAtRow| == 0 then []
    else
      var part := partsAtRow[0];
      var firstValidLoc := symbol.startLoc - 1;
      var lastValidLoc := firstValidLoc + 2;
      var rest := AdjacentRowParts(symbol, partsAtRow[1..]);
      TouchesIff(symbol, part);
      if firstValidLoc <= part.colIdx + part.length - 1 && part.colIdx <= lastValidLoc then [part] + rest
      else rest
  }

  /** Parts listed by strictly increasing column. */
  predicate Ordered(ps: seq<Part>) {
    forall i, j :: 0 <= i < j < |ps| ==> ps[i].colIdx < ps[j].colIdx
  }

  lemma {:induction false} OrderedOfChain(ps: seq<Part>)
    requires forall k :: 0 <= k < |ps| - 1 ==> ps[k].colIdx < ps[k + 1].colIdx
    ensures Ordered(ps)
  {
    if |ps| > 1 {
      var tail := ps[1..];
      OrderedOfChain(tail);
      forall i, j | 0 <= i < j < |ps|
        ensures ps[i].colIdx < ps[j].colIdx
      {
        if i == 0 {
          if j > 1 {
            assert tail[0].colIdx < tail[j - 1].colIdx;
          }
        } else {
          assert tail[i - 1].colIdx < tail[j - 1].colIdx;
        }
      }
    }
  }

  /** A row's parts are in column order. */
  lemma RowPartsOrdered(line: string)
    ensures Ordered(RowParts(line))
  {
    OrderedOfChain(RowParts(line));
  }

  /** `adjacentRowParts` keeps the order of the row. */
  lemma {:induction false} AdjacentRowPartsOrdered(symbol: Symbol, partsAtRow: seq<Part>)
    requires Ordered(partsAtRow)
    ensures Ordered(AdjacentRowParts(symbol, partsAtRow))
  {
    if |partsAtRow| > 0 {
      var tail := partsAtRow[1..];
      OrderedTail(partsAtRow);
      AdjacentRowPartsOrdered(symbol, tail);
      var rest := AdjacentRowParts(symbol, tail);
      if AdjacentRowParts(symbol, partsAtRow) != rest {
        OrderedCons(partsAtRow[0], rest, tail);
      }
    }
  }

  /** The tail of an ordered list is ordered and lies right of its head. */
  lemma OrderedTail(ps: seq<Part>)
    requires |ps| > 0 && Ordered(ps)
    ensures Ordered(ps[1..])
    ensures forall x :: x in ps[1..] ==> ps[0].colIdx < x.colIdx
  {
    var tail := ps[1..];
    assert forall j :: 0 <= j < |tail| ==> tail[j] == ps[j + 1];
  }

  /** A part left of every part of an ordered list can be put in front. */
  lemma OrderedCons(p: Part, rest: seq<Part>, tail: seq<Part>)
    requires Ordered(rest)
    requires forall x :: x in rest ==> x in tail
    requires forall x :: x in tail ==> p.colIdx < x.colIdx
    ensures Ordered([p] + rest)
  {
    var r := [p] + rest;
    forall j | 0 <= j < |rest|
      ensures p.colIdx < rest[j].colIdx
    {
      assert rest[j] in tail;
    }
    assert forall j :: 1 <= j < |r| ==> r[j] == rest[j - 1];
  }

  /** Each part that touches `symbol` is kept as often as the row lists it,
      and no other part is kept. */
  lemma {:induction false} AdjacentRowPartsCount(symbol: Symbol, partsAtRow: seq<Part>, x: Part)
    requires x.length > 0
    ensures multiset(AdjacentRowParts(symbol, partsAtRow))[x] == if Touches(symbol, x) then multiset(partsAtRow)[x] else 0
  {
    if |partsAtRow| > 0 {
      var tail := partsAtRow[1..];
      assert partsAtRow == [partsAtRow[0]] + tail;
      AdjacentRowPartsCount(symbol, tail, x);
      var rest := AdjacentRowParts(symbol, tail);
      var part := partsAtRow[0];
      TouchesIff(symbol, part);
      if part == x {
        TouchesIff(symbol, x);
      }
    }
  }

  /** How often row `k` lists `x`. */
  function RowCount(parts: map<int, seq<Part>>, k: int, x: Part): nat {
    if k in parts then multiset(parts[k])[x] else 0
  }

  /** The parts of row `k` next to `symbol`, none when the row has no entry. */
  function RowAdjacent(parts: map<int, seq<Part>>, k: int, symbol: Symbol): seq<Part> {
    if k in parts then AdjacentRowParts(symbol, parts[k]) else []
  }

  /** `findAdjacentParts`. Rows `rowLoc - 1`, `rowLoc`, `rowLoc + 1` are
      visited in turn and each row's parts are inserted at the front, so the
      result lists the row below first. In gear mode a symbol that is not a
      gear has no parts. */
  function FindAdjacentParts(rowLoc: int, symbol: Symbol, parts: map<int, seq<Part>>, gear: bool): (r: seq<Part>)
    ensures gear && !symbol.isGear ==> r == []
    ensures forall x :: x in r ==> exists k :: rowLoc - 1 <= k <= rowLoc + 1 && k in parts && x in parts[k]
    ensures forall x :: x in r && x.length > 0 ==> Touches(symbol, x)
    ensures !(gear && !symbol.isGear) ==>
      forall k, x :: rowLoc - 1 <= k <= rowLoc + 1 && k in parts && x in parts[k] && x.length > 0 && Touches(symbol, x) ==> x in r
    ensures !(gear && !symbol.isGear) ==>
      r == RowAdjacent(parts, rowLoc + 1, symbol) + RowAdjacent(parts, rowLoc, symbol) + RowAdjacent(parts, rowLoc - 1, symbol)
  {
    if gear && !symbol.isGear then []
    else
      var above := RowAdjacent(parts, rowLoc - 1, symbol);
      var same := RowAdjacent(parts, rowLoc, symbol);
      var below := RowAdjacent(parts, rowLoc + 1, symbol);
      assert forall x :: x in below + same + above <==> x in below || x in same || x in above;
      below + same + above
  }

  /** Each touching part of the three rows is listed once per time its row
      lists it, and nothing else is listed. */
  lemma FindAdjacentPartsCount(rowLoc: int, symbol: Symbol, parts: map<int, seq<Part>>, gear: bool, x: Part)
    requires x.length > 0 && !(gear && !symbol.isGear)
    ensures multiset(FindAdjacentParts(rowLoc, symbol, parts, gear))[x] ==
      if Touches(symbol, x) then RowCount(parts, rowLoc - 1, x) + RowCount(parts, rowLoc, x) + RowCount(parts, rowLoc + 1, x) else 0
  {
    var below, same, above := RowAdjacent(parts, rowLoc + 1, symbol), RowAdjacent(parts, rowLoc, symbol), RowAdjacent(parts, rowLoc - 1, symbol);
    assert multiset(below + same + above) == multiset(below) + multiset(same) + multiset(above);
    RowAdjacentCount(parts, rowLoc + 1, symbol, x);
    RowAdjacentCount(parts, rowLoc, symbol, x);
    RowAdjacentCount(parts, rowLoc - 1, symbol, x);
  }

  lemma RowAdjacentCount(parts: map<int, seq<Part>>, k: int, symbol: Symbol, x: Part)
    requires x.length > 0
    ensures multiset(RowAdjacent(parts, k, symbol))[x] == if Touches(symbol, x) then RowCount(parts, k, x) else 0
  {
    if k in parts {
      AdjacentRowPartsCount(symbol, parts[k], x);
    }
  }

  /* ---------------------------------------------------------------- */
  /* Summing over the symbols map                                      */
  /* ---------------------------------------------------------------- */

  /** `k` is the smallest element of `keys`. */
  predicate IsLeast(k: int, keys: set<int>) {
    k in keys && forall j :: j in keys ==> k <= j
  }

  lemma {:induction false} MinExists(keys: set<int>)
    requires exists k :: k in keys
    ensures exists k :: IsLeast(k, keys)
    decreases |keys|
  {
    var x :| x in keys;
    var rest := keys - {x};
    assert forall j :: j in keys ==> j == x || j in rest;
    if exists y :: y in rest {
      assert |rest| < |keys|;
      MinExists(rest);
      var m :| IsLeast(m, rest);
      if x < m {
        assert IsLeast(x, keys);
      } else {
        assert IsLeast(m, keys);
      }
    } else {
      assert IsLeast(x, keys);
    }
  }

  /** The smallest key: where a `std::map` iteration starts. */
  function MinKey(keys: set<int>): (k: int)
    requires exists j :: j in keys
    ensures k in keys && forall j :: j in keys ==> k <= j
  {
    MinExists(keys);
    var k :| IsLeast(k, keys);
    k
  }

  /** The values of `m` added up in key order. */
  function SumValues(m: map<int, int>): int
    decreases |m.Keys|
  {
    if !exists k :: k in m.Keys then 0
    else
      var k := MinKey(m.Keys);
      m[k] + SumValues(m - {k})
  }

  /** The order of the rows does not matter: any row can be taken out. */
  lemma {:induction false} SumValuesRemove(m: map<int, int>, k: int)
    requires k in m
    ensures SumValues(m) == m[k] + SumValues(m - {k})
    decreases |m.Keys|
  {
    var j := MinKey(m.Keys);
    if j != k {
      SumValuesRemove(m - {j}, k);
      var m' := m - {k};
      assert m'.Keys == m.Keys - {k};
      assert j in m'.Keys;
      var j' := MinKey(m'.Keys);
      assert j' in m.Keys;
      assert m - {j} - {k} == m' - {j};
    }
  }

  /** A map of zeros sums to zero. */
  lemma {:induction false} SumValuesZero(m: map<int, int>)
    requires forall k :: k in m ==> m[k] == 0
    ensures SumValues(m) == 0
    decreases |m.Keys|
  {
    if exists k :: k in m.Keys {
      SumValuesZero(m - {MinKey(m.Keys)});
    }
  }

  /** A map of non-negative values sums to at least each of them. */
  lemma {:induction false} SumValuesBound(m: map<int, int>, k: int)
    requires forall j :: j in m ==> m[j] >= 0
    requires k in m
    ensures SumValues(m) >= m[k] >= 0
    decreases |m.Keys|
  {
    SumValuesRemove(m, k);
    SumValuesNonNegative(m - {k});
  }

  lemma {:induction false} SumValuesNonNegative(m: map<int, int>)
    requires forall j :: j in m ==> m[j] >= 0
    ensures SumValues(m) >= 0
    decreases |m.Keys|
  {
    if exists k :: k in m.Keys {
      SumValuesNonNegative(m - {MinKey(m.Keys)});
    }
  }

  function SumVals(ps: seq<Part>): int {
    if |ps| == 0 then 0 else ps[0].val + SumVals(ps[1..])
  }

  /** What one row of symbols adds to `part1`. */
  function RowPart1(rowLoc: int, rowSymbols: seq<Symbol>, parts: map<int, seq<Part>>): int {
    if |rowSymbols| == 0 then 0
    else SumVals(FindAdjacentParts(rowLoc, rowSymbols[0], parts, false)) + RowPart1(rowLoc, rowSymbols[1..], parts)
  }

  /** What one symbol adds to `part2`: the gear ratio when exactly two parts
      touch a gear. */
  function GearRatio(rowLoc: int, symbol: Symbol, parts: map<int, seq<Part>>): (ratio: int)
    ensures !symbol.isGear ==> ratio == 0
    ensures ratio != 0 ==> exists x, y :: FindAdjacentParts(rowLoc, symbol, parts, true) == [x, y] && ratio == x.val * y.val
    ensures symbol.isGear && |FindAdjacentParts(rowLoc, symbol, parts, true)| == 2 ==>
      ratio == FindAdjacentParts(rowLoc, symbol, parts, true)[0].val * FindAdjacentParts(rowLoc, symbol, parts, true)[1].val
    ensures |FindAdjacentParts(rowLoc, symbol, parts, true)| != 2 ==> ratio == 0
  {
    var adjacentGearParts := FindAdjacentParts(rowLoc, symbol, parts, true);
    if |adjacentGearParts| == 2 then
      assert adjacentGearParts == [adjacentGearParts[0], adjacentGearParts[1]];
      adjacentGearParts[0].val * adjacentGearParts[1].val
    else 0
  }

  /** What one row of symbols adds to `part2`. */
  function RowPart2(rowLoc: int, rowSymbols: seq<Symbol>, parts: map<int, seq<Part>>): int {
    if |rowSymbols| == 0 then 0
    else GearRatio(rowLoc, rowSymbols[0], parts) + RowPart2(rowLoc, rowSymbols[1..], parts)
  }

  /** A row's share of `part1` is what its symbols add one by one; a single
      symbol adds the values of its adjacent parts. */
  lemma {:induction false} RowPart1Append(rowLoc: int, a: seq<Symbol>, b: seq<Symbol>, parts: map<int, seq<Part>>)
    ensures RowPart1(rowLoc, a + b, parts) == RowPart1(rowLoc, a, parts) + RowPart1(rowLoc, b, parts)
    ensures |a| == 1 ==> RowPart1(rowLoc, a, parts) == SumVals(FindAdjacentParts(rowLoc, a[0], parts, false))
  {
    if |a| > 0 {
      assert (a + b)[0] == a[0];
      assert (a + b)[1..] == a[1..] + b;
      RowPart1Append(rowLoc, a[1..], b, parts);
    } else {
      assert a + b == b;
    }
  }

  /** A row's share of `part2` is what its symbols add one by one; a single
      symbol adds its gear ratio. */
  lemma {:induction false} RowPart2Append(rowLoc: int, a: seq<Symbol>, b: seq<Symbol>, parts: map<int, seq<Part>>)
    ensures RowPart2(rowLoc, a + b, parts) == RowPart2(rowLoc, a, parts) + RowPart2(rowLoc, b, parts)
    ensures |a| == 1 ==> RowPart2(rowLoc, a, parts) == GearRatio(rowLoc, a[0], parts)
  {
    if |a| > 0 {
      assert (a + b)[0] == a[0];
      assert (a + b)[1..] == a[1..] + b;
      RowPart2Append(rowLoc, a[1..], b, parts);
    } else {
      assert a + b == b;
    }
  }

  function Part1Rows(parts: map<int, seq<Part>>, symbols: map<int, seq<Symbol>>): map<int, int> {
    map k | k in symbols :: RowPart1(k, symbols[k], parts)
  }

  function Part2Rows(parts: map<int, seq<Part>>, symbols: map<int, seq<Symbol>>): map<int, int> {
    map k | k in symbols :: RowPart2(k, symbols[k], parts)
  }

  /** `part1`: every (symbol, adjacent part) pair adds the part's value. */
  function Part1(parts: map<int, seq<Part>>, symbols: map<int, seq<Symbol>>): int {
    SumValues(Part1Rows(parts, symbols))
  }

  /** `part2`: every gear with exactly two adjacent parts adds their product. */
  function Part2(parts: map<int, seq<Part>>, symbols: map<int, seq<Symbol>>): int {
    SumValues(Part2Rows(parts, symbols))
  }

  /** Each row of symbols contributes to `part1` independently of the others. */
  lemma Part1ByRow(parts: map<int, seq<Part>>, symbols: map<int, seq<Symbol>>, k: int)
    requires k in symbols
    ensures Part1(parts, symbols) == RowPart1(k, symbols[k], parts) + Part1(parts, symbols - {k})
  {
    SumValuesRemove(Part1Rows(parts, symbols), k);
    assert Part1Rows(parts, symbols) - {k} == Part1Rows(parts, symbols - {k});
  }

  /** Each row of symbols contributes to `part2` independently of the others. */
  lemma Part2ByRow(parts: map<int, seq<Part>>, symbols: map<int, seq<Symbol>>, k: int)
    requires k in symbols
    ensures Part2(parts, symbols) == RowPart2(k, symbols[k], parts) + Part2(parts, symbols - {k})
  {
    SumValuesRemove(Part2Rows(parts, symbols), k);
    assert Part2Rows(parts, symbols) - {k} == Part2Rows(parts, symbols - {k});
  }

  lemma {:induction false} RowPart2WithoutGears(rowLoc: int, rowSymbols: seq<Symbol>, parts: map<int, seq<Part>>)
    requires forall i :: 0 <= i < |rowSymbols| ==> !rowSymbols[i].isGear
    ensures RowPart2(rowLoc, rowSymbols, parts) == 0
  {
    if |rowSymbols| > 0 {
      RowPart2WithoutGears(rowLoc, rowSymbols[1..], parts);
    }
  }

  /** Without a gear `part2` is zero. */
  lemma Part2WithoutGears(parts: map<int, seq<Part>>, symbols: map<int, seq<Symbol>>)
    requires forall k, i :: k in symbols && 0 <= i < |symbols[k]| ==> !symbols[k][i].isGear
    ensures Part2(parts, symbols) == 0
  {
    forall k | k in symbols
      ensures RowPart2(k, symbols[k], parts) == 0
    {
      RowPart2WithoutGears(k, symbols[k], parts);
    }
    SumValuesZero(Part2Rows(parts, symbols));
  }

  lemma {:induction false} SumValsNonNegative(ps: seq<Part>)
    requires forall i :: 0 <= i < |ps| ==> ps[i].val >= 0
    ensures SumVals(ps) >= 0
  {
    if |ps| > 0 {
      SumValsNonNegative(ps[1..]);
    }
  }

  lemma {:induction false} RowPart1NonNegative(rowLoc: int, rowSymbols: seq<Symbol>, parts: map<int, seq<Part>>)
    requires forall k, i :: k in parts && 0 <= i < |parts[k]| ==> parts[k][i].val >= 0
    ensures RowPart1(rowLoc, rowSymbols, parts) >= 0
  {
    if |rowSymbols| > 0 {
      var adj := FindAdjacentParts(rowLoc, rowSymbols[0], parts, false);
      forall i | 0 <= i < |adj|
        ensures adj[i].val >= 0
      {
        assert adj[i] in adj;
      }
      SumValsNonNegative(adj);
      RowPart1NonNegative(rowLoc, rowSymbols[1..], parts);
    }
  }

  /** With part values that are never negative (as read from digits), every
      row of symbols adds a non-negative amount to `part1`, and the total is
      at least what any one row adds. */
  lemma Part1AtLeastRow(parts: map<int, seq<Part>>, symbols: map<int, seq<Symbol>>, k: int)
    requires forall j, i :: j in parts && 0 <= i < |parts[j]| ==> parts[j][i].val >= 0
    requires k in symbols
    ensures Part1(parts, symbols) >= RowPart1(k, symbols[k], parts) >= 0
  {
    var rows := Part1Rows(parts, symbols);
    forall j | j in rows
      ensures rows[j] >= 0
    {
      RowPart1NonNegative(j, symbols[j], parts);
    }
    SumValuesBound(rows, k);
  }

  /** A part between two symbols counts twice: in "#5#" the 5 touches both. */
  lemma ExampleDoubleCount()
    ensures Part1(map[0 := [Part(5, 1, 1)]], map[0 := [Symbol(0, false), Symbol(2, false)]]) == 10
  {
    var parts := map[0 := [Part(5, 1, 1)]];
    var symbols := map[0 := [Symbol(0, false), Symbol(2, false)]];
    assert Touches(Symbol(0, false), Part(5, 1, 1)) by {
      assert Covers(Part(5, 1, 1), 1) && Near(Symbol(0, false), 1);
    }
    assert Touches(Symbol(2, false), Part(5, 1, 1)) by {
      assert Covers(Part(5, 1, 1), 1) && Near(Symbol(2, false), 1);
    }
    assert FindAdjacentParts(0, Symbol(0, false), parts, false) == [Part(5, 1, 1)];
    assert FindAdjacentParts(0, Symbol(2, false), parts, false) == [Part(5, 1, 1)];
    assert RowPart1(0, symbols[0], parts) == 10;
    Part1ByRow(parts, symbols, 0);
    assert symbols - {0} == map[];
  }

  /** A gear between a 2 above and a 3 below has ratio 6. */
  lemma ExampleGear()
    ensures Part2(map[0 := [Part(2, 1, 1)], 1 := [], 2 := [Part(3, 0, 1)]], map[1 := [Symbol(1, true)]]) == 6
  {
    var parts := map[0 := [Part(2, 1, 1)], 1 := [], 2 := [Part(3, 0, 1)]];
    var symbols := map[1 := [Symbol(1, true)]];
    var gear := Symbol(1, true);
    assert Touches(gear, Part(2, 1, 1)) by {
      assert Covers(Part(2, 1, 1), 1) && Near(gear, 1);
    }
    assert Touches(gear, Part(3, 0, 1)) by {
      assert Covers(Part(3, 0, 1), 0) && Near(gear, 0);
    }
    assert FindAdjacentParts(1, gear, parts, true) == [Part(3, 0, 1), Part(2, 1, 1)];
    assert RowPart2(1, symbols[1], parts) == 6;
    Part2ByRow(parts, symbols, 1);
    assert symbols - {1} == map[];
  }
}
