/** The live scoring of the play page: for every loaded card, the drawn numbers
    it holds, the share of its cells they cover, and the rows and columns all
    of whose numbers have been drawn; cards without a match are dropped and
    the rest ranked by that share, highest first.

    The share (`matchPercentage`, a float in the page) is kept as the pair
    `matchedCount` / `|card.numbers|`, and two shares are compared by
    cross-multiplication. */
module Scoring {
  import opened Common

  /** A card as the play page loads it: the parsed record, kept as is. */
  datatype BingoCard = BingoCard(
    id: int,
    gridSize: Option<int>,
    displayMode: Option<string>,
    numbers: seq<int>,
    artists: seq<string>)

  /** The score of one card against the drawn numbers. */
  datatype MatchedCard = MatchedCard(
    card: BingoCard,
    matchedCount: nat,
    matchedNumbers: seq<int>,
    completedRows: nat,
    completedCols: nat)

  /** `card.gridSize || 5`: an absent or zero grid size means 5. */
  function EffectiveGridSize(card: BingoCard): (g: int)
    ensures g != 0
    ensures card.gridSize.None? ==> g == 5
    ensures card.gridSize.Some? ==> g == if card.gridSize.value == 0 then 5 else card.gridSize.value
  {
    match card.gridSize
    case None => 5
    case Some(size) => if size == 0 then 5 else size
  }

  /** How many times the `for (row = 0; row < g; ...)` loops run. */
  function Span(g: int): nat {
    if g < 0 then 0 else g
  }

  /** `card.numbers.filter((n) => drawn.includes(n))`. */
  function MatchedNumbers(numbers: seq<int>, drawn: seq<int>): (r: seq<int>)
    ensures |r| <= |numbers|
    ensures forall n :: n in r <==> n in numbers && n in drawn
    ensures forall n :: multiset(r)[n] == if n in drawn then multiset(numbers)[n] else 0
  {
    FilterCount(numbers, n => n in drawn);
    Filter(numbers, n => n in drawn)
  }

  /** The matched numbers keep the card's order: matching a card made of two
      parts gives the matches of the first part followed by those of the second. */
  lemma MatchedNumbersAppend(a: seq<int>, b: seq<int>, drawn: seq<int>)
    ensures MatchedNumbers(a + b, drawn) == MatchedNumbers(a, drawn) + MatchedNumbers(b, drawn)
  {
    FilterAppend(a, b, n => n in drawn);
  }

  /** `every((n) => drawn.includes(n))` on plain numbers. */
  predicate AllDrawn(s: seq<int>, drawn: seq<int>) {
    forall n :: n in s ==> n in drawn
  }

  function Clamp(i: nat, length: nat): nat {
    if i < length then i else length
  }

  /** `numbers.slice(row * g, row * g + g)`: both ends are clamped to the length,
      so a row that lies past the end of a short card is empty. */
  function RowSlice(numbers: seq<int>, g: nat, row: nat): (r: seq<int>)
    ensures |r| <= g
    ensures forall n :: n in r ==> n in numbers
  {
    numbers[Clamp(row * g, |numbers|)..Clamp(row * g + g, |numbers|)]
  }

  predicate RowComplete(numbers: seq<int>, g: nat, drawn: seq<int>, row: nat) {
    AllDrawn(RowSlice(numbers, g, row), drawn)
  }

  /** `card.numbers[i]`: reading past the end yields `undefined`, here None. */
  function CellAt(numbers: seq<int>, i: int): (r: Option<int>)
    ensures r.None? <==> i < 0 || |numbers| <= i
    ensures r.Some? ==> r.value in numbers
  {
    if 0 <= i < |numbers| then Some(numbers[i]) else None
  }

  /** `drawn.includes(n)` for a cell read from the card; `undefined` is never drawn. */
  predicate CellDrawn(cell: Option<int>, drawn: seq<int>) {
    cell.Some? && cell.value in drawn
  }

  /** The cells `numbers[row * g + col]` for `row` from 0 to `g - 1`, as the column loop pushes them. */
  function Column(numbers: seq<int>, g: nat, col: nat): (r: seq<Option<int>>)
    ensures |r| == g
    ensures forall cell :: cell in r && cell.Some? ==> cell.value in numbers
  {
    seq(g, row requires 0 <= row < g => CellAt(numbers, row * g + col))
  }

  /** `every((n) => drawn.includes(n))` on cells read from the card. */
  predicate AllCellsDrawn(cells: seq<Option<int>>, drawn: seq<int>) {
    forall cell :: cell in cells ==> CellDrawn(cell, drawn)
  }

  predicate ColComplete(numbers: seq<int>, g: nat, drawn: seq<int>, col: nat) {
    AllCellsDrawn(Column(numbers, g, col), drawn)
  }

  /** The number of complete rows among rows `0 .. k - 1`. */
  function CountRows(numbers: seq<int>, g: nat, drawn: seq<int>, k: nat): (r: nat)
    ensures r <= k
  {
    if k == 0 then 0
    else CountRows(numbers, g, drawn, k - 1) + (if RowComplete(numbers, g, drawn, k - 1) then 1 else 0)
  }

  lemma CountRowsStep(numbers: seq<int>, g: nat, drawn: seq<int>, k: nat)
    ensures CountRows(numbers, g, drawn, k + 1) ==
      CountRows(numbers, g, drawn, k) + if RowComplete(numbers, g, drawn, k) then 1 else 0
  {
  }

  /** The number of complete columns among columns `0 .. k - 1`. */
  function CountCols(numbers: seq<int>, g: nat, drawn: seq<int>, k: nat): (r: nat)
    ensures r <= k
  {
    if k == 0 then 0
    else CountCols(numbers, g, drawn, k - 1) + (if ColComplete(numbers, g, drawn, k - 1) then 1 else 0)
  }

  /** A count reaches its bound exactly when every row counted is complete. */
  lemma {:induction false} CountRowsAll(numbers: seq<int>, g: nat, drawn: seq<int>, k: nat)
    ensures CountRows(numbers, g, drawn, k) == k <==> forall row :: 0 <= row < k ==> RowComplete(numbers, g, drawn, row)
  {
    if k > 0 {
      CountRowsAll(numbers, g, drawn, k - 1);
    }
  }

  /** A count reaches its bound exactly when every column counted is complete. */
  lemma {:induction false} CountColsAll(numbers: seq<int>, g: nat, drawn: seq<int>, k: nat)
    ensures CountCols(numbers, g, drawn, k) == k <==> forall col :: 0 <= col < k ==> ColComplete(numbers, g, drawn, col)
  {
    if k > 0 {
      CountColsAll(numbers, g, drawn, k - 1);
    }
  }

  /** The score of one card: the body of the `map` callback of `matchedCards`. */
  function Score(card: BingoCard, drawn: seq<int>): (m: MatchedCard)
    ensures m.card == card
    ensures m.matchedCount == |m.matchedNumbers| <= |card.numbers|
    ensures forall n :: n in m.matchedNumbers <==> n in card.numbers && n in drawn
    ensures m.completedRows <= Span(EffectiveGridSize(card))
    ensures m.completedCols <= Span(EffectiveGridSize(card))
  {
    var g := Span(EffectiveGridSize(card));
    var matched := MatchedNumbers(card.numbers, drawn);
    MatchedCard(card, |matched|, matched, CountRows(card.numbers, g, drawn, g), CountCols(card.numbers, g, drawn, g))
  }

  /** Multiplication by a non-negative number keeps an inequality. */
  lemma MulMono(a: int, b: int, c: nat)
    requires a <= b
    ensures a * c <= b * c
  {
  }

  /** Cell `i` of a full `g` by `g` card lies in row `i / g`, at offset `i % g`. */
  lemma CellPosition(g: nat, i: nat)
    requires 0 < g && i < g * g
    ensures i == (i / g) * g + i % g && 0 <= i % g < g && i / g < g
  {
    if i / g >= g {
      MulMono(g, i / g, g);
    }
  }

  /** Cell `row * g + col` of a `g` by `g` card lies inside the card. */
  lemma CellInside(g: nat, row: nat, col: nat)
    requires row < g && col < g
    ensures 0 <= row * g && row * g + col < g * g
  {
    MulMono(0, row, g);
    MulMono(row, g - 1, g);
  }

  /** On a full card, cell `i` lies in row `i / g`, whose slice is never clamped. */
  lemma CellInRow(numbers: seq<int>, g: nat, i: nat) returns (row: nat)
    requires 0 < g && |numbers| == g * g && i < |numbers|
    ensures row < g && numbers[i] in RowSlice(numbers, g, row)
  {
    CellPosition(g, i);
    row := i / g;
    var col := i % g;
    var start := row * g;
    CellInside(g, row, g - 1);
    assert start + g <= |numbers|;
    assert RowSlice(numbers, g, row) == numbers[start..start + g];
    assert numbers[start..start + g][col] == numbers[i];
  }

  /** On a full card, cell `i` is read by column `i % g`, at row `i / g`. */
  lemma CellInColumn(numbers: seq<int>, g: nat, i: nat) returns (col: nat)
    requires 0 < g && |numbers| == g * g && i < |numbers|
    ensures col < g && Some(numbers[i]) in Column(numbers, g, col)
  {
    CellPosition(g, i);
    var row := i / g;
    col := i % g;
    assert Column(numbers, g, col)[row] == CellAt(numbers, row * g + col);
  }

  /** On a full card, every cell a column reads lies on the card. */
  lemma ColumnInside(numbers: seq<int>, g: nat, col: nat, row: nat)
    requires |numbers| == g * g && col < g && row < g
    ensures 0 <= row * g + col < |numbers| && Column(numbers, g, col)[row] == Some(numbers[row * g + col])
  {
    CellInside(g, row, col);
  }

  /** On a full card, every cell a column reads is a number of the card. */
  lemma ColumnOnCard(numbers: seq<int>, g: nat, col: nat)
    requires |numbers| == g * g && col < g
    ensures forall cell :: cell in Column(numbers, g, col) ==> cell.Some? && cell.value in numbers
  {
    forall row | 0 <= row < g ensures Column(numbers, g, col)[row].Some? && Column(numbers, g, col)[row].value in numbers {
      ColumnInside(numbers, g, col, row);
    }
  }

  lemma DrawnMember(numbers: seq<int>, drawn: seq<int>, n: int)
    requires AllDrawn(numbers, drawn) && n in numbers
    ensures n in drawn
  {
  }

  lemma CellsOfDrawnCard(cells: seq<Option<int>>, numbers: seq<int>, drawn: seq<int>)
    requires AllDrawn(numbers, drawn)
    requires forall cell :: cell in cells ==> cell.Some? && cell.value in numbers
    ensures AllCellsDrawn(cells, drawn)
  {
    forall cell | cell in cells ensures CellDrawn(cell, drawn) {
      DrawnMember(numbers, drawn, cell.value);
    }
  }

  /** One cell that is not drawn leaves its column incomplete. */
  lemma CellMiss(cells: seq<Option<int>>, drawn: seq<int>, cell: Option<int>)
    requires cell in cells && !CellDrawn(cell, drawn)
    ensures !AllCellsDrawn(cells, drawn)
  {
  }

  lemma DrawnInCompleteRow(numbers: seq<int>, g: nat, drawn: seq<int>, row: nat, n: int)
    requires RowComplete(numbers, g, drawn, row) && n in RowSlice(numbers, g, row)
    ensures n in drawn
  {
  }

  /** On a full card, complete rows cover every number on it. */
  lemma RowsCoverCard(numbers: seq<int>, g: nat, drawn: seq<int>)
    requires 0 < g && |numbers| == g * g
    requires forall row :: 0 <= row < g ==> RowComplete(numbers, g, drawn, row)
    ensures AllDrawn(numbers, drawn)
  {
    forall i | 0 <= i < |numbers| ensures numbers[i] in drawn {
      var row := CellInRow(numbers, g, i);
      DrawnInCompleteRow(numbers, g, drawn, row, numbers[i]);
    }
  }

  /** On a full `g` by `g` card, every row is complete exactly when every number on the card is drawn. */
  lemma {:induction false} RowsCompleteIffFull(numbers: seq<int>, g: nat, drawn: seq<int>)
    requires 0 < g && |numbers| == g * g
    ensures CountRows(numbers, g, drawn, g) == g <==> AllDrawn(numbers, drawn)
  {
    CountRowsAll(numbers, g, drawn, g);
    if forall row :: 0 <= row < g ==> RowComplete(numbers, g, drawn, row) {
      RowsCoverCard(numbers, g, drawn);
    }
  }

  /** On a full `g` by `g` card, every column is complete exactly when every number on the card is drawn. */
  lemma {:induction false} ColsCompleteIffFull(numbers: seq<int>, g: nat, drawn: seq<int>)
    requires 0 < g && |numbers| == g * g
    ensures CountCols(numbers, g, drawn, g) == g <==> AllDrawn(numbers, drawn)
  {
    CountColsAll(numbers, g, drawn, g);
    if AllDrawn(numbers, drawn) {
      forall col | 0 <= col < g ensures ColComplete(numbers, g, drawn, col) {
        ColumnOnCard(numbers, g, col);
        CellsOfDrawnCard(Column(numbers, g, col), numbers, drawn);
      }
    } else {
      var n :| n in numbers && n !in drawn;
      var i :| 0 <= i < |numbers| && numbers[i] == n;
      var col := CellInColumn(numbers, g, i);
      CellMiss(Column(numbers, g, col), drawn, Some(n));
      assert !ColComplete(numbers, g, drawn, col);
    }
  }

  /** A card shorter than its grid: a row past its end is an empty slice and counts
      as complete, while a column reading past its end meets `undefined` and does not.
      With one drawn number on a one-number card of size 2, both rows are complete
      and no column is. */
  lemma ShortCardRowsAndColumns()
    ensures CountRows([7], 2, [7], 2) == 2
    ensures CountCols([7], 2, [7], 2) == 0
  {
    assert RowSlice([7], 2, 0) == [7];
    assert RowSlice([7], 2, 1) == [];
    assert Column([7], 2, 0)[1] == None;
    CellMiss(Column([7], 2, 0), [7], None);
    assert Column([7], 2, 1)[0] == None;
    CellMiss(Column([7], 2, 1), [7], None);
  }

  /** A 3×3 card holding 1..9 with 1, 2 and 3 drawn: only the top row is complete. */
  lemma TopRowExampleRows()
    ensures CountRows([1, 2, 3, 4, 5, 6, 7, 8, 9], 3, [1, 2, 3], 3) == 1
  {
    var numbers := [1, 2, 3, 4, 5, 6, 7, 8, 9];
    var drawn := [1, 2, 3];
    assert RowSlice(numbers, 3, 0) == [1, 2, 3];
    assert RowSlice(numbers, 3, 1) == [4, 5, 6];
    assert !RowComplete(numbers, 3, drawn, 1) by { assert 4 in RowSlice(numbers, 3, 1); }
    assert RowSlice(numbers, 3, 2) == [7, 8, 9];
    assert !RowComplete(numbers, 3, drawn, 2) by { assert 7 in RowSlice(numbers, 3, 2); }
  }

  /** The same card and draws: no column is complete, as each reads an undrawn middle cell. */
  lemma TopRowExampleCols()
    ensures CountCols([1, 2, 3, 4, 5, 6, 7, 8, 9], 3, [1, 2, 3], 3) == 0
  {
    var numbers := [1, 2, 3, 4, 5, 6, 7, 8, 9];
    var drawn := [1, 2, 3];
    assert Column(numbers, 3, 0)[1] == Some(4);
    CellMiss(Column(numbers, 3, 0), drawn, Some(4));
    assert Column(numbers, 3, 1)[1] == Some(5);
    CellMiss(Column(numbers, 3, 1), drawn, Some(5));
    assert Column(numbers, 3, 2)[1] == Some(6);
    CellMiss(Column(numbers, 3, 2), drawn, Some(6));
  }

  /** The match share of `a` is at least that of `b`:
      `a.matchedCount / |a.card.numbers| >= b.matchedCount / |b.card.numbers|`. */
  predicate RatioAtLeast(a: MatchedCard, b: MatchedCard)
    ensures a.matchedCount == 0 ==> (RatioAtLeast(a, b) <==> b.matchedCount == 0 || |a.card.numbers| == 0)
  {
    a.matchedCount * |b.card.numbers| >= b.matchedCount * |a.card.numbers|
  }

  /** For cards with numbers, the cross-multiplied comparison is the comparison
      of the shares `matchedCount / |numbers|` themselves. */
  lemma RatioAtLeastIsShare(a: MatchedCard, b: MatchedCard)
    requires |a.card.numbers| > 0 && |b.card.numbers| > 0
    ensures RatioAtLeast(a, b) <==>
      (a.matchedCount as real) / (|a.card.numbers| as real) >= (b.matchedCount as real) / (|b.card.numbers| as real)
  {
  }

  /** Each neighbour's share is at least the next one's. */
  predicate Descending(s: seq<MatchedCard>) {
    forall i :: 0 <= i < |s| - 1 ==> RatioAtLeast(s[i], s[i + 1])
  }

  /** Every earlier entry's share is at least every later entry's. */
  predicate SortedByRatio(s: seq<MatchedCard>) {
    forall i, j :: 0 <= i < j < |s| ==> RatioAtLeast(s[i], s[j])
  }

  /** Comparing shares is transitive through an entry whose card is not empty. */
  lemma RatioTransitive(a: MatchedCard, b: MatchedCard, c: MatchedCard)
    requires |b.card.numbers| > 0
    requires RatioAtLeast(a, b) && RatioAtLeast(b, c)
    ensures RatioAtLeast(a, c)
  {
    var a1, b1 := a.matchedCount, |a.card.numbers|;
    var a2, b2 := b.matchedCount, |b.card.numbers|;
    var a3, b3 := c.matchedCount, |c.card.numbers|;
    MulMono(a2 * b1, a1 * b2, b3);
    MulMono(a3 * b2, a2 * b3, b1);
    assert a1 * b2 * b3 >= a3 * b2 * b1;
    assert b2 * (a1 * b3 - a3 * b1) >= 0;
  }

  /** Neighbour order gives order of all pairs when no card is empty. */
  lemma DescendingSorted(s: seq<MatchedCard>)
    requires forall m :: m in s ==> |m.card.numbers| > 0
    requires Descending(s)
    ensures SortedByRatio(s)
  {
    forall i, j | 0 <= i < j < |s| ensures RatioAtLeast(s[i], s[j]) {
      var k := i + 1;
      while k < j
        invariant i < k <= j
        invariant RatioAtLeast(s[i], s[k])
      {
        RatioTransitive(s[i], s[k], s[k + 1]);
        k := k + 1;
      }
    }
  }

  /** Puts `m` into a descending list after every entry whose share is at least
      `m`'s, which keeps equal shares in arrival order (a stable sort). */
  function InsertByRatio(m: MatchedCard, s: seq<MatchedCard>): (r: seq<MatchedCard>)
    ensures |r| == |s| + 1
    ensures r[0] == m || (s != [] && r[0] == s[0])
    ensures multiset(r) == multiset(s) + multiset{m}
    ensures Descending(s) ==> Descending(r)
  {
    if s == [] then [m]
    else if RatioAtLeast(s[0], m) then
      assert s == [s[0]] + s[1..];
      [s[0]] + InsertByRatio(m, s[1..])
    else
      [m] + s
  }

  /** `sort((a, b) => b.matchPercentage - a.matchPercentage)`, a stable sort
      by share, highest first. */
  function SortByRatio(s: seq<MatchedCard>): (r: seq<MatchedCard>)
    ensures multiset(r) == multiset(s)
    ensures Descending(r)
  {
    if s == [] then []
    else
      assert s == s[..|s| - 1] + [s[|s| - 1]];
      InsertByRatio(s[|s| - 1], SortByRatio(s[..|s| - 1]))
  }

  /** `cards.map(...)`: the score of every card, in card order. */
  function ScoreAll(cards: seq<BingoCard>, drawn: seq<int>): (r: seq<MatchedCard>)
    ensures |r| == |cards|
  {
    seq(|cards|, i requires 0 <= i < |cards| => Score(cards[i], drawn))
  }

  /** `.filter((mc) => mc.matchedCount > 0)`. */
  function KeepMatched(s: seq<MatchedCard>): (r: seq<MatchedCard>)
    ensures forall m :: m in r <==> m in s && m.matchedCount > 0
  {
    Filter(s, (m: MatchedCard) => m.matchedCount > 0)
  }

  /** A card scored against no draws has no match. */
  lemma NoDrawsNoMatch(card: BingoCard)
    ensures Score(card, []).matchedCount == 0
  {
    var m := Score(card, []);
    HeadIn(m.matchedNumbers);
  }

  /** Scores without a match are all dropped. */
  lemma NoneKept(s: seq<MatchedCard>)
    requires forall m :: m in s ==> m.matchedCount == 0
    ensures KeepMatched(s) == []
  {
    var kept := KeepMatched(s);
    HeadIn(kept);
  }

  /** With nothing drawn no card has a match, so the early `return []` agrees
      with scoring and filtering the cards. */
  lemma NothingDrawnNothingMatched(cards: seq<BingoCard>)
    ensures KeepMatched(ScoreAll(cards, [])) == []
  {
    var scored := ScoreAll(cards, []);
    forall m | m in scored ensures m.matchedCount == 0 {
      var i :| 0 <= i < |cards| && scored[i] == m;
      NoDrawsNoMatch(cards[i]);
    }
    NoneKept(scored);
  }

  /** Each score in `ScoreAll` is the score of one of the cards, and every card has its score there. */
  lemma ScoreAllMembers(cards: seq<BingoCard>, drawn: seq<int>)
    ensures forall m :: m in ScoreAll(cards, drawn) ==> m.card in cards && m == Score(m.card, drawn)
    ensures forall c :: c in cards ==> Score(c, drawn) in ScoreAll(cards, drawn)
  {
    var scored := ScoreAll(cards, drawn);
    forall m | m in scored ensures m.card in cards && m == Score(m.card, drawn) {
      var i :| 0 <= i < |cards| && scored[i] == m;
    }
    forall c | c in cards ensures Score(c, drawn) in scored {
      var i :| 0 <= i < |cards| && cards[i] == c;
      assert scored[i] == Score(c, drawn);
    }
  }

  /** Sequences with the same multiset have the same members. */
  lemma SameMembers<T>(a: seq<T>, b: seq<T>)
    requires multiset(a) == multiset(b)
    ensures forall x :: x in a <==> x in b
  {
    forall x ensures x in a <==> x in b {
      assert x in a <==> x in multiset(a);
      assert x in b <==> x in multiset(b);
    }
  }

  /** The ranking holds exactly the matching scores. */
  lemma RankingMembers(cards: seq<BingoCard>, drawn: seq<int>)
    ensures forall m :: m in SortByRatio(KeepMatched(ScoreAll(cards, drawn))) <==>
      m in ScoreAll(cards, drawn) && m.matchedCount > 0
  {
    var kept := KeepMatched(ScoreAll(cards, drawn));
    SameMembers(SortByRatio(kept), kept);
  }

  /** The ranking is ordered by share, highest first. */
  lemma RankingSorted(cards: seq<BingoCard>, drawn: seq<int>)
    ensures SortedByRatio(SortByRatio(KeepMatched(ScoreAll(cards, drawn))))
  {
    var r := SortByRatio(KeepMatched(ScoreAll(cards, drawn)));
    RankingMembers(cards, drawn);
    ScoreAllMembers(cards, drawn);
    assert forall m :: m in r ==> |m.card.numbers| > 0;
    DescendingSorted(r);
  }

  /** The `matchedCards` view: the scores of the cards that match at least one drawn
      number, every one of them, ranked by share, highest first. */
  function MatchedCards(cards: seq<BingoCard>, drawn: seq<int>): (r: seq<MatchedCard>)
    ensures drawn == [] ==> r == []
    ensures multiset(r) == multiset(KeepMatched(ScoreAll(cards, drawn)))
    ensures forall m :: m in r ==> m.matchedCount > 0 && m.card in cards && m == Score(m.card, drawn)
    ensures forall c :: c in cards ==> (Score(c, drawn) in r <==> Score(c, drawn).matchedCount > 0)
    ensures SortedByRatio(r)
  {
    if drawn == [] then
      NothingDrawnNothingMatched(cards);
      []
    else
      RankingMembers(cards, drawn);
      RankingSorted(cards, drawn);
      ScoreAllMembers(cards, drawn);
      SortByRatio(KeepMatched(ScoreAll(cards, drawn)))
  }

  /** The row loop of `matchedCards`: counts the rows whose slice is all drawn. */
  method CountCompletedRows(numbers: seq<int>, g: int, drawn: seq<int>) returns (completedRows: nat)
    ensures completedRows == CountRows(numbers, Span(g), drawn, Span(g))
  {
    completedRows := 0;
    var row := 0;
    while row < g
      invariant 0 <= row <= Span(g)
      invariant completedRows == CountRows(numbers, Span(g), drawn, row)
    {
      assert Span(g) == g;
      var rowNumbers := RowSlice(numbers, g, row);
      var allMatched := AllDrawn(rowNumbers, drawn);
      CountRowsStep(numbers, g, drawn, row);
      if allMatched {
        completedRows := completedRows + 1;
      }
      row := row + 1;
    }
  }

  /** The column loop of `matchedCards`: pushes each column's cells, then counts
      the columns whose cells are all drawn. */
  method CountCompletedCols(numbers: seq<int>, g: int, drawn: seq<int>) returns (completedCols: nat)
    ensures completedCols == CountCols(numbers, Span(g), drawn, Span(g))
  {
    completedCols := 0;
    var col := 0;
    while col < g
      invariant 0 <= col <= Span(g)
      invariant completedCols == CountCols(numbers, Span(g), drawn, col)
    {
      var colNumbers: seq<Option<int>> := [];
      var row := 0;
      while row < g
        invariant 0 <= row <= g
        invariant colNumbers == Column(numbers, g, col)[..row]
      {
        colNumbers := colNumbers + [CellAt(numbers, row * g + col)];
        row := row + 1;
      }
      var allMatched := AllCellsDrawn(colNumbers, drawn);
      if allMatched {
        completedCols := completedCols + 1;
      }
      col := col + 1;
    }
  }

  /** The `map` callback of `matchedCards` for one card. */
  method ScoreCard(card: BingoCard, drawn: seq<int>) returns (m: MatchedCard)
    ensures m == Score(card, drawn)
  {
    var matchedNumbers := MatchedNumbers(card.numbers, drawn);
    var g := EffectiveGridSize(card);
    var completedRows := CountCompletedRows(card.numbers, g, drawn);
    var completedCols := CountCompletedCols(card.numbers, g, drawn);
    m := MatchedCard(card, |matchedNumbers|, matchedNumbers, completedRows, completedCols);
  }
}
