/** The print preview: card records read from a JSON file are normalised into
    printable cards (defaults for a missing id, grid size, display mode and
    cell names), and each cell is rendered as a name, a number or both.

    A record field that is `null` or `undefined` is None; the `||` defaults
    also replace the falsy values `0` and `''`, the `??` default does not. */
module PrintPreviewPage {
  import opened Common
  import opened Text

  /** One element of the loaded JSON array, as far as the page reads it. */
  datatype CardRecord = CardRecord(
    id: Option<int>,
    gridSize: Option<int>,
    displayMode: Option<string>,
    numbers: Option<seq<int>>,
    artists: Option<seq<Option<string>>>)

  datatype BingoCell = BingoCell(name: string, number: int)

  datatype BingoCard = BingoCard(id: int, cells: seq<BingoCell>, gridSize: int, displayMode: string)

  /** `item.gridSize || 5`. */
  function GridSizeOr5(g: Option<int>): (r: int)
    ensures r != 0
    ensures g.Some? && g.value != 0 ==> r == g.value
    ensures g.None? || g.value == 0 ==> r == 5
  {
    if g.Some? && g.value != 0 then g.value else 5
  }

  /** `item.displayMode || 'both'`. */
  function DisplayModeOrBoth(m: Option<string>): (r: string)
    ensures r != ""
    ensures m.Some? && m.value != "" ==> r == m.value
    ensures m.None? || m.value == "" ==> r == "both"
  {
    if m.Some? && m.value != "" then m.value else "both"
  }

  /** The name placed in a cell when the record supplies none. */
  function DefaultName(num: int): (r: string)
    ensures |r| > 7 && r[..7] == "Artist " && r[7..] == IntToString(num)
    ensures IsDecimal(r[7..]) && ParseInt(r[7..]) == num
  {
    var r := "Artist " + IntToString(num);
    assert r[7..] == IntToString(num);
    IntRoundTrip(num);
    r
  }

  /** `item.artists?.[i] || \`Artist ${num}\``. */
  function CellName(artists: Option<seq<Option<string>>>, i: nat, num: int): (r: string)
    ensures r != ""
    ensures artists.Some? && i < |artists.value| && artists.value[i].Some? && artists.value[i].value != "" ==>
      r == artists.value[i].value
    ensures !(artists.Some? && i < |artists.value| && artists.value[i].Some? && artists.value[i].value != "") ==>
      r == DefaultName(num)
  {
    if artists.Some? && i < |artists.value| && artists.value[i].Some? && artists.value[i].value != "" then
      artists.value[i].value
    else
      DefaultName(num)
  }

  /** The card built from the record at position `index` of the loaded array. */
  function NormalizeCard(item: CardRecord, index: nat): (c: BingoCard)
    ensures item.id.Some? ==> c.id == item.id.value
    ensures item.id.None? ==> c.id == index + 1
    ensures c.gridSize == GridSizeOr5(item.gridSize) && c.gridSize != 0
    ensures c.displayMode == DisplayModeOrBoth(item.displayMode) && c.displayMode != ""
    ensures item.numbers.None? ==> c.cells == []
    ensures item.numbers.Some? ==> |c.cells| == |item.numbers.value|
    ensures item.numbers.Some? ==> forall i :: 0 <= i < |c.cells| ==>
      c.cells[i] == BingoCell(CellName(item.artists, i, item.numbers.value[i]), item.numbers.value[i])
    ensures forall i :: 0 <= i < |c.cells| ==> c.cells[i].name != ""
  {
    var numbers := if item.numbers.Some? then item.numbers.value else [];
    BingoCard(
      if item.id.Some? then item.id.value else index + 1,
      seq(|numbers|, i requires 0 <= i < |numbers| => BingoCell(CellName(item.artists, i, numbers[i]), numbers[i])),
      GridSizeOr5(item.gridSize),
      DisplayModeOrBoth(item.displayMode))
  }

  /** `json.map((item, index) => ...)`: one card per record, in order. */
  function NormalizeCards(items: seq<CardRecord>): (r: seq<BingoCard>)
    ensures |r| == |items|
    ensures forall i :: 0 <= i < |items| ==> r[i] == NormalizeCard(items[i], i)
  {
    seq(|items|, i requires 0 <= i < |items| => NormalizeCard(items[i], i))
  }

  /** A normalised card written back as a record, with every field present. */
  function RecordOf(c: BingoCard): (r: CardRecord)
    ensures r.id == Some(c.id) && r.gridSize == Some(c.gridSize) && r.displayMode == Some(c.displayMode)
    ensures r.numbers.Some? && |r.numbers.value| == |c.cells|
    ensures r.artists.Some? && |r.artists.value| == |c.cells|
  {
    CardRecord(
      Some(c.id), Some(c.gridSize), Some(c.displayMode),
      Some(seq(|c.cells|, i requires 0 <= i < |c.cells| => c.cells[i].number)),
      Some(seq(|c.cells|, i requires 0 <= i < |c.cells| => Some(c.cells[i].name))))
  }

  /** Normalisation is a fix point of its own defaults: a normalised card, with
      every field written out as a record, normalises to itself at any position.
      The page never writes a card back; this is a property of the default rules
      alone. */
  lemma {:induction false} NormalizeIdempotent(item: CardRecord, index: nat, index': nat)
    ensures NormalizeCard(RecordOf(NormalizeCard(item, index)), index') == NormalizeCard(item, index)
  {
    var c := NormalizeCard(item, index);
    var c' := NormalizeCard(RecordOf(c), index');
    assert |c'.cells| == |c.cells|;
    forall i | 0 <= i < |c.cells| ensures c'.cells[i] == c.cells[i] {
      assert RecordOf(c).artists.value[i] == Some(c.cells[i].name);
      assert RecordOf(c).numbers.value[i] == c.cells[i].number;
    }
  }

  /** `getCellDisplay`: `'name'` shows the name, `'number'` the decimal number,
      any other mode `"<number>. <name>"`. */
  function CellDisplay(mode: string, cell: BingoCell): (r: string)
    ensures mode == "name" ==> r == cell.name
    ensures mode == "number" ==> r == IntToString(cell.number) && IsDecimal(r) && ParseInt(r) == cell.number
    ensures mode != "name" && mode != "number" ==> r == IntToString(cell.number) + ". " + cell.name
  {
    IntRoundTrip(cell.number);
    if mode == "name" then cell.name
    else if mode == "number" then IntToString(cell.number)
    else IntToString(cell.number) + ". " + cell.name
  }

  /** The `"<number>. <name>"` rendering can be read back: the text before the
      first `.` is the number, the text after `". "` is the name. */
  lemma CellDisplayBothReadsBack(cell: BingoCell)
    ensures var r := CellDisplay("both", cell);
      var k := IndexOf(r, '.');
      k + 2 <= |r| && IsDecimal(r[..k]) && ParseInt(r[..k]) == cell.number && r[k + 2..] == cell.name
  {
    var digits := IntToString(cell.number);
    var r := CellDisplay("both", cell);
    assert r == digits + ". " + cell.name;
    assert '.' !in digits by {
      if cell.number < 0 {
        assert digits[1..] == NatToString(-cell.number);
        forall i | 0 <= i < |digits| ensures digits[i] != '.' {
          if i > 0 { assert digits[i] == digits[1..][i - 1]; }
        }
      }
    }
    assert r[|digits|] == '.';
    assert IndexOf(r, '.') == |digits| by {
      forall k | 0 <= k < |digits| ensures r[k] != '.' {
        assert r[k] == digits[k];
      }
    }
    assert r[..|digits|] == digits;
    assert r[|digits| + 2..] == cell.name;
    IntRoundTrip(cell.number);
  }

  /** What NormalizeCard guarantees of every card it builds. */
  predicate Normalized(c: BingoCard) {
    c.gridSize != 0 && c.displayMode != "" && forall i :: 0 <= i < |c.cells| ==> c.cells[i].name != ""
  }

  class PrintPreview {
    var bingoCards: seq<BingoCard>
    var displayMode: string
    var backgroundImage: Option<string>
    var gridSize: int

    /** The cards are normalised and the page's grid size and mode are set. */
    predicate Valid()
      reads this
    {
      (forall c :: c in bingoCards ==> Normalized(c)) && gridSize != 0 && displayMode != ""
    }

    constructor ()
      ensures Valid()
      ensures bingoCards == [] && displayMode == "both" && backgroundImage == None && gridSize == 5
    {
      bingoCards, displayMode, backgroundImage, gridSize := [], "both", None, 5;
    }

    /** `onCardsFileLoad`: a parsed array replaces the cards, and a non-empty
        one hands its first card's grid size and display mode to the page. */
    method OnCardsFileLoad(json: Option<seq<CardRecord>>)
      requires Valid()
      modifies this
      ensures Valid()
      ensures bingoCards == if json.Some? then NormalizeCards(json.value) else old(bingoCards)
      ensures json.Some? && json.value != [] ==>
        gridSize == bingoCards[0].gridSize && displayMode == bingoCards[0].displayMode &&
        GetEffectiveGridSize() == gridSize
      ensures json.None? || json.value == [] ==> gridSize == old(gridSize) && displayMode == old(displayMode)
      ensures backgroundImage == old(backgroundImage)
    {
      if json.Some? {
        var loadedCards := NormalizeCards(json.value);
        bingoCards := loadedCards;
        if |loadedCards| > 0 {
          gridSize := if loadedCards[0].gridSize != 0 then loadedCards[0].gridSize else 5;
          displayMode := if loadedCards[0].displayMode != "" then loadedCards[0].displayMode else "both";
        }
      }
    }

    /** `onBackgroundImageSelect`, from the data URL the reader delivers. */
    method OnBackgroundImageSelect(dataUrl: Option<string>)
      requires Valid()
      modifies this
      ensures Valid()
      ensures backgroundImage == if dataUrl.Some? then dataUrl else old(backgroundImage)
      ensures bingoCards == old(bingoCards) && gridSize == old(gridSize) && displayMode == old(displayMode)
    {
      if dataUrl.Some? {
        backgroundImage := dataUrl;
      }
    }

    method ClearBackgroundImage()
      requires Valid()
      modifies this
      ensures Valid()
      ensures backgroundImage == None
      ensures bingoCards == old(bingoCards) && gridSize == old(gridSize) && displayMode == old(displayMode)
    {
      backgroundImage := None;
    }

    /** `getEffectiveGridSize`: the first card's grid size when it is set, else the page's. */
    function GetEffectiveGridSize(): (r: int)
      reads this
      ensures |bingoCards| > 0 && bingoCards[0].gridSize != 0 ==> r == bingoCards[0].gridSize
      ensures bingoCards == [] || bingoCards[0].gridSize == 0 ==> r == gridSize
      ensures Valid() ==> r != 0
    {
      if |bingoCards| > 0 && bingoCards[0].gridSize != 0 then bingoCards[0].gridSize else gridSize
    }

    function GetCellDisplay(cell: BingoCell): (r: string)
      reads this
      ensures displayMode == "name" ==> r == cell.name
      ensures displayMode == "number" ==> r == IntToString(cell.number) && IsDecimal(r) && ParseInt(r) == cell.number
      ensures displayMode != "name" && displayMode != "number" ==>
        r == IntToString(cell.number) + ". " + cell.name
    {
      CellDisplay(displayMode, cell)
    }
  }
}
