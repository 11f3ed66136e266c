/** The play page's game state: the loaded artists and cards, the list of
    numbers drawn so far, and the number typed for a manual draw, with the
    operations that draw, retract and reset numbers.

    Alerts become the `DrawOutcome` a draw reports; the removal confirmation
    is taken as accepted; `Math.random` becomes an index chosen by the caller;
    a file load starts from the parsed value, None standing for a file that is
    not a JSON array. */
module PlayPage {
  import opened Common
  import Scoring

  /** An artist of the play page's roster. */
  datatype Artist = Artist(name: string, number: int)

  /** What a draw reports: the number drawn, or the condition it alerts about. */
  datatype DrawOutcome =
    | Drawn(number: int)
    | NoInput
    | NotFound(number: int)
    | AlreadyDrawn(number: int)
    | NoArtists
    | AllDrawn

  /** `artists.map((a) => a.number)`. */
  function NumbersOf(artists: seq<Artist>): (r: seq<int>)
    ensures |r| == |artists|
    ensures forall i :: 0 <= i < |artists| ==> r[i] == artists[i].number
  {
    seq(|artists|, i requires 0 <= i < |artists| => artists[i].number)
  }

  /** `availableNumbers`: the artists' numbers not yet drawn, in roster order. */
  function Available(artists: seq<Artist>, drawn: seq<int>): (r: seq<int>)
    ensures |r| <= |artists|
    ensures forall n :: n in r <==> n in NumbersOf(artists) && n !in drawn
  {
    Filter(NumbersOf(artists), n => n !in drawn)
  }

  /** When artist numbers are distinct and the drawn list holds distinct artist
      numbers, exactly `|artists| - |drawn|` numbers are still available; in
      particular the list is non-empty whenever fewer numbers are drawn than
      there are artists. */
  lemma AvailableCount(artists: seq<Artist>, drawn: seq<int>)
    requires Distinct(NumbersOf(artists)) && Distinct(drawn)
    requires forall n :: n in drawn ==> n in NumbersOf(artists)
    ensures |drawn| <= |artists|
    ensures |Available(artists, drawn)| == |artists| - |drawn|
  {
    DrawnPartition(artists, drawn);
    DrawnAreTaken(artists, drawn);
  }

  /** AvailableCount for any roster and drawn list: the count holds whenever
      its conditions do. */
  lemma AvailableCountIfValid(artists: seq<Artist>, drawn: seq<int>)
    ensures Distinct(NumbersOf(artists)) && Distinct(drawn) && (forall n :: n in drawn ==> n in NumbersOf(artists)) ==>
      |drawn| <= |artists| && |Available(artists, drawn)| == |artists| - |drawn|
  {
    if Distinct(NumbersOf(artists)) && Distinct(drawn) && (forall n :: n in drawn ==> n in NumbersOf(artists)) {
      AvailableCount(artists, drawn);
    }
  }

  /** The artists' numbers that have been drawn, in roster order. */
  function Taken(artists: seq<Artist>, drawn: seq<int>): (r: seq<int>)
    ensures forall x :: multiset(r)[x] == if x in drawn then multiset(NumbersOf(artists))[x] else 0
  {
    FilterCount(NumbersOf(artists), n => n in drawn);
    Filter(NumbersOf(artists), n => n in drawn)
  }

  /** Every roster number is either drawn or still available. */
  lemma DrawnPartition(artists: seq<Artist>, drawn: seq<int>)
    ensures |Taken(artists, drawn)| + |Available(artists, drawn)| == |artists|
  {
    var numbers := NumbersOf(artists);
    var taken := Taken(artists, drawn);
    var free := Available(artists, drawn);
    FilterCount(numbers, n => n !in drawn);
    assert multiset(taken) + multiset(free) == multiset(numbers) by {
      forall x ensures (multiset(taken) + multiset(free))[x] == multiset(numbers)[x] {
        assert multiset(free)[x] == if x !in drawn then multiset(numbers)[x] else 0;
      }
    }
    assert |multiset(numbers)| == |numbers|;
  }

  /** With no duplicates on either side, the drawn roster numbers are the drawn list itself. */
  lemma DrawnAreTaken(artists: seq<Artist>, drawn: seq<int>)
    requires Distinct(NumbersOf(artists)) && Distinct(drawn)
    requires forall n :: n in drawn ==> n in NumbersOf(artists)
    ensures |Taken(artists, drawn)| == |drawn|
  {
    var numbers := NumbersOf(artists);
    var taken := Taken(artists, drawn);
    DistinctMultiplicity(numbers);
    DistinctMultiplicity(drawn);
    assert multiset(taken) == multiset(drawn) by {
      forall x ensures multiset(taken)[x] == multiset(drawn)[x] {
        if x in drawn {
          assert x in multiset(numbers);
        }
      }
    }
    assert |multiset(taken)| == |drawn|;
  }

  /** The test of `drawRandomNumber` as written: artists are loaded and fewer
      numbers are drawn than there are artists. */
  predicate RandomGuardAsWritten(artists: seq<Artist>, drawn: seq<int>)
    ensures (RandomGuardAsWritten(artists, drawn) && Distinct(NumbersOf(artists)) && Distinct(drawn) &&
      (forall n :: n in drawn ==> n in NumbersOf(artists))) ==> |Available(artists, drawn)| > 0
  {
    AvailableCountIfValid(artists, drawn);
    |artists| != 0 && |drawn| < |artists|
  }

  /** The guard as written lets a draw through when two artists share a number
      and that number is drawn: no number is available, so the page would
      append `availableNumbers[0]`, which is `undefined`. */
  lemma RandomGuardAdmitsEmptyAvailable()
    ensures RandomGuardAsWritten([Artist("A", 1), Artist("B", 1)], [1])
    ensures Available([Artist("A", 1), Artist("B", 1)], [1]) == []
  {
  }

  /** `nums.filter((n) => n !== number)`: every occurrence of `number` goes,
      every other element stays, in order. */
  function RemoveAll(drawn: seq<int>, number: int): (r: seq<int>)
    ensures number !in r
    ensures forall n :: n != number ==> multiset(r)[n] == multiset(drawn)[n]
    ensures forall n :: n in r <==> n in drawn && n != number
  {
    FilterCount(drawn, n => n != number);
    Filter(drawn, n => n != number)
  }

  /** Retraction keeps the order of the numbers that stay. */
  lemma RemoveAllAppend(a: seq<int>, b: seq<int>, number: int)
    ensures RemoveAll(a + b, number) == RemoveAll(a, number) + RemoveAll(b, number)
  {
    FilterAppend(a, b, n => n != number);
  }

  /** `getArtistByNumber`: the name of the first artist holding `number`, or `''`. */
  function ArtistName(artists: seq<Artist>, number: int): (name: string)
    ensures number !in NumbersOf(artists) ==> name == ""
    ensures forall k :: (0 <= k < |artists| && artists[k].number == number &&
      (forall j :: 0 <= j < k ==> artists[j].number != number)) ==> name == artists[k].name
  {
    var k := IndexOf(NumbersOf(artists), number);
    if k < |artists| then artists[k].name else ""
  }

  /** `lastDrawnNumber`: the most recent draw, or null before the first one. */
  function LastDrawn(drawn: seq<int>): (r: Option<int>)
    ensures r.None? <==> drawn == []
    ensures r.Some? ==> drawn == drawn[..|drawn| - 1] + [r.value]
  {
    if drawn == [] then None else Some(drawn[|drawn| - 1])
  }

  class Play {
    var artists: seq<Artist>
    var bingoCards: seq<Scoring.BingoCard>
    var drawnNumbers: seq<int>
    var manualNumber: Option<int>

    /** The drawn list has no duplicates and holds only numbers of loaded artists. */
    predicate Valid()
      reads this
    {
      Distinct(drawnNumbers) && forall n :: n in drawnNumbers ==> n in NumbersOf(artists)
    }

    constructor ()
      ensures Valid()
      ensures artists == [] && bingoCards == [] && drawnNumbers == [] && manualNumber == None
    {
      artists, bingoCards, drawnNumbers, manualNumber := [], [], [], None;
    }

    /** `matchedCards`: the ranked scores of the loaded cards. */
    function MatchedCards(): (r: seq<Scoring.MatchedCard>)
      reads this
      ensures r == Scoring.MatchedCards(bingoCards, drawnNumbers)
      ensures drawnNumbers == [] ==> r == []
      ensures forall m :: m in r ==> m.matchedCount > 0 && m.card in bingoCards && m == Scoring.Score(m.card, drawnNumbers)
      ensures forall c :: c in bingoCards ==>
        (Scoring.Score(c, drawnNumbers) in r <==> Scoring.Score(c, drawnNumbers).matchedCount > 0)
      ensures Scoring.SortedByRatio(r)
    {
      Scoring.MatchedCards(bingoCards, drawnNumbers)
    }

    /** `totalNumbers`: the size of the roster, which for a roster of distinct
        numbers is the number of draws made plus those still available. */
    function TotalNumbers(): (r: nat)
      reads this
      ensures r == |artists|
      ensures Valid() && Distinct(NumbersOf(artists)) ==>
        r == |drawnNumbers| + |Available(artists, drawnNumbers)|
    {
      AvailableCountIfValid(artists, drawnNumbers);
      |artists|
    }

    function LastDrawnNumber(): (r: Option<int>)
      reads this
      ensures r == LastDrawn(drawnNumbers)
      ensures r.None? <==> drawnNumbers == []
      ensures r.Some? ==> r.value == drawnNumbers[|drawnNumbers| - 1]
    {
      LastDrawn(drawnNumbers)
    }

    function GetArtistByNumber(number: int): (name: string)
      reads this
      ensures name == ArtistName(artists, number)
      ensures number !in NumbersOf(artists) ==> name == ""
      ensures forall k :: (0 <= k < |artists| && artists[k].number == number &&
        (forall j :: 0 <= j < k ==> artists[j].number != number)) ==> name == artists[k].name
    {
      ArtistName(artists, number)
    }

    /** `onArtistsFileLoad`: an array replaces the roster and clears the draws. */
    method OnArtistsFileLoad(json: Option<seq<Artist>>)
      requires Valid()
      modifies this
      ensures Valid()
      ensures json.Some? ==> artists == json.value && drawnNumbers == []
      ensures json.None? ==> artists == old(artists) && drawnNumbers == old(drawnNumbers)
      ensures bingoCards == old(bingoCards) && manualNumber == old(manualNumber)
    {
      if json.Some? {
        artists := json.value;
        drawnNumbers := [];
      }
    }

    /** `onCardsFileLoad`: an array replaces the cards; the draws stay. */
    method OnCardsFileLoad(json: Option<seq<Scoring.BingoCard>>)
      requires Valid()
      modifies this
      ensures Valid()
      ensures bingoCards == if json.Some? then json.value else old(bingoCards)
      ensures artists == old(artists) && drawnNumbers == old(drawnNumbers) && manualNumber == old(manualNumber)
    {
      if json.Some? {
        bingoCards := json.value;
      }
    }

    /** `drawRandomNumber`, with `Math.floor(Math.random() * availableNumbers.length)`
        supplied as `randomIndex`. Besides the two tests of the page, a draw
        with no available number is refused. */
    method DrawRandomNumber(randomIndex: nat) returns (outcome: DrawOutcome)
      requires Valid()
      requires |Available(artists, drawnNumbers)| > 0 ==> randomIndex < |Available(artists, drawnNumbers)|
      modifies this
      ensures Valid()
      ensures old(artists) == [] ==> outcome == NoArtists
      ensures old(artists) != [] && |old(drawnNumbers)| >= |old(artists)| ==> outcome == AllDrawn
      ensures outcome.Drawn? <==> RandomGuardAsWritten(old(artists), old(drawnNumbers)) && |Available(old(artists), old(drawnNumbers))| > 0
      ensures outcome.Drawn? ==> outcome.number == Available(old(artists), old(drawnNumbers))[randomIndex]
      ensures outcome.Drawn? ==> outcome.number in NumbersOf(artists) && outcome.number !in old(drawnNumbers)
      ensures drawnNumbers == if outcome.Drawn? then old(drawnNumbers) + [outcome.number] else old(drawnNumbers)
      ensures artists == old(artists) && bingoCards == old(bingoCards) && manualNumber == old(manualNumber)
    {
      if |artists| == 0 {
        return NoArtists;
      }
      if |drawnNumbers| >= |artists| {
        return AllDrawn;
      }
      var availableNumbers := Available(artists, drawnNumbers);
      if |availableNumbers| == 0 {
        return AllDrawn;
      }
      var drawnNumber := availableNumbers[randomIndex];
      assert drawnNumber in availableNumbers;
      DistinctAppend(drawnNumbers, drawnNumber);
      drawnNumbers := drawnNumbers + [drawnNumber];
      outcome := Drawn(drawnNumber);
    }

    /** `drawManualNumber`: the typed number is drawn if it belongs to an artist
        and has not been drawn yet, and the input is then cleared. */
    method DrawManualNumber() returns (outcome: DrawOutcome)
      requires Valid()
      modifies this
      ensures Valid()
      ensures old(manualNumber).None? ==> outcome == NoInput
      ensures old(manualNumber).Some? ==>
        var n := old(manualNumber).value;
        outcome == (if n !in NumbersOf(artists) then NotFound(n)
                    else if n in old(drawnNumbers) then AlreadyDrawn(n)
                    else Drawn(n))
      ensures drawnNumbers == if outcome.Drawn? then old(drawnNumbers) + [outcome.number] else old(drawnNumbers)
      ensures manualNumber == if outcome.Drawn? then None else old(manualNumber)
      ensures outcome.Drawn? ==> LastDrawnNumber() == Some(outcome.number)
      ensures artists == old(artists) && bingoCards == old(bingoCards)
    {
      if manualNumber.None? {
        return NoInput;
      }
      var number := manualNumber.value;
      if number !in NumbersOf(artists) {
        return NotFound(number);
      }
      if number in drawnNumbers {
        return AlreadyDrawn(number);
      }
      DistinctAppend(drawnNumbers, number);
      drawnNumbers := drawnNumbers + [number];
      manualNumber := None;
      outcome := Drawn(number);
    }

    /** `removeDrawnNumber`, confirmed: the number leaves the drawn list, which
        makes it available again to both kinds of draw. */
    method RemoveDrawnNumber(number: int)
      requires Valid()
      modifies this
      ensures Valid()
      ensures drawnNumbers == RemoveAll(old(drawnNumbers), number)
      ensures number in NumbersOf(artists) ==> number in Available(artists, drawnNumbers)
      ensures artists == old(artists) && bingoCards == old(bingoCards) && manualNumber == old(manualNumber)
    {
      DistinctMultiplicity(drawnNumbers);
      drawnNumbers := RemoveAll(drawnNumbers, number);
      DistinctMultiplicity(drawnNumbers);
    }

    /** `resetGame`: no number is drawn any more. */
    method ResetGame()
      requires Valid()
      modifies this
      ensures Valid()
      ensures drawnNumbers == []
      ensures artists == old(artists) && bingoCards == old(bingoCards) && manualNumber == old(manualNumber)
    {
      drawnNumbers := [];
    }
  }
}
