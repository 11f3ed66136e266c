/** The roster designer: artist names are read off the selected `.mp3` file
    names (the text before the first `-`, trimmed, first occurrence first),
    and numbers `1..N` are dealt to them with a Fisher–Yates shuffle.

    A selected file is represented by its name; `Math.random` in the shuffle
    becomes a sequence of choices supplied by the caller. */
module DesignPage {
  import opened Common
  import opened Text

  /** A roster entry; `number` is None until numbers are assigned. */
  datatype Artist = Artist(name: string, number: Option<int>)

  /** `name.toLowerCase().endsWith('.mp3')`, and equally `/\.mp3$/i` matching `name`. */
  predicate HasMp3Suffix(name: string)
    ensures HasMp3Suffix(name) <==>
      |name| >= 4 && name[|name| - 4] == '.' && name[|name| - 3] in "mM" &&
      name[|name| - 2] in "pP" && name[|name| - 1] == '3'
  {
    |name| >= 4 && LowerAll(name[|name| - 4..]) == ".mp3"
  }

  /** The files `onFileSelect` keeps: those whose names end in `.mp3`, in any letter case. */
  function Mp3Files(files: seq<string>): (r: seq<string>)
    ensures |r| <= |files|
    ensures forall f :: f in r <==> f in files && HasMp3Suffix(f)
  {
    Filter(files, HasMp3Suffix)
  }

  /** `name.replace(/\.mp3$/i, '')`. */
  function StripMp3(name: string): (r: string)
    ensures HasMp3Suffix(name) ==> |r| == |name| - 4 && name == r + name[|name| - 4..]
    ensures !HasMp3Suffix(name) ==> r == name
  {
    if HasMp3Suffix(name) then name[..|name| - 4] else name
  }

  /** The artist a file name contributes: `parts[0].trim()` of `fileName.split('-')`,
      provided there are at least two parts and the trimmed text is non-empty. */
  function ArtistOf(fileName: string): (r: Option<string>)
    ensures r.None? <==> '-' !in fileName || Trim(fileName[..IndexOf(fileName, '-')]) == []
    ensures r.Some? ==> r.value != [] && '-' !in r.value
    ensures r.Some? ==> !IsJsWhitespace(r.value[0]) && !IsJsWhitespace(r.value[|r.value| - 1])
    ensures r.Some? ==> r.value == Trim(fileName[..IndexOf(fileName, '-')])
  {
    var k := IndexOf(fileName, '-');
    if k == |fileName| then None
    else
      TrimExcludes(fileName[..k], '-');
      var name := Trim(fileName[..k]);
      if name == [] then None else Some(name)
  }

  /** What each file contributes, in file order. */
  function Candidates(files: seq<string>): (r: seq<Option<string>>)
    ensures |r| == |files|
    ensures forall i :: 0 <= i < |files| ==> r[i] == ArtistOf(StripMp3(files[i]))
  {
    seq(|files|, i requires 0 <= i < |files| => ArtistOf(StripMp3(files[i])))
  }

  /** `Set.prototype.add` on a set kept in insertion order; an absent candidate adds nothing. */
  function AddName(names: seq<string>, c: Option<string>): (r: seq<string>)
    ensures forall x :: x in r <==> x in names || c == Some(x)
    ensures |names| <= |r| && r[..|names|] == names
    ensures Distinct(names) ==> Distinct(r)
  {
    if c.Some? && c.value !in names then
      var r := names + [c.value];
      assert r[..|names|] == names;
      if Distinct(names) then DistinctAppend(names, c.value); r else r
    else
      assert names[..|names|] == names;
      names
  }

  /** The insertion-ordered set built by adding every candidate in turn. */
  function Collect(cs: seq<Option<string>>): (r: seq<string>)
    ensures Distinct(r)
    ensures forall x :: x in r <==> Some(x) in cs
  {
    if cs == [] then []
    else
      var p := cs[..|cs| - 1];
      var names := Collect(p);
      assert cs == p + [cs[|cs| - 1]];
      AddName(names, cs[|cs| - 1])
  }

  /** One more file adds its candidate to the names found in the files before it. */
  lemma CollectStep(files: seq<string>, i: nat)
    requires i < |files|
    ensures Collect(Candidates(files)[..i + 1]) == AddName(Collect(Candidates(files)[..i]), ArtistOf(StripMp3(files[i])))
  {
    var prefix := Candidates(files)[..i + 1];
    assert prefix[..i] == Candidates(files)[..i];
  }

  /** The names `extractArtists` finds in a list of files: each appears once. */
  function ArtistNames(files: seq<string>): (r: seq<string>)
    ensures Distinct(r)
  {
    Collect(Candidates(files))
  }

  /** Exactly the names some file contributes are extracted. */
  lemma ArtistNamesMembers(files: seq<string>, x: string)
    ensures x in ArtistNames(files) <==> exists i :: 0 <= i < |files| && ArtistOf(StripMp3(files[i])) == Some(x)
  {
    var cs := Candidates(files);
    assert x in ArtistNames(files) <==> Some(x) in cs;
    if Some(x) in cs {
      var i := IndexOf(cs, Some(x));
      assert ArtistOf(StripMp3(files[i])) == Some(x);
    }
    if exists i :: 0 <= i < |files| && ArtistOf(StripMp3(files[i])) == Some(x) {
      var i :| 0 <= i < |files| && ArtistOf(StripMp3(files[i])) == Some(x);
      assert cs[i] == Some(x);
    }
  }

  /** Extracted names are ordered by the first file that contributes them. */
  lemma ArtistNamesOrder(files: seq<string>, x: string, y: string)
    ensures x in ArtistNames(files) && y in ArtistNames(files) ==>
      (IndexOf(ArtistNames(files), x) < IndexOf(ArtistNames(files), y) <==>
       IndexOf(Candidates(files), Some(x)) < IndexOf(Candidates(files), Some(y)))
  {
    if x in ArtistNames(files) && y in ArtistNames(files) {
      CollectOrder(Candidates(files), x, y);
    }
  }

  /** The insertion-ordered set lists its elements in order of first occurrence. */
  lemma {:induction false} CollectOrder(cs: seq<Option<string>>, x: string, y: string)
    requires x in Collect(cs) && y in Collect(cs)
    ensures IndexOf(Collect(cs), x) < IndexOf(Collect(cs), y) <==> IndexOf(cs, Some(x)) < IndexOf(cs, Some(y))
  {
    var p := cs[..|cs| - 1];
    var c := cs[|cs| - 1];
    var names := Collect(p);
    assert cs == p + [c];
    if x in names && y in names {
      CollectOrder(p, x, y);
      IndexOfExtend(p, [c], Some(x));
      IndexOfExtend(p, [c], Some(y));
      if Collect(cs) != names {
        IndexOfExtend(names, [c.value], x);
        IndexOfExtend(names, [c.value], y);
      }
    } else if x !in names {
      assert Collect(cs) == names + [x];
      assert Some(x) !in p;
      assert IndexOf(cs, Some(x)) == |p| by {
        assert cs[|p|] == Some(x);
      }
      if y != x {
        assert y in names && Some(y) in p;
        IndexOfExtend(p, [c], Some(y));
        IndexOfExtend(names, [x], y);
      }
    } else {
      assert Collect(cs) == names + [y];
      assert Some(y) !in p;
      assert IndexOf(cs, Some(y)) == |p| by {
        assert cs[|p|] == Some(y);
      }
      assert Some(x) in p;
      IndexOfExtend(p, [c], Some(x));
      IndexOfExtend(names, [y], x);
    }
  }

  /** `Array.from({ length: n }, (_, i) => i + 1)`. */
  function Iota(n: nat): (r: seq<int>)
    ensures |r| == n && Distinct(r)
    ensures forall k :: 0 <= k < n ==> r[k] == k + 1
  {
    seq(n, k requires 0 <= k < n => k + 1)
  }

  /** The random draws of the shuffle: the draw at step `i` is
      `Math.floor(Math.random() * (i + 1))`, so it lies in `0..i`. */
  predicate ValidChoices(choices: seq<nat>, n: nat) {
    |choices| == n && forall k :: 0 <= k < n ==> choices[k] <= k
  }

  /** `[s[i], s[j]] = [s[j], s[i]]`. */
  function Swap(s: seq<int>, i: nat, j: nat): (r: seq<int>)
    requires i < |s| && j < |s|
    ensures |r| == |s|
    ensures r[i] == s[j] && r[j] == s[i]
    ensures forall k :: 0 <= k < |s| && k != i && k != j ==> r[k] == s[k]
  {
    s[i := s[j]][j := s[i]]
  }

  /** A swap only reorders. */
  lemma SwapPermutes(s: seq<int>, i: nat, j: nat)
    requires i < |s| && j < |s|
    ensures multiset(Swap(s, i, j)) == multiset(s)
  {
  }

  /** The shuffle's remaining steps, from step `i` down to step 1. */
  function ShuffleFrom(s: seq<int>, choices: seq<nat>, i: int): (r: seq<int>)
    requires ValidChoices(choices, |s|) && i < |s|
    ensures |r| == |s|
    decreases i
  {
    if i <= 0 then s else ShuffleFrom(Swap(s, i, choices[i]), choices, i - 1)
  }

  /** Every step of the shuffle swaps two positions, so it only reorders. */
  lemma {:induction false} ShuffleFromPermutes(s: seq<int>, choices: seq<nat>, i: int)
    requires ValidChoices(choices, |s|) && i < |s|
    ensures multiset(ShuffleFrom(s, choices, i)) == multiset(s)
    decreases i
  {
    if i > 0 {
      var t := Swap(s, i, choices[i]);
      SwapPermutes(s, i, choices[i]);
      ShuffleFromPermutes(t, choices, i - 1);
    }
  }

  /** The numbers `assignNumbers` deals for `n` artists and the given draws. */
  function Shuffled(n: nat, choices: seq<nat>): (r: seq<int>)
    requires ValidChoices(choices, n)
    ensures |r| == n
  {
    ShuffleFrom(Iota(n), choices, n - 1)
  }

  /** The dealt numbers are `1..n` in some order: each lies in range and no two agree. */
  lemma ShuffledIsPermutation(n: nat, choices: seq<nat>)
    requires ValidChoices(choices, n)
    ensures multiset(Shuffled(n, choices)) == multiset(Iota(n))
    ensures Distinct(Shuffled(n, choices))
    ensures forall k :: 0 <= k < n ==> 1 <= Shuffled(n, choices)[k] <= n
  {
    var r := Shuffled(n, choices);
    ShuffleFromPermutes(Iota(n), choices, n - 1);
    DistinctMultiplicity(Iota(n));
    DistinctMultiplicity(r);
    forall k | 0 <= k < n ensures 1 <= r[k] <= n {
      assert r[k] in multiset(Iota(n));
    }
  }

  /** The Fisher–Yates loop of `assignNumbers`, on an array initialised to `1..n`. */
  method FisherYates(n: nat, choices: seq<nat>) returns (numbers: seq<int>)
    requires ValidChoices(choices, n)
    ensures numbers == Shuffled(n, choices)
    ensures |numbers| == n && Distinct(numbers)
    ensures forall k :: 0 <= k < n ==> 1 <= numbers[k] <= n
  {
    var a := new int[n](k => k + 1);
    assert a[..] == Iota(n);
    var i := n - 1;
    while i > 0
      invariant -1 <= i < n
      invariant ShuffleFrom(a[..], choices, i) == Shuffled(n, choices)
      decreases i
    {
      var j := choices[i];
      assert j <= i;
      ghost var before := a[..];
      a[i], a[j] := a[j], a[i];
      assert a[..] == Swap(before, i, j);
      i := i - 1;
    }
    numbers := a[..];
    ShuffledIsPermutation(n, choices);
  }

  /** `names.map((name) => ({ name, number: null }))`. */
  function Unnumbered(names: seq<string>): (r: seq<Artist>)
    ensures |r| == |names|
    ensures forall k :: 0 <= k < |names| ==> r[k].name == names[k] && r[k].number.None?
  {
    seq(|names|, k requires 0 <= k < |names| => Artist(names[k], None))
  }

  /** The file loop of `extractArtists`: the part of each name before the first
      `-`, trimmed, is added to an insertion-ordered set when it is non-empty. */
  method ScanFiles(files: seq<string>) returns (artistSet: seq<string>)
    ensures artistSet == ArtistNames(files)
  {
    artistSet := [];
    var i := 0;
    assert Candidates(files)[..0] == [];
    while i < |files|
      invariant 0 <= i <= |files|
      invariant artistSet == Collect(Candidates(files)[..i])
    {
      CollectStep(files, i);
      ghost var before := artistSet;
      var fileName := StripMp3(files[i]);
      var dash := IndexOf(fileName, '-');
      if dash < |fileName| {
        var artist := Trim(fileName[..dash]);
        if artist != [] && artist !in artistSet {
          artistSet := artistSet + [artist];
        }
      }
      assert artistSet == AddName(before, ArtistOf(fileName));
      assert artistSet == Collect(Candidates(files)[..i + 1]);
      i := i + 1;
    }
    assert Candidates(files)[..i] == Candidates(files);
  }

  class Design {
    var artists: seq<Artist>
    var selectedFiles: seq<string>

    constructor ()
      ensures artists == [] && selectedFiles == []
    {
      artists, selectedFiles := [], [];
    }

    /** `onFileSelect`: when a file list is delivered, keep its `.mp3` files and
        extract the artists from them. */
    method OnFileSelect(files: Option<seq<string>>)
      modifies this
      ensures files.Some? ==> selectedFiles == Mp3Files(files.value) && artists == Unnumbered(ArtistNames(selectedFiles))
      ensures files.None? ==> selectedFiles == old(selectedFiles) && artists == old(artists)
    {
      if files.Some? {
        selectedFiles := Mp3Files(files.value);
        ExtractArtists();
      }
    }

    /** `extractArtists`: one roster entry per distinct name, numbers unassigned. */
    method ExtractArtists()
      modifies this
      ensures artists == Unnumbered(ArtistNames(selectedFiles))
      ensures selectedFiles == old(selectedFiles)
    {
      var artistSet := ScanFiles(selectedFiles);
      artists := Unnumbered(artistSet);
    }

    /** `assignNumbers`: every artist keeps its name and place and receives
        its number from a shuffle of `1..N`. */
    method AssignNumbers(choices: seq<nat>)
      requires ValidChoices(choices, |artists|)
      modifies this
      ensures |artists| == |old(artists)|
      ensures forall k :: 0 <= k < |artists| ==>
        artists[k] == Artist(old(artists)[k].name, Some(Shuffled(|artists|, choices)[k]))
      ensures forall k :: 0 <= k < |artists| ==> 1 <= artists[k].number.value <= |artists|
      ensures forall k, m :: 0 <= k < m < |artists| ==> artists[k].number != artists[m].number
      ensures selectedFiles == old(selectedFiles)
    {
      var artistsList := artists;
      var numbers := FisherYates(|artistsList|, choices);
      artists := seq(|artistsList|, k requires 0 <= k < |artistsList| => Artist(artistsList[k].name, Some(numbers[k])));
    }

    /** `onFileLoad`: a parsed array replaces the roster. */
    method OnFileLoad(json: Option<seq<Artist>>)
      modifies this
      ensures artists == if json.Some? then json.value else old(artists)
      ensures selectedFiles == old(selectedFiles)
    {
      if json.Some? {
        artists := json.value;
      }
    }
  }
}
