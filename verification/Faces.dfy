/** Strings as tiles and back (xwords4/common/dictnry.c, `dict_tilesForString` and `dict_tilesToString`).
    A tile has one or more faces: the face shown, and others that may be typed for it. */
module Faces {
  import opened Dawg

  type Text = seq<nat>

  const MAX_TILES: nat := 32

  datatype FaceTable = FaceTable(faces: seq<seq<Text>>, blank: Tile)

  predicate NonEmptyFaces(d: FaceTable) {
    forall t, i :: 0 <= t < |d.faces| && 0 <= i < |d.faces[t]| ==> d.faces[t][i] != []
  }

  predicate StartsWith(s: Text, f: Text) {
    |f| <= |s| && s[..|f|] == f
  }

  /** The first of a tile's faces that the string starts with. */
  function FirstMatch(fs: seq<Text>, s: Text): (i: nat)
    ensures i <= |fs|
    ensures i < |fs| ==> StartsWith(s, fs[i])
    ensures forall j :: 0 <= j < i ==> !StartsWith(s, fs[j])
  {
    if fs == [] || StartsWith(s, fs[0]) then 0 else 1 + FirstMatch(fs[1..], s)
  }

  /** The tiles spell the string, each by one of its faces. */
  ghost predicate Spells(d: FaceTable, ts: seq<Tile>, s: Text)
    decreases |ts|
  {
    if ts == [] then s == []
    else
      && ts[0] < |d.faces| && ts[0] != d.blank
      && exists i :: 0 <= i < |d.faces[ts[0]]| && StartsWith(s, d.faces[ts[0]][i])
           && Spells(d, ts[1..], s[|d.faces[ts[0]][i]|..])
  }

  /** The same, each by the first of its faces that matches where it stands. */
  predicate SpellsByFirst(d: FaceTable, ts: seq<Tile>, s: Text)
    decreases |ts|
  {
    if ts == [] then s == []
    else
      && ts[0] < |d.faces| && ts[0] != d.blank
      && var i := FirstMatch(d.faces[ts[0]], s);
         i < |d.faces[ts[0]]| && SpellsByFirst(d, ts[1..], s[|d.faces[ts[0]][i]|..])
  }

  /** No string starts with two different faces of one tile. */
  predicate OneMatchPerTile(d: FaceTable) {
    forall t, i, j :: 0 <= t < |d.faces| && 0 <= i < j < |d.faces[t]| ==>
      !StartsWith(d.faces[t][i], d.faces[t][j]) && !StartsWith(d.faces[t][j], d.faces[t][i])
  }

  lemma BothMatch(s: Text, f: Text, g: Text)
    requires StartsWith(s, f) && StartsWith(s, g)
    ensures StartsWith(f, g) || StartsWith(g, f)
  {
    if |f| <= |g| {
      assert g[..|f|] == s[..|g|][..|f|] == s[..|f|];
    } else {
      assert f[..|g|] == s[..|f|][..|g|] == s[..|g|];
    }
  }

  /** Typing the longer of two faces of a tile, the shorter one the beginning of it, is not understood. */
  lemma FirstCanMiss()
    ensures var d := FaceTable([[[1], [1, 2]]], 9);
            NonEmptyFaces(d) && Spells(d, [0], [1, 2]) && !SpellsByFirst(d, [0], [1, 2])
  {
    var d := FaceTable([[[1], [1, 2]]], 9);
    var s: Text := [1, 2];
    assert StartsWith(s, d.faces[0][1]) && s[2..] == [] && [0][1..] == [];
    assert Spells(d, [], []);
    assert Spells(d, [0][1..], s[|d.faces[0][1]|..]);
    assert StartsWith(s, d.faces[0][0]) && FirstMatch(d.faces[0], s) == 0;
    assert s[1..] == [2];
  }

  // When nothing is lost by it.

  /** Every spelling is one by first matching faces. */
  ghost predicate NothingLost(d: FaceTable) {
    forall ts, s :: Spells(d, ts, s) ==> SpellsByFirst(d, ts, s)
  }

  /** What the first face of a tile that the string starts with leaves of it. */
  function AfterFirst(fs: seq<Text>, s: Text): Text {
    var i := FirstMatch(fs, s);
    if i < |fs| then s[|fs[i]|..] else s
  }

  /** Whatever tiles go on after a face of a tile also go on after the face the parser takes instead. */
  ghost predicate RestStillSpelled(d: FaceTable) {
    forall t, j, rs, r :: 0 <= t < |d.faces| && t != d.blank && 0 <= j < |d.faces[t]| && Spells(d, rs, r) ==>
      Spells(d, rs, AfterFirst(d.faces[t], d.faces[t][j] + r))
  }

  lemma {:induction false} FirstSpells(d: FaceTable, ts: seq<Tile>, s: Text)
    requires SpellsByFirst(d, ts, s)
    ensures Spells(d, ts, s)
    decreases |ts|
  {
    if ts != [] {
      var i := FirstMatch(d.faces[ts[0]], s);
      FirstSpells(d, ts[1..], s[|d.faces[ts[0]][i]|..]);
    }
  }

  lemma FaceThenRest(d: FaceTable, t: Tile, j: nat, rs: seq<Tile>, r: Text)
    requires t < |d.faces| && t != d.blank && j < |d.faces[t]| && Spells(d, rs, r)
    ensures Spells(d, [t] + rs, d.faces[t][j] + r)
    ensures FirstMatch(d.faces[t], d.faces[t][j] + r) < |d.faces[t]|
  {
    var s := d.faces[t][j] + r;
    assert StartsWith(s, d.faces[t][j]) && s[|d.faces[t][j]|..] == r && ([t] + rs)[1..] == rs;
  }

  lemma {:induction false} StillFound(d: FaceTable, ts: seq<Tile>, s: Text)
    requires RestStillSpelled(d) && Spells(d, ts, s)
    ensures SpellsByFirst(d, ts, s)
    decreases |ts|
  {
    if ts != [] {
      var t := ts[0];
      var j :| 0 <= j < |d.faces[t]| && StartsWith(s, d.faces[t][j]) && Spells(d, ts[1..], s[|d.faces[t][j]|..]);
      var r := s[|d.faces[t][j]|..];
      assert d.faces[t][j] + r == s;
      FaceThenRest(d, t, j, ts[1..], r);
      StillFound(d, ts[1..], AfterFirst(d.faces[t], s));
    }
  }

  /** Taking the first face that matches loses no spelling of any string if and only if, wherever the parser
      takes another face than the one meant, the tiles that were to follow can follow all the same. */
  lemma NothingLostIff(d: FaceTable)
    ensures NothingLost(d) <==> RestStillSpelled(d)
  {
    if RestStillSpelled(d) {
      forall ts, s | Spells(d, ts, s)
        ensures SpellsByFirst(d, ts, s)
      {
        StillFound(d, ts, s);
      }
    }
    if NothingLost(d) {
      forall t, j, rs, r | 0 <= t < |d.faces| && t != d.blank && 0 <= j < |d.faces[t]| && Spells(d, rs, r)
        ensures Spells(d, rs, AfterFirst(d.faces[t], d.faces[t][j] + r))
      {
        FaceThenRest(d, t, j, rs, r);
        assert SpellsByFirst(d, [t] + rs, d.faces[t][j] + r);
        assert ([t] + rs)[1..] == rs;
        FirstSpells(d, rs, AfterFirst(d.faces[t], d.faces[t][j] + r));
      }
    }
  }

  /** The parser takes a face as long as the one meant, wherever the rest can be spelled. */
  ghost predicate SameLength(d: FaceTable) {
    forall t, j, rs, r :: 0 <= t < |d.faces| && t != d.blank && 0 <= j < |d.faces[t]| && Spells(d, rs, r) ==>
      |AfterFirst(d.faces[t], d.faces[t][j] + r)| == |r|
  }

  lemma FaceMatches(fs: seq<Text>, j: nat, r: Text)
    requires j < |fs|
    ensures FirstMatch(fs, fs[j] + r) <= j && StartsWith(fs[j] + r, fs[j])
  {
    assert StartsWith(fs[j] + r, fs[j]);
  }

  /** Faces that do not begin one another are all as long as the one meant, and that is enough. */
  lemma LengthsSuffice(d: FaceTable)
    ensures OneMatchPerTile(d) ==> SameLength(d)
    ensures SameLength(d) ==> NothingLost(d)
  {
    hide Spells;
    forall t, j, r: Text | 0 <= t < |d.faces| && 0 <= j < |d.faces[t]|
      ensures OneMatchPerTile(d) ==> FirstMatch(d.faces[t], d.faces[t][j] + r) == j
      ensures |AfterFirst(d.faces[t], d.faces[t][j] + r)| == |r| ==> AfterFirst(d.faces[t], d.faces[t][j] + r) == r
    {
      var fs, s := d.faces[t], d.faces[t][j] + r;
      FaceMatches(fs, j, r);
      BothMatch(s, fs[FirstMatch(fs, s)], fs[j]);
      assert s[|fs[j]|..] == r;
    }
    NothingLostIff(d);
  }

  /** A face that is the beginning of a later one of the same tile always loses it. */
  lemma ShorterFirstLoses(d: FaceTable, t: Tile, i: nat, j: nat)
    requires t < |d.faces| && t != d.blank && i < j < |d.faces[t]|
    requires StartsWith(d.faces[t][j], d.faces[t][i]) && d.faces[t][j] !in d.faces[t][..i + 1]
    ensures !NothingLost(d)
  {
    var fs := d.faces[t];
    NothingLostIff(d);
    assert Spells(d, [], []);
    assert fs[j] + [] == fs[j];
    var k := FirstMatch(fs, fs[j]);
    assert k <= i;
    assert fs[k] in fs[..i + 1];
    assert fs[k] == fs[j][..|fs[k]|] && fs[j][..|fs[j]|] == fs[j];
    assert !Spells(d, [], AfterFirst(fs, fs[j] + []));
  }

  /** With the longer face first nothing need be lost, though one begins the other. */
  lemma LongerFirst()
    ensures var d := FaceTable([[[1, 2], [1]]], 9);
            !OneMatchPerTile(d) && SameLength(d) && NothingLost(d)
  {
    var d := FaceTable([[[1, 2], [1]]], 9);
    assert StartsWith(d.faces[0][0], d.faces[0][1]);
    forall t, j, rs, r | 0 <= t < |d.faces| && t != d.blank && 0 <= j < |d.faces[t]| && Spells(d, rs, r)
      ensures |AfterFirst(d.faces[t], d.faces[t][j] + r)| == |r|
    {
      var fs, s := d.faces[0], d.faces[0][j] + r;
      if j == 0 {
        FaceMatches(fs, 0, r);
      } else {
        if r != [] {
          StartsWithOne(d, rs, r);
        }
        assert s[0] == 1 && (|s| >= 2 ==> s[1] == 1);
        assert !StartsWith(s, fs[0]) by {
          if |s| >= 2 {
            assert s[..2][1] == 1;
          }
        }
        FaceMatches(fs, 1, r);
      }
    }
    LengthsSuffice(d);
  }

  lemma StartsWithOne(d: FaceTable, rs: seq<Tile>, r: Text)
    requires d == FaceTable([[[1, 2], [1]]], 9) && Spells(d, rs, r) && r != []
    ensures r[0] == 1
  {
    var i :| 0 <= i < |d.faces[rs[0]]| && StartsWith(r, d.faces[rs[0]][i]);
    assert r[..|d.faces[0][i]|][0] == 1;
  }

  /** Nor need the parser take a face as long as the one meant: 1 and then 2, 3 is found as 1, 2 and then 3. */
  lemma AnotherReading()
    ensures var d := FaceTable([[[1, 2], [1]], [[2, 3], [3]]], 9);
            !SameLength(d) && NothingLost(d)
  {
    var d := FaceTable([[[1, 2], [1]], [[2, 3], [3]]], 9);
    assert [1] + [2, 3] == [1, 2, 3];
    FaceMatches(d.faces[0], 0, [3]);
    assert [1, 2] + [3] == [1, 2, 3];
    assert Spells(d, [], []);
    FaceThenRest(d, 1, 0, [], []);
    assert [2, 3] + [] == [2, 3] && [1] + [] == [1];
    assert |AfterFirst(d.faces[0], d.faces[0][1] + [2, 3])| == 1;
    forall t, j, rs, r | 0 <= t < |d.faces| && t != d.blank && 0 <= j < |d.faces[t]| && Spells(d, rs, r)
      ensures Spells(d, rs, AfterFirst(d.faces[t], d.faces[t][j] + r))
    {
      ReadOn(d, t, j, rs, r);
    }
    NothingLostIff(d);
  }

  lemma ReadOn(d: FaceTable, t: nat, j: nat, rs: seq<Tile>, r: Text)
    requires d == FaceTable([[[1, 2], [1]], [[2, 3], [3]]], 9) && t < 2 && j < 2 && Spells(d, rs, r)
    ensures Spells(d, rs, AfterFirst(d.faces[t], d.faces[t][j] + r))
  {
    hide Spells, StartsWith;
    var fs, s := d.faces[t], d.faces[t][j] + r;
    FaceMatches(fs, j, r);
    assert s[|fs[j]|..] == r;
    var i := FirstMatch(fs, s);
    if i != j {
      ThenTwo(d, t, r);
      BeginsWithTwo(d, rs, r);
      var q := r[2..];
      assert r == [2, 3] + q;
      assert s[2..] == [3] + q;
      FaceThenRest(d, 1, 1, rs[1..], q);
      assert [1] + rs[1..] == rs;
    }
  }

  /** Only for the first tile, and only when 2 comes next, does the other face match first. */
  lemma ThenTwo(d: FaceTable, t: nat, r: Text)
    requires d == FaceTable([[[1, 2], [1]], [[2, 3], [3]]], 9) && t < 2
    requires StartsWith(d.faces[t][1] + r, d.faces[t][0])
    ensures t == 0 && r != [] && r[0] == 2
  {
    var s := d.faces[t][1] + r;
    assert s[..2][0] == s[0] && s[..2][1] == s[1];
  }

  lemma BeginsWithTwo(d: FaceTable, rs: seq<Tile>, r: Text)
    requires d == FaceTable([[[1, 2], [1]], [[2, 3], [3]]], 9) && Spells(d, rs, r) && r != [] && r[0] == 2
    ensures rs != [] && rs[0] == 1 && |r| >= 2 && r[..2] == [2, 3] && Spells(d, rs[1..], r[2..])
  {
    var k :| 0 <= k < |d.faces[rs[0]]| && StartsWith(r, d.faces[rs[0]][k]) && Spells(d, rs[1..], r[|d.faces[rs[0]][k]|..]);
    assert r[..|d.faces[rs[0]][k]|][0] == 2;
  }

  // When nothing is lost of one string.

  /** All the tile sequences that spell the string. */
  function Spellings(d: FaceTable, s: Text): (all: set<seq<Tile>>)
    requires NonEmptyFaces(d)
    decreases |s|
  {
    if s == [] then {[]}
    else
      set t, j, rs | 0 <= t < |d.faces| && t != d.blank && 0 <= j < |d.faces[t]| && StartsWith(s, d.faces[t][j])
                     && rs in Spellings(d, s[|d.faces[t][j]|..]) :: [t] + rs
  }

  lemma {:induction false} SpellingsExact(d: FaceTable, s: Text, ts: seq<Tile>)
    requires NonEmptyFaces(d)
    ensures ts in Spellings(d, s) <==> Spells(d, ts, s)
    decreases |s|
  {
    if s != [] && ts != [] && ts[0] < |d.faces| && ts[0] != d.blank {
      var t, rs := ts[0], ts[1..];
      assert [t] + rs == ts && forall rs' :: [t] + rs' == ts ==> rs' == rs by {
        assert forall rs': seq<Tile> :: ([t] + rs')[1..] == rs';
      }
      forall j | 0 <= j < |d.faces[t]| && StartsWith(s, d.faces[t][j])
        ensures rs in Spellings(d, s[|d.faces[t][j]|..]) <==> Spells(d, rs, s[|d.faces[t][j]|..])
      {
        SpellingsExact(d, s[|d.faces[t][j]|..], rs);
      }
    }
  }

  /** Wherever the parser gets to in the string, whatever can follow another face of a tile that stands there
      can follow the one that matches first. */
  predicate NoneLostIn(d: FaceTable, s: Text)
    requires NonEmptyFaces(d)
    decreases |s|
  {
    forall t :: 0 <= t < |d.faces| && t != d.blank && FirstMatch(d.faces[t], s) < |d.faces[t]| ==>
      FirstOfTile(d, s, t) && NoneLostIn(d, AfterFirst(d.faces[t], s))
  }

  predicate FirstOfTile(d: FaceTable, s: Text, t: Tile)
    requires NonEmptyFaces(d) && t < |d.faces|
  {
    forall j :: 0 <= j < |d.faces[t]| && StartsWith(s, d.faces[t][j]) ==>
      Spellings(d, s[|d.faces[t][j]|..]) <= Spellings(d, AfterFirst(d.faces[t], s))
  }

  ghost predicate AllByFirst(d: FaceTable, s: Text) {
    forall ts :: Spells(d, ts, s) ==> SpellsByFirst(d, ts, s)
  }

  /** Of one string nothing is lost if and only if that is so, which takes only the faces and the string to find
      out. */
  lemma {:induction false} NoneLostInIff(d: FaceTable, s: Text)
    requires NonEmptyFaces(d)
    ensures NoneLostIn(d, s) <==> AllByFirst(d, s)
    decreases |s|
  {
    hide Spellings, Spells, SpellsByFirst, StartsWith, FirstMatch, AfterFirst, FirstOfTile, AllByFirst;
    forall t | 0 <= t < |d.faces| && t != d.blank && FirstMatch(d.faces[t], s) < |d.faces[t]|
      ensures NoneLostIn(d, AfterFirst(d.faces[t], s)) <==> AllByFirst(d, AfterFirst(d.faces[t], s))
      ensures AllByFirst(d, s) ==> FirstOfTile(d, s, t) && AllByFirst(d, AfterFirst(d.faces[t], s))
    {
      ShorterRest(d, s, t);
      NoneLostInIff(d, AfterFirst(d.faces[t], s));
      if AllByFirst(d, s) {
        LostNowhere(d, s, t);
      }
    }
    if NoneLostIn(d, s) {
      FoundHere(d, s);
    }
  }

  lemma ShorterRest(d: FaceTable, s: Text, t: Tile)
    requires NonEmptyFaces(d) && t < |d.faces| && FirstMatch(d.faces[t], s) < |d.faces[t]|
    ensures |AfterFirst(d.faces[t], s)| < |s|
  {
  }

  lemma FoundHere(d: FaceTable, s: Text)
    requires NonEmptyFaces(d) && NoneLostIn(d, s)
    requires forall t :: 0 <= t < |d.faces| && t != d.blank && FirstMatch(d.faces[t], s) < |d.faces[t]| ==>
      AllByFirst(d, AfterFirst(d.faces[t], s))
    ensures AllByFirst(d, s)
  {
    hide Spellings;
    forall ts | Spells(d, ts, s) && ts != []
      ensures SpellsByFirst(d, ts, s)
    {
      var t, rs := ts[0], ts[1..];
      var j :| 0 <= j < |d.faces[t]| && StartsWith(s, d.faces[t][j]) && Spells(d, rs, s[|d.faces[t][j]|..]);
      SpellingsExact(d, s[|d.faces[t][j]|..], rs);
      SpellingsExact(d, AfterFirst(d.faces[t], s), rs);
      assert FirstOfTile(d, s, t);
    }
  }

  lemma LostNowhere(d: FaceTable, s: Text, t: Tile)
    requires NonEmptyFaces(d) && t < |d.faces| && t != d.blank && FirstMatch(d.faces[t], s) < |d.faces[t]|
    requires AllByFirst(d, s)
    ensures FirstOfTile(d, s, t) && AllByFirst(d, AfterFirst(d.faces[t], s))
  {
    hide Spellings, FirstMatch;
    var rest := AfterFirst(d.faces[t], s);
    forall j, rs | 0 <= j < |d.faces[t]| && StartsWith(s, d.faces[t][j]) && Spells(d, rs, s[|d.faces[t][j]|..])
      ensures SpellsByFirst(d, rs, rest) && Spells(d, rs, rest)
    {
      assert d.faces[t][j] + s[|d.faces[t][j]|..] == s;
      FaceThenRest(d, t, j, rs, s[|d.faces[t][j]|..]);
      assert SpellsByFirst(d, [t] + rs, s) && ([t] + rs)[1..] == rs;
      FirstSpells(d, rs, rest);
    }
    forall j, rs | 0 <= j < |d.faces[t]| && StartsWith(s, d.faces[t][j]) && rs in Spellings(d, s[|d.faces[t][j]|..])
      ensures rs in Spellings(d, rest)
    {
      SpellingsExact(d, s[|d.faces[t][j]|..], rs);
      SpellingsExact(d, rest, rs);
    }
  }

  // The parser.

  /** The callback wants every result, or says to stop at this call of it, counted from 0. */
  datatype Callback = Always | StopsAt(call: nat)

  predicate GoesOn(c: Callback, nCalls: nat) {
    c.Always? || nCalls <= c.call
  }

  /** As much of a list as is reported. */
  function Cut<T>(full: seq<T>, c: Callback): (r: seq<T>)
    ensures r <= full
  {
    if GoesOn(c, |full|) then full else full[..c.call + 1]
  }

  /** The tiles spell the string by first matching faces, or there is room for no more. */
  predicate SpellsWithin(d: FaceTable, ts: seq<Tile>, s: Text, room: nat)
    decreases room
  {
    if room == 0 || s == [] || ts == [] then ts == [] && (room == 0 || s == [])
    else
      && ts[0] < |d.faces| && ts[0] != d.blank
      && var i := FirstMatch(d.faces[ts[0]], s);
         i < |d.faces[ts[0]]| && SpellsWithin(d, ts[1..], s[|d.faces[ts[0]][i]|..], room - 1)
  }

  /** There is room enough for as many tiles as the string is long. */
  lemma {:induction false} WithinIsByFirst(d: FaceTable, ts: seq<Tile>, s: Text, room: nat)
    requires NonEmptyFaces(d) && |s| <= room
    ensures SpellsWithin(d, ts, s, room) <==> SpellsByFirst(d, ts, s)
    decreases room
  {
    if s == [] {
      EmptySpelled(d, ts);
    } else if ts != [] && ts[0] < |d.faces| && FirstMatch(d.faces[ts[0]], s) < |d.faces[ts[0]]| {
      WithinIsByFirst(d, ts[1..], s[|d.faces[ts[0]][FirstMatch(d.faces[ts[0]], s)]|..], room - 1);
    }
  }

  lemma EmptySpelled(d: FaceTable, ts: seq<Tile>)
    requires NonEmptyFaces(d)
    ensures SpellsByFirst(d, ts, []) <==> ts == []
  {
    if ts != [] && ts[0] < |d.faces| {
      assert forall i :: 0 <= i < |d.faces[ts[0]]| ==> !StartsWith([], d.faces[ts[0]][i]);
    }
  }

  /** What a callback that always goes on is called with, in order, once `got` has been matched. */
  function Reported(d: FaceTable, got: seq<Tile>, s: Text, nTiles: nat): seq<seq<Tile>>
    requires NonEmptyFaces(d) && |got| <= nTiles
    decreases |s|, |d.faces| + 1
  {
    if |got| == nTiles || s == [] then [got] else ReportedFrom(d, got, s, nTiles, 0)
  }

  function ReportedFrom(d: FaceTable, got: seq<Tile>, s: Text, nTiles: nat, t: nat): seq<seq<Tile>>
    requires NonEmptyFaces(d) && |got| < nTiles && t <= |d.faces|
    decreases |s|, |d.faces| - t
  {
    if t == |d.faces| then [] else ReportedWith(d, got, s, nTiles, t) + ReportedFrom(d, got, s, nTiles, t + 1)
  }

  function ReportedWith(d: FaceTable, got: seq<Tile>, s: Text, nTiles: nat, t: nat): seq<seq<Tile>>
    requires NonEmptyFaces(d) && |got| < nTiles && t < |d.faces|
    decreases |s|, 0
  {
    if t == d.blank || FirstMatch(d.faces[t], s) == |d.faces[t]| then []
    else Reported(d, got + [t], AfterFirst(d.faces[t], s), nTiles)
  }

  method TilesForStringImpl(d: FaceTable, str: Text, tiles: seq<Tile>, nTiles: nat, proc: Callback, found: seq<seq<Tile>>)
    returns (goOn: bool, all: seq<seq<Tile>>)
    requires NonEmptyFaces(d) && |tiles| <= nTiles && GoesOn(proc, |found|)
    ensures all == Cut(found + Reported(d, tiles, str, nTiles), proc)
    ensures goOn == GoesOn(proc, |found + Reported(d, tiles, str, nTiles)|)
    decreases |str|
  {
    hide FirstMatch, StartsWith, ReportedFrom, ReportedWith, Cut;
    if |tiles| == nTiles || str == [] {
      all := found + [tiles];
      JustOne(found, tiles, proc);
      goOn := GoesOn(proc, |all|);
    } else {
      all, goOn := found, true;
      CutAll(found, proc);
      ghost var full := found;
      var tile := 0;
      while goOn && tile < |d.faces|
        invariant tile <= |d.faces|
        invariant full + ReportedFrom(d, tiles, str, nTiles, tile) == found + Reported(d, tiles, str, nTiles)
        invariant all == Cut(full, proc) && goOn == GoesOn(proc, |full|)
        decreases |d.faces| - tile
      {
        ghost var more := ReportedWith(d, tiles, str, nTiles, tile);
        NextTile(d, tiles, str, nTiles, tile, full);
        CutAll(full, proc);
        if tile != d.blank {
          var i := NextMatch(d.faces[tile], str);
          if i < |d.faces[tile]| {
            FirstFits(d.faces[tile], str);
            var faceLen := |d.faces[tile][i]|;
            goOn, all := TilesForStringImpl(d, str[faceLen..], tiles + [tile], nTiles, proc, all);
          }
        }
        full := full + more;
        tile := tile + 1;
      }
      AfterLast(d, tiles, str, nTiles);
      CutMore(full, ReportedFrom(d, tiles, str, nTiles, tile), proc);
    }
  }

  lemma JustOne(found: seq<seq<Tile>>, tiles: seq<Tile>, c: Callback)
    requires GoesOn(c, |found|)
    ensures Cut(found + [tiles], c) == found + [tiles]
  {
  }

  lemma CutAll(full: seq<seq<Tile>>, c: Callback)
    ensures GoesOn(c, |full|) ==> Cut(full, c) == full
    ensures full + [] == full
  {
  }

  lemma AfterLast(d: FaceTable, got: seq<Tile>, s: Text, nTiles: nat)
    requires NonEmptyFaces(d) && |got| < nTiles
    ensures ReportedFrom(d, got, s, nTiles, |d.faces|) == []
  {
  }

  lemma NextTile(d: FaceTable, got: seq<Tile>, s: Text, nTiles: nat, t: nat, full: seq<seq<Tile>>)
    requires NonEmptyFaces(d) && |got| < nTiles && t < |d.faces|
    ensures var more := ReportedWith(d, got, s, nTiles, t);
            && full + more + ReportedFrom(d, got, s, nTiles, t + 1) == full + ReportedFrom(d, got, s, nTiles, t)
            && more == if t == d.blank || FirstMatch(d.faces[t], s) == |d.faces[t]| then []
                       else Reported(d, got + [t], s[|d.faces[t][FirstMatch(d.faces[t], s)]|..], nTiles)
  {
    hide Reported;
  }

  /** Once the callback has said to stop, what would have come after makes no difference. */
  lemma CutMore<T>(full: seq<T>, more: seq<T>, c: Callback)
    ensures !GoesOn(c, |full|) ==> Cut(full + more, c) == Cut(full, c) && !GoesOn(c, |full + more|)
    ensures more == [] ==> full + more == full
  {
  }

  lemma FirstFits(fs: seq<Text>, s: Text)
    requires FirstMatch(fs, s) < |fs|
    ensures |fs[FirstMatch(fs, s)]| <= |s|
  {
  }

  /** The loop over a tile's faces: it stops at the first that matches. */
  method NextMatch(fs: seq<Text>, s: Text) returns (i: nat)
    ensures i == FirstMatch(fs, s)
  {
    i := 0;
    while i < |fs|
      invariant 0 <= i <= |fs|
      invariant forall j :: 0 <= j < i ==> !StartsWith(s, fs[j])
    {
      if StartsWith(s, fs[i]) {
        return;
      }
      i := i + 1;
    }
  }

  // What is reported.

  predicate NoRepeats(found: seq<seq<Tile>>) {
    forall i, j :: 0 <= i < j < |found| ==> found[i] != found[j]
  }

  /** It begins with `got`, and goes on to spell the string. */
  predicate GoesOnFrom(d: FaceTable, got: seq<Tile>, s: Text, nTiles: nat, w: seq<Tile>) {
    |got| <= |w| && |got| <= nTiles && w[..|got|] == got && SpellsWithin(d, w[|got|..], s, nTiles - |got|)
  }

  /** What is reported is exactly the tile sequences that begin with `got` and spell the rest of the string,
      each once. */
  lemma {:induction false} ReportedExact(d: FaceTable, got: seq<Tile>, s: Text, nTiles: nat)
    requires NonEmptyFaces(d) && |got| <= nTiles
    ensures NoRepeats(Reported(d, got, s, nTiles))
    ensures forall w :: w in Reported(d, got, s, nTiles) <==> GoesOnFrom(d, got, s, nTiles, w)
    decreases |s|, |d.faces| + 1
  {
    if |got| == nTiles || s == [] {
      assert got[|got|..] == [] && got[..|got|] == got;
      forall w: seq<Tile> | |got| <= |w| && w[..|got|] == got && w[|got|..] == []
        ensures w == got
      {
      }
    } else {
      FromExact(d, got, s, nTiles, 0);
      forall w | GoesOnFrom(d, got, s, nTiles, w)
        ensures |w| > |got|
      {
        assert w[|got|..] != [];
      }
    }
  }

  lemma {:induction false} FromExact(d: FaceTable, got: seq<Tile>, s: Text, nTiles: nat, t: nat)
    requires NonEmptyFaces(d) && |got| < nTiles && t <= |d.faces| && s != []
    ensures NoRepeats(ReportedFrom(d, got, s, nTiles, t))
    ensures forall w :: w in ReportedFrom(d, got, s, nTiles, t) <==>
                        GoesOnFrom(d, got, s, nTiles, w) && |got| < |w| && t <= w[|got|]
    decreases |s|, |d.faces| - t
  {
    hide FirstMatch, StartsWith, Reported, SpellsWithin, NoRepeats;
    if t == |d.faces| {
      NoneBeyond(d, got, s, nTiles);
    } else {
      WithExact(d, got, s, nTiles, t);
      FromExact(d, got, s, nTiles, t + 1);
      JoinNoRepeats(ReportedWith(d, got, s, nTiles, t), ReportedFrom(d, got, s, nTiles, t + 1));
    }
  }

  lemma NoneBeyond(d: FaceTable, got: seq<Tile>, s: Text, nTiles: nat)
    requires |got| < nTiles && s != []
    ensures forall w :: GoesOnFrom(d, got, s, nTiles, w) && |got| < |w| ==> w[|got|] < |d.faces|
    ensures NoRepeats([])
  {
  }

  lemma {:induction false} WithExact(d: FaceTable, got: seq<Tile>, s: Text, nTiles: nat, t: nat)
    requires NonEmptyFaces(d) && |got| < nTiles && t < |d.faces| && s != []
    ensures NoRepeats(ReportedWith(d, got, s, nTiles, t))
    ensures forall w :: w in ReportedWith(d, got, s, nTiles, t) <==>
                        GoesOnFrom(d, got, s, nTiles, w) && |got| < |w| && t == w[|got|]
    decreases |s|, 0
  {
    hide StartsWith, Reported;
    if t != d.blank && FirstMatch(d.faces[t], s) < |d.faces[t]| {
      ShorterRest(d, s, t);
      ReportedExact(d, got + [t], AfterFirst(d.faces[t], s), nTiles);
      forall w
        ensures GoesOnFrom(d, got + [t], AfterFirst(d.faces[t], s), nTiles, w) <==>
                GoesOnFrom(d, got, s, nTiles, w) && |got| < |w| && t == w[|got|]
      {
        GoesOnWith(d, got, s, nTiles, t, w);
      }
    }
  }

  /** At the first tile in which they differ the one has the lesser. */
  ghost predicate Before(u: seq<Tile>, v: seq<Tile>) {
    exists k :: 0 <= k < |u| && k < |v| && u[..k] == v[..k] && u[k] < v[k]
  }

  ghost predicate InTileOrder(found: seq<seq<Tile>>) {
    forall i, j :: 0 <= i < j < |found| ==> Before(found[i], found[j])
  }

  /** The list is in the order of the tiles, so that a callback that stops early has seen the first of it. */
  lemma {:induction false} ReportedInOrder(d: FaceTable, got: seq<Tile>, s: Text, nTiles: nat)
    requires NonEmptyFaces(d) && |got| <= nTiles
    ensures InTileOrder(Reported(d, got, s, nTiles))
    decreases |s|, |d.faces| + 1
  {
    if |got| < nTiles && s != [] {
      FromInOrder(d, got, s, nTiles, 0);
    }
  }

  lemma {:induction false} FromInOrder(d: FaceTable, got: seq<Tile>, s: Text, nTiles: nat, t: nat)
    requires NonEmptyFaces(d) && |got| < nTiles && t <= |d.faces| && s != []
    ensures InTileOrder(ReportedFrom(d, got, s, nTiles, t))
    decreases |s|, |d.faces| - t
  {
    hide FirstMatch, StartsWith, Reported, SpellsWithin, Before, ReportedWith;
    if t < |d.faces| {
      var first, rest := ReportedWith(d, got, s, nTiles, t), ReportedFrom(d, got, s, nTiles, t + 1);
      WithInOrder(d, got, s, nTiles, t);
      FromInOrder(d, got, s, nTiles, t + 1);
      WithExact(d, got, s, nTiles, t);
      FromExact(d, got, s, nTiles, t + 1);
      forall u, v | u in first && v in rest
        ensures Before(u, v)
      {
        LesserTile(d, got, s, nTiles, t, u, v);
      }
      JoinInOrder(first, rest);
    }
  }

  lemma LesserTile(d: FaceTable, got: seq<Tile>, s: Text, nTiles: nat, t: nat, u: seq<Tile>, v: seq<Tile>)
    requires GoesOnFrom(d, got, s, nTiles, u) && |got| < |u| && u[|got|] == t
    requires GoesOnFrom(d, got, s, nTiles, v) && |got| < |v| && t < v[|got|]
    ensures Before(u, v)
  {
    assert u[..|got|] == v[..|got|];
  }

  lemma JoinInOrder(a: seq<seq<Tile>>, b: seq<seq<Tile>>)
    requires InTileOrder(a) && InTileOrder(b) && forall u, v :: u in a && v in b ==> Before(u, v)
    ensures InTileOrder(a + b)
  {
    hide Before;
  }

  lemma {:induction false} WithInOrder(d: FaceTable, got: seq<Tile>, s: Text, nTiles: nat, t: nat)
    requires NonEmptyFaces(d) && |got| < nTiles && t < |d.faces| && s != []
    ensures InTileOrder(ReportedWith(d, got, s, nTiles, t))
    decreases |s|, 0
  {
    hide StartsWith, Reported, Before;
    if t != d.blank && FirstMatch(d.faces[t], s) < |d.faces[t]| {
      ShorterRest(d, s, t);
      ReportedInOrder(d, got + [t], AfterFirst(d.faces[t], s), nTiles);
    }
  }

  /** To go on with this tile is to begin with it added and spell what its first match leaves. */
  lemma GoesOnWith(d: FaceTable, got: seq<Tile>, s: Text, nTiles: nat, t: nat, w: seq<Tile>)
    requires |got| < nTiles && s != [] && t < |d.faces| && t != d.blank && FirstMatch(d.faces[t], s) < |d.faces[t]|
    ensures GoesOnFrom(d, got + [t], AfterFirst(d.faces[t], s), nTiles, w) <==>
            GoesOnFrom(d, got, s, nTiles, w) && |got| < |w| && t == w[|got|]
  {
    hide FirstMatch, StartsWith;
    if |got| < |w| {
      assert w[..|got| + 1] == w[..|got|] + [w[|got|]];
      assert w[|got|..][1..] == w[|got| + 1..] && w[|got|..][0] == w[|got|];
      if w[..|got| + 1] == got + [t] {
        assert w[..|got|] == w[..|got| + 1][..|got|] == got;
        assert w[|got|] == w[..|got| + 1][|got|] == t;
      }
    }
  }

  lemma JoinNoRepeats(a: seq<seq<Tile>>, b: seq<seq<Tile>>)
    requires NoRepeats(a) && NoRepeats(b) && forall w :: w in a ==> w !in b
    ensures NoRepeats(a + b)
  {
    forall i, j | 0 <= i < j < |a + b|
      ensures (a + b)[i] != (a + b)[j]
    {
      if i < |a| <= j {
        assert a[i] in a && b[j - |a|] in b;
      }
    }
  }

  /** The whole list for a string: each spelling by first matching faces once, or, of a string too long, each
      way to begin it with as many tiles as there is room for. */
  lemma AllReported(d: FaceTable, str: Text)
    requires NonEmptyFaces(d)
    ensures NoRepeats(Reported(d, [], str, MAX_TILES))
    ensures forall ts :: ts in Reported(d, [], str, MAX_TILES) <==> SpellsWithin(d, ts, str, MAX_TILES)
    ensures |str| <= MAX_TILES ==> forall ts :: ts in Reported(d, [], str, MAX_TILES) <==> SpellsByFirst(d, ts, str)
  {
    hide Reported, SpellsWithin, SpellsByFirst, NoRepeats;
    ReportedExact(d, [], str, MAX_TILES);
    forall ts: seq<Tile>
      ensures GoesOnFrom(d, [], str, MAX_TILES, ts) <==> SpellsWithin(d, ts, str, MAX_TILES)
      ensures |str| <= MAX_TILES ==> (SpellsWithin(d, ts, str, MAX_TILES) <==> SpellsByFirst(d, ts, str))
    {
      assert ts[0..] == ts && ts[..0] == [];
      if |str| <= MAX_TILES {
        WithinIsByFirst(d, ts, str, MAX_TILES);
      }
    }
  }

  lemma CutNoRepeats(full: seq<seq<Tile>>, c: Callback)
    requires NoRepeats(full)
    ensures NoRepeats(Cut(full, c))
  {
  }

  /** Reports the tile sequences that spell the string by first matching faces, each once, up to the one at
      which the callback says to stop. If it never does, every spelling is reported if and only if nothing is
      lost of the string. */
  method TilesForString(d: FaceTable, str: Text, proc: Callback) returns (found: seq<seq<Tile>>)
    requires NonEmptyFaces(d)
    ensures NoRepeats(found) && InTileOrder(found) && found == Cut(Reported(d, [], str, MAX_TILES), proc)
    ensures forall ts :: ts in found ==> SpellsWithin(d, ts, str, MAX_TILES)
    ensures GoesOn(proc, |found|) ==> forall ts :: SpellsWithin(d, ts, str, MAX_TILES) ==> ts in found
    ensures |str| <= MAX_TILES ==> forall ts :: SpellsWithin(d, ts, str, MAX_TILES) <==> SpellsByFirst(d, ts, str)
    ensures GoesOn(proc, |found|) && |str| <= MAX_TILES ==>
              (NoneLostIn(d, str) <==> forall ts :: ts in found <==> Spells(d, ts, str))
    ensures NothingLost(d) ==> NoneLostIn(d, str)
  {
    hide NoneLostIn, SpellsByFirst, SpellsWithin, Spells, Reported, NoRepeats, Before, MAX_TILES;
    var _, all := TilesForStringImpl(d, str, [], MAX_TILES, proc, []);
    found := all;
    assert [] + Reported(d, [], str, MAX_TILES) == Reported(d, [], str, MAX_TILES);
    AllReported(d, str);
    CutNoRepeats(Reported(d, [], str, MAX_TILES), proc);
    ReportedInOrder(d, [], str, MAX_TILES);
    NoneLostInIff(d, str);
    forall ts | SpellsByFirst(d, ts, str)
      ensures Spells(d, ts, str)
    {
      FirstSpells(d, ts, str);
    }
  }

  // And back.

  /** The string shown for tiles: the main face of each. */
  function Shown(d: FaceTable, ts: seq<Tile>): Text
    requires forall k :: 0 <= k < |ts| ==> ts[k] < |d.faces| && d.faces[ts[k]] != []
  {
    if ts == [] then [] else d.faces[ts[0]][0] + Shown(d, ts[1..])
  }

  /** The main face of a tile comes first of its faces, so the parser always takes it. */
  lemma {:induction false} ShownSpells(d: FaceTable, ts: seq<Tile>)
    requires forall k :: 0 <= k < |ts| ==> ts[k] < |d.faces| && d.faces[ts[k]] != [] && ts[k] != d.blank
    ensures SpellsByFirst(d, ts, Shown(d, ts))
    decreases |ts|
  {
    if ts != [] {
      var f := d.faces[ts[0]][0];
      ShownSpells(d, ts[1..]);
      assert StartsWith(Shown(d, ts), f) && Shown(d, ts)[|f|..] == Shown(d, ts[1..]);
      assert FirstMatch(d.faces[ts[0]], Shown(d, ts)) == 0;
    }
  }

  /** Writes the main face of each tile, in a buffer that has room for them all. */
  method TilesToString(d: FaceTable, ts: seq<Tile>) returns (buf: Text)
    requires forall k :: 0 <= k < |ts| ==> ts[k] < |d.faces| && d.faces[ts[k]] != []
    ensures buf == Shown(d, ts)
  {
    buf := [];
    var ii := 0;
    assert ts[0..] == ts;
    while ii < |ts|
      invariant 0 <= ii <= |ts|
      invariant buf + Shown(d, ts[ii..]) == Shown(d, ts)
    {
      assert ts[ii..][1..] == ts[ii + 1..] && ts[ii..][0] == ts[ii];
      assert buf + (d.faces[ts[ii]][0] + Shown(d, ts[ii + 1..])) == buf + d.faces[ts[ii]][0] + Shown(d, ts[ii + 1..]);
      buf := buf + d.faces[ts[ii]][0];
      ii := ii + 1;
    }
    assert ts[|ts|..] == [] && buf + [] == buf;
  }

  /** Tiles without a blank, shown as a string and parsed again, are among what is found. */
  method ShowAndParse(d: FaceTable, ts: seq<Tile>) returns (found: seq<seq<Tile>>)
    requires NonEmptyFaces(d)
    requires forall k :: 0 <= k < |ts| ==> ts[k] < |d.faces| && d.faces[ts[k]] != [] && ts[k] != d.blank
    requires |Shown(d, ts)| <= MAX_TILES
    ensures ts in found
  {
    var str := TilesToString(d, ts);
    ShownSpells(d, ts);
    found := TilesForString(d, str, Always);
  }
}
