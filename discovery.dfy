/** Discovery of screenshot files: the name pattern `Screenshot*.png` as a string
    predicate, and the walk over the three fixed locations below the home directory. */
module Discovery {
  import opened Paths

  const Prefix: string := "Screenshot"
  const Extension: string := ".png"

  /** The glob `Screenshot*.png` on one file name: it starts with "Screenshot"
      and ends with ".png", case-sensitively. */
  predicate MatchesGlob(name: string) {
    |name| >= |Prefix| && name[..|Prefix|] == Prefix &&
    |name| >= |Extension| && name[|name| - |Extension|..] == Extension
  }

  /** name is "Screenshot" + x + ".png". */
  ghost predicate IsInstance(name: string, x: string) {
    name == Prefix + x + Extension
  }

  /** The prefix and the extension cannot overlap: no character of "Screenshot"
      from index 6 on is a '.', so a matching name has at least 14 characters. */
  lemma NoOverlap(name: string)
    requires MatchesGlob(name)
    ensures |name| >= |Prefix| + |Extension|
  {
    var k := |name| - |Extension|;
    assert name[k] == Extension[0] == '.';
    assert k >= 6;
    assert forall j :: 6 <= j < |Prefix| ==> Prefix[j] != '.';
    assert forall j :: 0 <= j < |Prefix| ==> name[j] == name[..|Prefix|][j];
  }

  /** A name matches the glob iff it is "Screenshot" + X + ".png" for some string X. */
  lemma GlobIffPattern(name: string)
    ensures MatchesGlob(name) <==> exists x :: IsInstance(name, x)
  {
    if MatchesGlob(name) {
      NoOverlap(name);
      var x := name[|Prefix|..|name| - |Extension|];
      assert name == name[..|Prefix|] + x + name[|name| - |Extension|..];
      assert IsInstance(name, x);
    }
    if exists x :: IsInstance(name, x) {
      var x :| IsInstance(name, x);
      assert name[..|Prefix|] == Prefix;
      assert name[|name| - |Extension|..] == Extension;
    }
  }

  /** Every name the glob selects has the suffix ".png". */
  lemma MatchSuffix(name: string)
    requires MatchesGlob(name)
    ensures Suffix(name) == Extension
  {
    NoOverlap(name);
    SuffixOfEnding(name, Extension);
  }

  /** The searched locations, in order: Desktop, Downloads, Pictures below home. */
  function Locations(home: Dir): (locs: seq<Dir>)
    ensures |locs| == 3
    ensures forall i, j :: 0 <= i < j < |locs| ==> locs[i] != locs[j]
  {
    [home + "/Desktop", home + "/Downloads", home + "/Pictures"]
  }

  /** A directory listing: a directory exists iff it is a key, and its value holds
      the names of its entries in the order the operating system returns them. */
  type Listing = map<Dir, seq<string>>

  /** The paths in dir whose names match the glob. */
  function Matches(dir: Dir, names: seq<string>): (r: seq<Path>)
    ensures |r| <= |names|
    ensures forall p :: p in r <==> p.dir == dir && p.name in names && MatchesGlob(p.name)
  {
    if names == [] then []
    else
      var rest := Matches(dir, names[..|names| - 1]);
      var last := names[|names| - 1];
      assert names == names[..|names| - 1] + [last];
      if MatchesGlob(last) then rest + [Path(dir, last)] else rest
  }

  /** What one location contributes: its matches when it exists, nothing when it does not. */
  function Found(listing: Listing, loc: Dir): (r: seq<Path>)
    ensures loc !in listing ==> r == []
    ensures forall p :: p in r <==> loc in listing && p.dir == loc && p.name in listing[loc] && MatchesGlob(p.name)
  {
    if loc in listing then Matches(loc, listing[loc]) else []
  }

  /** The matches of the given locations, concatenated in location order. */
  function Discovered(listing: Listing, locs: seq<Dir>): (r: seq<Path>)
    ensures forall p :: p in r <==> p.dir in locs && p.dir in listing && p.name in listing[p.dir] && MatchesGlob(p.name)
  {
    if locs == [] then []
    else
      var prev := locs[..|locs| - 1];
      assert locs == prev + [locs[|locs| - 1]];
      Discovered(listing, prev) + Found(listing, locs[|locs| - 1])
  }

  /** find_screenshots: the screenshots of Desktop, then Downloads, then Pictures;
      a location that does not exist is skipped without error. */
  method FindScreenshots(home: Dir, listing: Listing) returns (files: seq<Path>)
    ensures var locs := Locations(home);
      files == Found(listing, locs[0]) + Found(listing, locs[1]) + Found(listing, locs[2])
    ensures forall p :: p in files <==>
      p.dir in Locations(home) && p.dir in listing && p.name in listing[p.dir] && MatchesGlob(p.name)
    ensures forall p :: p in files ==> Suffix(p.name) == Extension
  {
    var locations := Locations(home);
    files := [];
    for i := 0 to |locations|
      invariant files == Discovered(listing, locations[..i])
    {
      assert locations[..i + 1][..i] == locations[..i];
      files := files + Found(listing, locations[i]);
    }
    assert locations[..3] == locations;
    assert locations[..2][..1] == locations[..1];
    assert locations[..1][..0] == [];
    assert Discovered(listing, locations[..1]) == Found(listing, locations[0]);
    assert Discovered(listing, locations[..2]) == Found(listing, locations[0]) + Found(listing, locations[1]);
    forall p | p in files
      ensures Suffix(p.name) == Extension
    {
      MatchSuffix(p.name);
    }
  }
}
