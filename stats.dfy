/** get_size_ext: the total size and the set of suffixes of a list of files,
    read from the file store when the summary is printed. */
module Stats {
  import opened Paths
  import Discovery

  /** What the summary reports: the total size in bytes and the distinct suffixes. */
  datatype Totals = Totals(total: nat, exts: set<string>)

  /** The aggregation either succeeds or stops at the first file whose
      metadata cannot be read (it is no longer in the store). */
  datatype SizeResult = Ok(totals: Totals) | Missing(path: Path)

  /** Every listed path is in the store. */
  predicate AllPresent(files: map<Path, Entry>, list: seq<Path>) {
    forall p :: p in list ==> p in files
  }

  /** The sum of the sizes of the listed files, each counted once per occurrence. */
  function TotalSize(files: map<Path, Entry>, list: seq<Path>): (r: nat)
    requires AllPresent(files, list)
    ensures list == [] ==> r == 0
    ensures forall p :: p in list ==> files[p].size <= r
  {
    if list == [] then 0 else files[list[0]].size + TotalSize(files, list[1..])
  }

  /** The set of suffixes of the listed files. */
  function Extensions(list: seq<Path>): set<string> {
    set p | p in list :: Suffix(p.name)
  }

  /** The first listed path that is not in the store, if any. */
  function FirstMissing(files: map<Path, Entry>, list: seq<Path>): (r: Option<Path>)
    ensures r.None? <==> AllPresent(files, list)
    ensures r.Some? ==>
      (exists i :: 0 <= i < |list| && list[i] == r.value && r.value !in files && AllPresent(files, list[..i]))
  {
    if list == [] then None
    else if list[0] !in files then
      assert list[..0] == [];
      Some(list[0])
    else
      var r := FirstMissing(files, list[1..]);
      if r.Some? then
        var i :| 0 <= i < |list[1..]| && list[1..][i] == r.value && r.value !in files && AllPresent(files, list[1..][..i]);
        assert list[..i + 1] == [list[0]] + list[1..][..i];
        r
      else
        assert list == [list[0]] + list[1..];
        r
  }

  /** get_size_ext: sums the sizes and collects the suffixes; reading the size
      of a file that is no longer in the store fails at the first such file. */
  function SizeExt(files: map<Path, Entry>, list: seq<Path>): (r: SizeResult)
    ensures r.Ok? <==> AllPresent(files, list)
    ensures r.Missing? ==> r.path in list && r.path !in files
    ensures list == [] ==> r == Ok(Totals(0, {}))
  {
    match FirstMissing(files, list)
    case Some(p) => Missing(p)
    case None => Ok(Totals(TotalSize(files, list), Extensions(list)))
  }

  /** The total of a concatenation is the sum of the totals. */
  lemma {:induction false} TotalAppend(files: map<Path, Entry>, a: seq<Path>, b: seq<Path>)
    requires AllPresent(files, a) && AllPresent(files, b)
    ensures AllPresent(files, a + b)
    ensures TotalSize(files, a + b) == TotalSize(files, a) + TotalSize(files, b)
  {
    if a == [] {
      assert a + b == b;
    } else {
      assert (a + b)[1..] == a[1..] + b;
      TotalAppend(files, a[1..], b);
    }
  }

  /** Taking the k-th path out of the list takes its size out of the total. */
  lemma TotalRemoveAt(files: map<Path, Entry>, b: seq<Path>, k: nat)
    requires AllPresent(files, b) && k < |b|
    ensures AllPresent(files, b[..k] + b[k + 1..])
    ensures TotalSize(files, b) == files[b[k]].size + TotalSize(files, b[..k] + b[k + 1..])
  {
    assert b == b[..k] + ([b[k]] + b[k + 1..]);
    assert forall p :: p in b[..k] || p in b[k + 1..] ==> p in b;
    TotalAppend(files, b[..k], [b[k]] + b[k + 1..]);
    TotalAppend(files, b[..k], b[k + 1..]);
    assert ([b[k]] + b[k + 1..])[1..] == b[k + 1..];
  }

  lemma MultisetRemoveAt(b: seq<Path>, k: nat)
    requires k < |b|
    ensures multiset(b[..k] + b[k + 1..]) == multiset(b) - multiset{b[k]}
  {
    assert b == b[..k] + [b[k]] + b[k + 1..];
  }

  /** Reordering the list leaves the total unchanged. */
  lemma {:induction false} TotalPermutation(files: map<Path, Entry>, a: seq<Path>, b: seq<Path>)
    requires multiset(a) == multiset(b)
    requires AllPresent(files, a)
    ensures AllPresent(files, b)
    ensures TotalSize(files, a) == TotalSize(files, b)
    decreases |a|
  {
    assert forall p :: p in b ==> p in multiset(a);
    if a != [] {
      var x := a[0];
      assert x in multiset(b);
      var k :| 0 <= k < |b| && b[k] == x;
      MultisetRemoveAt(a, 0);
      MultisetRemoveAt(b, k);
      assert a[..0] + a[1..] == a[1..];
      TotalRemoveAt(files, b, k);
      TotalPermutation(files, a[1..], b[..k] + b[k + 1..]);
    }
  }

  /** The aggregation does not depend on the order of the list: a permutation
      succeeds or fails with it, and gives the same total and suffixes. */
  lemma SizeExtPermutation(files: map<Path, Entry>, a: seq<Path>, b: seq<Path>)
    requires multiset(a) == multiset(b)
    ensures SizeExt(files, a).Ok? <==> SizeExt(files, b).Ok?
    ensures SizeExt(files, a).Ok? ==> SizeExt(files, a) == SizeExt(files, b)
  {
    assert forall p :: p in a <==> p in b by {
      assert forall p :: p in a <==> p in multiset(a);
      assert forall p :: p in b <==> p in multiset(b);
    }
    if AllPresent(files, a) {
      TotalPermutation(files, a, b);
    }
  }

  /** The suffix set depends only on which paths are listed, not on their order
      or on how often each occurs. */
  lemma ExtensionsSameElements(a: seq<Path>, b: seq<Path>)
    requires forall p :: p in a <==> p in b
    ensures Extensions(a) == Extensions(b)
  {
  }

  /** A non-empty list of discovered screenshots reports exactly the suffix ".png". */
  lemma ScreenshotExtensions(files: map<Path, Entry>, list: seq<Path>)
    requires list != [] && AllPresent(files, list)
    requires forall p :: p in list ==> Discovery.MatchesGlob(p.name)
    ensures SizeExt(files, list).Ok?
    ensures SizeExt(files, list).totals.exts == {Discovery.Extension}
  {
    forall p | p in list
      ensures Suffix(p.name) == Discovery.Extension
    {
      Discovery.MatchSuffix(p.name);
    }
    assert list[0] in list;
  }
}
