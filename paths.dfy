/** File-system values the cleaner works with: paths, the metadata it reads from
    a file, the path suffix, and the `YYYY-MM` name of a month folder. */
module Paths {

  datatype Option<T> = None | Some(value: T)

  /** A directory, written as its absolute path. */
  type Dir = string

  /** A file path: the directory that holds it and its base name. */
  datatype Path = Path(dir: Dir, name: string)

  /** A calendar month, as the local clock gives it. */
  datatype Month = Month(year: int, month: int)

  /** What the cleaner reads of a file: its size in bytes (`st_size`) and the
      month of its `st_ctime`, the last status change on macOS. */
  datatype Entry = Entry(size: nat, ctime: Month)

  /** Years with four digits and months 1..12: the months `strftime("%Y-%m")`
      prints as exactly seven characters. */
  predicate ValidMonth(m: Month) {
    1000 <= m.year <= 9999 && 1 <= m.month <= 12
  }

  /** Index of the last '.' in s, or -1 when there is none. */
  function LastDot(s: string): (i: int)
    ensures -1 <= i < |s|
    ensures 0 <= i ==> s[i] == '.'
    ensures forall j :: i < j < |s| ==> s[j] != '.'
  {
    if s == [] then -1
    else if s[|s| - 1] == '.' then |s| - 1
    else LastDot(s[..|s| - 1])
  }

  /** The suffix of a file name as pathlib defines it: from the last '.' to the
      end, provided that dot is neither the first nor the last character;
      otherwise the empty string. */
  function Suffix(name: string): (r: string)
    ensures r == [] || (r[0] == '.' && 2 <= |r| < |name| && name[|name| - |r|..] == r)
    ensures r != [] ==> forall j :: 1 <= j < |r| ==> r[j] != '.'
  {
    var i := LastDot(name);
    if 0 < i < |name| - 1 then name[i..] else []
  }

  /** A name ending in '.' followed by dot-free text of at least one character,
      with something before the dot, has exactly that ending as its suffix. */
  lemma SuffixOfEnding(name: string, ext: string)
    requires |ext| >= 2 && ext[0] == '.' && |name| > |ext|
    requires forall j :: 1 <= j < |ext| ==> ext[j] != '.'
    requires name[|name| - |ext|..] == ext
    ensures Suffix(name) == ext
  {
    var k := |name| - |ext|;
    assert name[k] == ext[0];
    forall j | k < j < |name|
      ensures name[j] != '.'
    {
      assert name[j] == ext[j - k];
    }
    var i := LastDot(name);
    assert i == k;
  }

  /** The character of a decimal digit 0..9. */
  function DigitChar(d: int): (c: char)
    requires 0 <= d < 10
    ensures '0' <= c <= '9' && c as int - '0' as int == d
  {
    ('0' as int + d) as char
  }

  /** The value of a decimal digit character. */
  function DigitValue(c: char): (d: int)
    requires '0' <= c <= '9'
    ensures 0 <= d < 10 && DigitChar(d) == c
  {
    c as int - '0' as int
  }

  /** `strftime("%Y-%m")`: the year in four digits, '-', the month in two,
      zero-padded. */
  function MonthFolder(m: Month): (r: string)
    requires ValidMonth(m)
    ensures |r| == 7 && r[4] == '-'
    ensures forall i :: 0 <= i < 7 && i != 4 ==> '0' <= r[i] <= '9'
    ensures r[5] == '0' || r[5] == '1'
  {
    [DigitChar(m.year / 1000), DigitChar(m.year / 100 % 10), DigitChar(m.year / 10 % 10),
     DigitChar(m.year % 10), '-', DigitChar(m.month / 10), DigitChar(m.month % 10)]
  }

  /** Reads a `YYYY-MM` folder name back into a month; None for anything else. */
  function ParseMonthFolder(s: string): (r: Option<Month>)
    ensures r.Some? ==> ValidMonth(r.value)
  {
    if |s| == 7 && s[4] == '-' && (forall i :: 0 <= i < 7 && i != 4 ==> '0' <= s[i] <= '9') then
      var year := 1000 * DigitValue(s[0]) + 100 * DigitValue(s[1]) + 10 * DigitValue(s[2]) + DigitValue(s[3]);
      var month := 10 * DigitValue(s[5]) + DigitValue(s[6]);
      if 1000 <= year && 1 <= month <= 12 then Some(Month(year, month)) else None
    else None
  }

  /** Reading a month folder's name gives back the month. */
  lemma MonthFolderRoundTrip(m: Month)
    requires ValidMonth(m)
    ensures ParseMonthFolder(MonthFolder(m)) == Some(m)
  {
    var s := MonthFolder(m);
    FourDigits(m.year);
    assert DigitValue(s[0]) == m.year / 1000;
    assert DigitValue(s[1]) == m.year / 100 % 10;
    assert DigitValue(s[2]) == m.year / 10 % 10;
    assert DigitValue(s[3]) == m.year % 10;
    assert DigitValue(s[5]) == m.month / 10;
    assert DigitValue(s[6]) == m.month % 10;
  }

  lemma FourDigits(y: int)
    requires 0 <= y < 10000
    ensures y == 1000 * (y / 1000) + 100 * (y / 100 % 10) + 10 * (y / 10 % 10) + y % 10
  {
    var a, b, c := y / 10, y / 100, y / 1000;
    assert y == 10 * a + y % 10;
    assert b == a / 10 && a == 10 * b + a % 10;
    assert c == b / 10 && b == 10 * c + b % 10;
  }

  /** Distinct months get distinct folders. */
  lemma MonthFolderInjective(a: Month, b: Month)
    requires ValidMonth(a) && ValidMonth(b)
    ensures MonthFolder(a) == MonthFolder(b) <==> a == b
  {
    MonthFolderRoundTrip(a);
    MonthFolderRoundTrip(b);
  }

  /** The folder a file whose `st_ctime` falls in month m is moved to: root/YYYY-MM. */
  function MonthDir(root: Dir, m: Month): (d: Dir)
    requires ValidMonth(m)
    ensures |d| == |root| + 8 && d[..|root| + 1] == root + "/"
    ensures d[|root| + 1..] == MonthFolder(m)
  {
    root + "/" + MonthFolder(m)
  }

  /** Distinct months get distinct destination folders under the same root. */
  lemma MonthDirInjective(root: Dir, a: Month, b: Month)
    requires ValidMonth(a) && ValidMonth(b)
    ensures MonthDir(root, a) == MonthDir(root, b) <==> a == b
  {
    if MonthDir(root, a) == MonthDir(root, b) {
      assert MonthFolder(a) == MonthDir(root, a)[|root| + 1..];
      MonthFolderInjective(a, b);
    }
  }

  /** Whether a path lies somewhere below root, as every month folder does. */
  predicate BelowRoot(p: Path, root: Dir) {
    |p.dir| > |root| && p.dir[..|root| + 1] == root + "/"
  }
}
