/** File-system housekeeping of src/utils.py on a directory listing given as
    input: which date directories `cleanup_video_directories` deletes, and
    which files `cleanup_old_videos` deletes. Paths follow Python's
    `posixpath`. */
module Cleanup {
  import opened Wrappers
  import opened Sorting
  import opened Text

  /** One entry of `os.listdir`, with whether it is a directory (for the
      directory cleanup) or a regular file (for the video cleanup). */
  datatype Entry = Entry(name: string, isDir: bool, isFile: bool)

  /** The names of the directory entries, in listing order. */
  function Subdirs(listing: seq<Entry>): (r: seq<string>)
    ensures |r| <= |listing|
  {
    if |listing| == 0 then []
    else (if listing[0].isDir then [listing[0].name] else []) + Subdirs(listing[1..])
  }

  /** The names kept are exactly those of the directory entries. */
  lemma {:induction false} SubdirsMembers(listing: seq<Entry>)
    ensures forall x :: x in Subdirs(listing) <==> exists e :: e in listing && e.isDir && e.name == x
  {
    if |listing| > 0 {
      SubdirsMembers(listing[1..]);
      assert listing == [listing[0]] + listing[1..];
    }
  }

  /** Every name of `a` sorts no later than every name of `b`. */
  ghost predicate AllBefore(a: seq<string>, b: seq<string>) {
    forall i, j :: 0 <= i < |a| && 0 <= j < |b| ==> LexLe(a[i], b[j])
  }

  /** `cleanup_video_directories`: sort the subdirectory names and delete all
      but the last `keep` of them (`subdirs[:-keep]`), only when there are
      more than `keep`. Nothing happens when the video directory is absent. */
  function DirsToRemove(listing: seq<Entry>, dirExists: bool, keep: int): (r: seq<string>)
    ensures !dirExists ==> r == []
    ensures dirExists && keep >= 0 ==>
              var sorted := SortNames(Subdirs(listing));
              var n := |sorted|;
              && (n > keep && keep > 0 ==> r == sorted[..n - keep] && AllBefore(r, sorted[n - keep..]))
              && (n <= keep || keep == 0 ==> r == [])
  {
    if !dirExists then [] else DropNewest(SortNames(Subdirs(listing)), keep)
  }

  /** `sorted[:-keep]` when there are more than `keep` names, else nothing:
      the `keep` last names stay, and they sort after every name dropped. */
  function DropNewest(sorted: seq<string>, keep: int): (r: seq<string>)
    requires forall i, j :: 0 <= i < j < |sorted| ==> LexLe(sorted[i], sorted[j])
    ensures keep >= 0 ==>
              var n := |sorted|;
              && (n > keep && keep > 0 ==> r == sorted[..n - keep] && AllBefore(r, sorted[n - keep..]))
              && (n <= keep || keep == 0 ==> r == [])
  {
    if |sorted| > keep then
      if keep > 0 then
        PrefixBeforeSuffix(sorted, |sorted| - keep);
        PyPrefix(sorted, -keep)
      else PyPrefix(sorted, -keep)
    else []
  }

  function SortNames(names: seq<string>): (r: seq<string>)
    ensures forall i, j :: 0 <= i < j < |r| ==> LexLe(r[i], r[j])
    ensures multiset(r) == multiset(names) && |r| == |names|
  {
    LexLeIsTotalPreorder();
    Sort(LexLe, names)
  }

  lemma PrefixBeforeSuffix(sorted: seq<string>, k: int)
    requires forall i, j :: 0 <= i < j < |sorted| ==> LexLe(sorted[i], sorted[j])
    requires 0 <= k <= |sorted|
    ensures AllBefore(sorted[..k], sorted[k..])
  {
    forall i, j | 0 <= i < k && 0 <= j < |sorted| - k
      ensures LexLe(sorted[..k][i], sorted[k..][j])
    {
      assert sorted[..k][i] == sorted[i] && sorted[k..][j] == sorted[k + j];
    }
  }

  // ---------------------------------------------------------------------------
  // The `temp` directory and the retention count

  predicate StartsWithDigit(s: string) {
    |s| > 0 && IsDigit(s[0])
  }

  /** A `YYYY-MM-DD` name. */
  predicate IsDateName(s: string) {
    && |s| == 10 && s[4] == '-' && s[7] == '-'
    && IsDigit(s[0]) && IsDigit(s[1]) && IsDigit(s[2]) && IsDigit(s[3])
    && IsDigit(s[5]) && IsDigit(s[6]) && IsDigit(s[8]) && IsDigit(s[9])
  }

  /** The renderer keeps its scratch space in `videos/temp`. */
  const TempDir: string := "temp"

  lemma DigitNameBeforeTemp(s: string)
    requires StartsWithDigit(s)
    ensures LexLe(s, TempDir) && !LexLe(TempDir, s)
  {
  }

  /** A name occurring once that sorts strictly after all others is last. */
  lemma {:induction false} GreatestIsLast(sorted: seq<string>, top: string)
    requires forall i, j :: 0 <= i < j < |sorted| ==> LexLe(sorted[i], sorted[j])
    requires multiset(sorted)[top] == 1
    requires forall x :: x in sorted && x != top ==> !LexLe(top, x)
    ensures |sorted| > 0 && sorted[|sorted| - 1] == top
    ensures forall i :: 0 <= i < |sorted| - 1 ==> sorted[i] != top
  {
    var n := |sorted|;
    assert top in multiset(sorted);
    var t :| 0 <= t < n && sorted[t] == top;
    if t < n - 1 {
      if sorted[n - 1] == top {
        CountedTwice(sorted, t, n - 1);
      }
    }
    forall i | 0 <= i < n - 1
      ensures sorted[i] != top
    {
      if sorted[i] == top {
        CountedTwice(sorted, i, n - 1);
      }
    }
  }

  /** Among sorted names where `temp` occurs once and every other name
      starts with a digit, `temp` is last and the rest start with digits. */
  lemma TempSortsLast(names: seq<string>)
    requires multiset(names)[TempDir] == 1
    requires forall x :: x in names && x != TempDir ==> StartsWithDigit(x)
    ensures TempLast(SortNames(names))
  {
    var sorted := SortNames(names);
    forall x | x in sorted && x != TempDir
      ensures !LexLe(TempDir, x) && StartsWithDigit(x)
    {
      assert x in multiset(names);
      DigitNameBeforeTemp(x);
    }
    GreatestIsLast(sorted, TempDir);
    forall i | 0 <= i < |sorted| - 1
      ensures StartsWithDigit(sorted[i])
    {
      assert sorted[i] in sorted;
    }
  }

  /** With the `temp` directory beside the date directories, it sorts last,
      so it is always kept and takes one of the `keep` places: only
      `keep - 1` date directories survive. */
  lemma {:induction false} TempTakesARetentionSlot(listing: seq<Entry>, keep: int)
    requires keep > 0
    requires multiset(Subdirs(listing))[TempDir] == 1
    requires forall x :: x in Subdirs(listing) && x != TempDir ==> StartsWithDigit(x)
    requires |Subdirs(listing)| > keep
    ensures var sorted := SortNames(Subdirs(listing));
            var kept := sorted[|sorted| - keep..];
            && TempDir !in DirsToRemove(listing, true, keep)
            && kept[keep - 1] == TempDir
            && forall i :: 0 <= i < keep - 1 ==> StartsWithDigit(kept[i])
  {
    var sorted := SortNames(Subdirs(listing));
    TempSortsLast(Subdirs(listing));
    TempInKeptTail(sorted, keep);
  }

  /** `temp` is the last name and every name before it starts with a digit. */
  ghost predicate TempLast(sorted: seq<string>) {
    && |sorted| > 0 && sorted[|sorted| - 1] == TempDir
    && forall i :: 0 <= i < |sorted| - 1 ==> StartsWithDigit(sorted[i])
  }

  /** With `temp` last and digit-led names before it, the last `keep` names
      end with `temp`, and `temp` is not among the others. */
  lemma TempInKeptTail(sorted: seq<string>, keep: int)
    requires 0 < keep < |sorted| && TempLast(sorted)
    ensures var kept := sorted[|sorted| - keep..];
            && kept[keep - 1] == TempDir
            && (forall i :: 0 <= i < keep - 1 ==> StartsWithDigit(kept[i]))
            && TempDir !in sorted[..|sorted| - keep]
  {
    var n := |sorted|;
    var kept := sorted[n - keep..];
    forall i | 0 <= i < keep - 1
      ensures StartsWithDigit(kept[i])
    {
      assert kept[i] == sorted[n - keep + i];
    }
    var r := sorted[..n - keep];
    forall i | 0 <= i < |r| ensures r[i] != TempDir {
      assert r[i] == sorted[i];
    }
  }

  /** The smallest instance: one date directory, `temp`, and `keep == 1`
      delete the only date directory. */
  lemma OnlyDateDirectoryRemoved()
    ensures DirsToRemove([Entry("2024-05-01", true, false), Entry(TempDir, true, false)], true, 1) == ["2024-05-01"]
  {
    var listing := [Entry("2024-05-01", true, false), Entry(TempDir, true, false)];
    assert listing[1..] == [Entry(TempDir, true, false)] && listing[1..][1..] == [];
    assert Subdirs(listing[1..][1..]) == [];
    assert Subdirs(listing[1..]) == [TempDir];
    assert Subdirs(listing) == ["2024-05-01", TempDir];
    DigitNameBeforeTemp("2024-05-01");
    var sorted := SortNames(Subdirs(listing));
    assert multiset(sorted) == multiset{"2024-05-01", TempDir};
    assert |sorted| == 2;
  }

  /** The retention as documented: only date directories compete for the
      `keep` places; anything else under the video directory stays. */
  function DateDirsToRemove(listing: seq<Entry>, dirExists: bool, keep: int): (r: seq<string>)
    ensures forall x :: x in r ==> IsDateName(x)
  {
    var dated := DateEntries(listing);
    var r := DirsToRemove(dated, dirExists, keep);
    SubdirsMembers(dated);
    assert forall x :: x in r ==> x in Subdirs(dated) by {
      if dirExists && |Subdirs(dated)| > keep {
        forall x | x in r ensures x in Subdirs(dated) {
          assert x in multiset(SortNames(Subdirs(dated)));
        }
      }
    }
    r
  }

  function DateEntries(listing: seq<Entry>): (r: seq<Entry>)
    ensures forall e :: e in r <==> e in listing && IsDateName(e.name)
  {
    if |listing| == 0 then []
    else (if IsDateName(listing[0].name) then [listing[0]] else []) + DateEntries(listing[1..])
  }

  /** With the correction, exactly `keep` date directories remain once there
      are more than `keep`, and `temp` is never removed. */
  lemma CorrectedKeepsDateCount(listing: seq<Entry>, keep: int)
    requires keep > 0
    ensures var dated := SortNames(Subdirs(DateEntries(listing)));
            var r := DateDirsToRemove(listing, true, keep);
            && TempDir !in r
            && (|dated| > keep ==> |dated| - |r| == keep && r == dated[..|dated| - keep])
            && (|dated| <= keep ==> r == [])
  {
    var r := DateDirsToRemove(listing, true, keep);
    assert !IsDateName(TempDir);
  }

  // ---------------------------------------------------------------------------
  // Old videos

  /** The position just after the last '/', or 0 without one. */
  function LastSlashEnd(p: string): (i: nat)
    ensures i <= |p| && '/' !in p[i..]
    ensures i > 0 ==> p[i - 1] == '/'
  {
    if |p| == 0 then 0
    else if p[|p| - 1] == '/' then |p|
    else
      var i := LastSlashEnd(p[..|p| - 1]);
      assert p[i..] == p[..|p| - 1][i..] + [p[|p| - 1]];
      i
  }

  /** `posixpath.basename`. */
  function Basename(p: string): (b: string)
    ensures '/' !in b && EndsWith(p, b)
  {
    var i := LastSlashEnd(p);
    assert p[|p| - |p[i..]|..] == p[i..];
    p[i..]
  }

  function StripTrailingSlashes(s: string): (r: string)
    ensures r <= s && (|r| == 0 || r[|r| - 1] != '/')
    ensures forall k :: |r| <= k < |s| ==> s[k] == '/'
  {
    if |s| > 0 && s[|s| - 1] == '/' then StripTrailingSlashes(s[..|s| - 1]) else s
  }

  /** `posixpath.dirname`: everything up to the last '/', without trailing
      slashes unless it consists of slashes only. */
  function Dirname(p: string): (d: string)
    ensures d <= p
  {
    var head := p[..LastSlashEnd(p)];
    if head != [] && exists k :: 0 <= k < |head| && head[k] != '/' then StripTrailingSlashes(head) else head
  }

  /** `posixpath.join` of two components. */
  function PathJoin(a: string, b: string): (r: string)
    ensures EndsWith(r, b)
  {
    if |b| > 0 && b[0] == '/' then b
    else if a == [] || a[|a| - 1] == '/' then a + b
    else a + "/" + b
  }

  /** The full paths of the listed regular files that end with `suffix`,
      other than `current`, in listing order. */
  function Removals(dir: string, suffix: string, current: string, listing: seq<Entry>): (r: seq<string>)
    ensures forall x :: x in r <==>
              exists e :: e in listing && e.isFile && EndsWith(e.name, suffix)
                          && x == PathJoin(dir, e.name) && x != current
  {
    if |listing| == 0 then []
    else
      var e := listing[0];
      var full := PathJoin(dir, e.name);
      (if EndsWith(e.name, suffix) && full != current && e.isFile then [full] else [])
      + Removals(dir, suffix, current, listing[1..])
  }

  /** `cleanup_old_videos`: with `current` = `<dir>/<prefix>_<suffix>`,
      delete the other regular files of `<dir>` ending with `<suffix>`. An
      empty path or a file name without '_' changes nothing, and so does a
      path without a directory part (listing "" fails and the error is
      swallowed). */
  function OldVideosToRemove(current: string, listing: seq<Entry>): (r: seq<string>)
    ensures current == [] || '_' !in Basename(current) ==> r == []
    ensures current !in r
    ensures forall x :: x in r ==>
              exists e :: e in listing && e.isFile && EndsWith(e.name, AfterLast(Basename(current), '_'))
                          && x == PathJoin(Dirname(current), e.name)
    ensures current != [] && '_' in Basename(current) && Dirname(current) != [] ==>
              forall e :: e in listing && e.isFile && EndsWith(e.name, AfterLast(Basename(current), '_'))
                          && PathJoin(Dirname(current), e.name) != current
                          ==> PathJoin(Dirname(current), e.name) in r
  {
    if current == [] then []
    else
      var name := Basename(current);
      if '_' !in name then []
      else
        var dir := Dirname(current);
        if dir == [] then []
        else Removals(dir, AfterLast(name, '_'), current, listing)
  }

  /** For a path written `<dir>/<name>` with a non-empty directory not
      ending in '/', splitting and re-joining gives the path back, so the
      current file's own listing entry is the one the comparison skips. */
  lemma SplitJoinPath(dir: string, name: string)
    requires |dir| > 0 && dir[|dir| - 1] != '/' && '/' !in name
    ensures var p := dir + "/" + name;
            Dirname(p) == dir && Basename(p) == name && PathJoin(Dirname(p), Basename(p)) == p
  {
    var p := dir + "/" + name;
    var i := LastSlashEnd(p);
    assert p[|dir|] == '/';
    assert p[..i] == dir + "/";
    assert StripTrailingSlashes(dir + "/") == dir by {
      assert (dir + "/")[..|dir|] == dir;
    }
    assert (dir + "/")[|dir| - 1] != '/';
  }
}
