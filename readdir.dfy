/**
  The directory scanner of readdir.c: per-entry admission rules, the scan that
  collects admitted names into a growing array and sorts them, and the reader
  that hands the sorted names to a callback.

  The filesystem is abstract. A FileSystem maps each directory path opendir
  can open to what fstat and readdir report for it, and each path stat can
  resolve to its kind; a path missing from `kinds` is one stat fails on
  (setting errno). The globals BaseDir and NameFilters of readdir.c, which
  ScanDirectory sets for the filters, are parameters here.
 */
module ReadDir {
  import opened Wrappers
  import opened Suffix
  import opened StrOrder

  /** The d_type of a directory entry. */
  datatype DType = Unknown | Fifo | Chr | Dir | Blk | Reg | Lnk | Sock | Wht

  /** A directory entry as readdir returns it. */
  datatype Dirent = Dirent(name: string, dtype: DType)

  /** What a successful stat reports about a path. */
  datatype FileKind = Directory | NonDirectory

  /**
    One open directory: `size` is fstat's st_size (None when fstat fails),
    `entries` the entries readdir returns in order, and `readFails` says
    whether the readdir call after the last entry fails (setting errno)
    instead of reporting the end of the directory.
   */
  datatype Listing = Listing(size: Option<nat>, entries: seq<Dirent>, readFails: bool)

  /** opendir succeeds exactly on the paths in `listings`; stat succeeds exactly on the paths in `kinds`. */
  datatype FileSystem = FileSystem(listings: map<string, Listing>, kinds: map<string, FileKind>)

  /** ConfigShowHiddenFiles: hidden files are never shown. */
  const ConfigShowHiddenFiles := false

  /** IsDirectory: 1 for a directory, 0 for anything else, -1 when stat fails. */
  function IsDirectory(fs: FileSystem, filename: string): (r: int)
    ensures r == -1 <==> filename !in fs.kinds
    ensures r == 1 <==> filename in fs.kinds && fs.kinds[filename] == Directory
    ensures r == 0 <==> filename in fs.kinds && fs.kinds[filename] == NonDirectory
  {
    if filename !in fs.kinds then -1
    else match fs.kinds[filename]
      case Directory => 1
      case NonDirectory => 0
  }

  /** A name starting with '.' (the emptiness test of the source is `len &&`). */
  predicate Hidden(name: string) {
    |name| > 0 && name[0] == '.'
  }

  /** The entry types the filters cannot decide without stat. */
  predicate NeedsStat(t: DType) {
    t == Lnk || t == Unknown
  }

  /** Whether the directory filter turns the name away before looking at its type. */
  predicate DirNameRejected(name: string, showHidden: bool) {
    Hidden(name) && (!showHidden || name == "." || name == "..")
  }

  /** Whether the file filter turns the name away before looking at its type. */
  predicate FileNameRejected(name: string, filter: Option<Table>, showHidden: bool)
    requires filter.Some? ==> Terminated(filter.value)
  {
    (Hidden(name) && !showHidden) || (filter.Some? && !MatchesTable(name, filter.value))
  }

  /**
    FilterIsDirectory: 1 for a DT_DIR entry, 0 for any other known type, and
    IsDirectory(baseDir + name) for DT_LNK or DT_UNKNOWN, so a failing stat
    gives -1.
   */
  function FilterIsDirectory(fs: FileSystem, baseDir: string, e: Dirent, showHidden: bool): (r: int)
    ensures -1 <= r <= 1
  {
    if DirNameRejected(e.name, showHidden) then 0
    else if e.dtype == Dir then 1
    else if !NeedsStat(e.dtype) then 0
    else IsDirectory(fs, baseDir + e.name)
  }

  /**
    FilterIsFile: after the hidden-name and suffix checks, 1 for DT_REG, 0 for
    any other known type, and !IsDirectory(baseDir + name) for DT_LNK or
    DT_UNKNOWN, so a failing stat gives !(-1), that is 0.
   */
  function FilterIsFile(fs: FileSystem, baseDir: string, filter: Option<Table>, e: Dirent, showHidden: bool): (r: int)
    requires filter.Some? ==> Terminated(filter.value)
    ensures r == 0 || r == 1
  {
    if FileNameRejected(e.name, filter, showHidden) then 0
    else if e.dtype == Reg then 1
    else if !NeedsStat(e.dtype) then 0
    else if IsDirectory(fs, baseDir + e.name) == 0 then 1
    else 0
  }

  /** The scan's test at line 305: the entry is kept when the filter returns non-zero. */
  function Keep(fs: FileSystem, baseDir: string, flagDir: bool, filter: Option<Table>, e: Dirent, showHidden: bool): (keep: bool)
    requires filter.Some? ==> Terminated(filter.value)
    ensures keep && !showHidden ==> !Hidden(e.name)
    ensures keep && !flagDir && filter.Some? ==> MatchesTable(e.name, filter.value)
    ensures e.dtype == Dir && !DirNameRejected(e.name, showHidden) ==> (keep <==> flagDir)
    ensures e.dtype == Reg && !FileNameRejected(e.name, filter, showHidden) ==> (keep <==> !flagDir)
    ensures SetsErrno(fs, baseDir, flagDir, filter, e, showHidden) ==> (keep <==> flagDir)
  {
    if flagDir then FilterIsDirectory(fs, baseDir, e, showHidden) != 0
    else FilterIsFile(fs, baseDir, filter, e, showHidden) != 0
  }

  /** Whether the filter reaches its stat call and that call fails, leaving errno set. */
  function SetsErrno(fs: FileSystem, baseDir: string, flagDir: bool, filter: Option<Table>, e: Dirent, showHidden: bool): (sets: bool)
    requires filter.Some? ==> Terminated(filter.value)
    ensures flagDir ==> (sets <==> FilterIsDirectory(fs, baseDir, e, showHidden) == -1)
    ensures !flagDir && sets ==> FilterIsFile(fs, baseDir, filter, e, showHidden) == 0
  {
    && (if flagDir then !DirNameRejected(e.name, showHidden) else !FileNameRejected(e.name, filter, showHidden))
    && NeedsStat(e.dtype)
    && baseDir + e.name !in fs.kinds
  }

  /** The names kept from `es`, in directory order. */
  function Admitted(fs: FileSystem, baseDir: string, flagDir: bool, filter: Option<Table>, es: seq<Dirent>): seq<string>
    requires filter.Some? ==> Terminated(filter.value)
  {
    if es == [] then []
    else
      var last := es[|es| - 1];
      Admitted(fs, baseDir, flagDir, filter, es[..|es| - 1])
        + (if Keep(fs, baseDir, flagDir, filter, last, ConfigShowHiddenFiles) then [last.name] else [])
  }

  /** Whether some filter call on `es` left errno set. */
  predicate ErrnoAfter(fs: FileSystem, baseDir: string, flagDir: bool, filter: Option<Table>, es: seq<Dirent>)
    requires filter.Some? ==> Terminated(filter.value)
  {
    exists k :: 0 <= k < |es| && SetsErrno(fs, baseDir, flagDir, filter, es[k], ConfigShowHiddenFiles)
  }

  /** The scan fails: opendir or fstat fails, or errno is set when the readdir loop ends. */
  predicate ScanFails(fs: FileSystem, name: string, flagDir: bool, filter: Option<Table>)
    requires filter.Some? ==> Terminated(filter.value)
  {
    || name !in fs.listings
    || fs.listings[name].size.None?
    || fs.listings[name].readFails
    || ErrnoAfter(fs, name, flagDir, filter, fs.listings[name].entries)
  }

  /** The outcome of a scan: None on failure, otherwise the admitted names in q_cmp order. */
  function Scan(fs: FileSystem, name: string, flagDir: bool, filter: Option<Table>): (r: Option<seq<string>>)
    requires filter.Some? ==> Terminated(filter.value)
    ensures r.None? <==> ScanFails(fs, name, flagDir, filter)
    ensures r.Some? ==> Sorted(r.value)
    ensures r.Some? ==> multiset(r.value) == multiset(Admitted(fs, name, flagDir, filter, fs.listings[name].entries))
  {
    if ScanFails(fs, name, flagDir, filter) then None
    else Some(SortNames(Admitted(fs, name, flagDir, filter, fs.listings[name].entries)))
  }

  /** The initial capacity as readdir.c computes it: st_size / 24, or 16 when st_size is 0. */
  function InitialCapacityAsWritten(size: nat): (c: nat)
    ensures size == 0 ==> c == 16
    ensures size != 0 ==> c * 24 <= size < (c + 1) * 24
  {
    if size != 0 then size / (3 * 8) else 16
  }

  /** The initial capacity the scan uses: st_size / 24, or 16 when that quotient is 0. */
  function InitialCapacity(size: nat): (c: nat)
    ensures c >= 1
    ensures size >= 24 ==> c == InitialCapacityAsWritten(size)
    ensures size == 0 ==> c == InitialCapacityAsWritten(size)
  {
    if size / (3 * 8) != 0 then size / (3 * 8) else 16
  }

  /** The capacity after the array is found full: st_size / 12 if that is larger, else double. */
  function GrowCapacity(arraysz: nat, size: nat): (c: nat)
    ensures size / 12 > arraysz ==> c == size / 12
    ensures size / 12 <= arraysz ==> c == 2 * arraysz
  {
    if size / (3 * 4) > arraysz then size / (3 * 4) else arraysz * 2
  }

  /**
    The capacity invariant of the scan loop: once the count has reached a
    non-zero capacity, growing makes room for the slot names[n - 1] and one more.
   */
  lemma GrowMakesRoom(arraysz: nat, size: nat, n: nat)
    requires 1 <= arraysz && n == arraysz
    ensures n < GrowCapacity(arraysz, size)
  {
  }

  /**
    As written, a directory whose st_size is 1..11 starts with capacity 0 and
    growing from 0 stays 0, so the first admitted name is stored outside the
    array.
   */
  lemma SmallDirectoryHasNoRoom(size: nat)
    requires 1 <= size < 12
    ensures InitialCapacityAsWritten(size) == 0
    ensures GrowCapacity(InitialCapacityAsWritten(size), size) == 0
  {
  }

  /** One more entry read: the admitted names and the errno state extend by that entry. */
  lemma ScanStep(fs: FileSystem, baseDir: string, flagDir: bool, filter: Option<Table>, es: seq<Dirent>, i: nat)
    requires filter.Some? ==> Terminated(filter.value)
    requires i < |es|
    ensures Admitted(fs, baseDir, flagDir, filter, es[..i + 1]) ==
      Admitted(fs, baseDir, flagDir, filter, es[..i])
        + (if Keep(fs, baseDir, flagDir, filter, es[i], ConfigShowHiddenFiles) then [es[i].name] else [])
    ensures ErrnoAfter(fs, baseDir, flagDir, filter, es[..i + 1]) <==>
      ErrnoAfter(fs, baseDir, flagDir, filter, es[..i]) || SetsErrno(fs, baseDir, flagDir, filter, es[i], ConfigShowHiddenFiles)
  {
    var pre := es[..i + 1];
    assert pre[..i] == es[..i] && pre[i] == es[i];
    if ErrnoAfter(fs, baseDir, flagDir, filter, es[..i]) {
      var k :| 0 <= k < i && SetsErrno(fs, baseDir, flagDir, filter, es[..i][k], ConfigShowHiddenFiles);
      assert pre[k] == es[..i][k];
    }
    if ErrnoAfter(fs, baseDir, flagDir, filter, pre) {
      var k :| 0 <= k < i + 1 && SetsErrno(fs, baseDir, flagDir, filter, pre[k], ConfigShowHiddenFiles);
      if k < i {
        assert es[..i][k] == pre[k];
      }
    }
  }

  /** realloc of a pointer array: a fresh array of the new capacity whose first n entries are kept. */
  method Realloc(a: array<string>, n: nat, capacity: nat) returns (b: array<string>)
    requires n <= a.Length && n <= capacity
    ensures fresh(b) && b.Length == capacity
    ensures b[..n] == a[..n]
  {
    b := new string[capacity];
    forall k | 0 <= k < n {
      b[k] := a[k];
    }
  }

  /**
    Stores name as entry n of the array of capacity arraysz, first growing
    the capacity when the count reaches it, so that one slot stays free.
   */
  method AddName(names: array<string>, n: nat, arraysz: nat, size: nat, name: string)
    returns (grown: array<string>, capacity: nat)
    requires n < arraysz == names.Length
    modifies names
    ensures n + 1 < capacity == grown.Length
    ensures grown[..n + 1] == old(names[..n]) + [name]
    ensures n + 1 < arraysz ==> capacity == arraysz && grown == names
    ensures n + 1 >= arraysz ==> capacity == GrowCapacity(arraysz, size) && fresh(grown)
  {
    grown, capacity := names, arraysz;
    if n + 1 >= arraysz {
      capacity := GrowCapacity(arraysz, size);
      grown := Realloc(names, n, capacity);
    }
    grown[n] := name;
  }

  /**
    The readdir loop of ScanDirectory: stores every entry the filter keeps in
    `names` (capacity arraysz, count n), starting at the capacity st_size
    suggests and growing when full, and records whether errno got set.
   */
  method CollectNames(fs: FileSystem, name: string, flagDir: bool, filter: Option<Table>, dir: Listing)
    returns (names: array<string>, n: nat, errno: bool)
    requires filter.Some? ==> Terminated(filter.value)
    requires dir.size.Some?
    ensures n <= names.Length
    ensures names[..n] == Admitted(fs, name, flagDir, filter, dir.entries)
    ensures errno <==> ErrnoAfter(fs, name, flagDir, filter, dir.entries)
  {
    var size := dir.size.value;
    var arraysz := InitialCapacity(size);
    names := new string[arraysz];
    n := 0;
    errno := false;
    var i := 0;
    while i < |dir.entries|
      invariant 0 <= i <= |dir.entries|
      invariant 0 <= n < arraysz == names.Length
      invariant fresh(names)
      invariant names[..n] == Admitted(fs, name, flagDir, filter, dir.entries[..i])
      invariant errno <==> ErrnoAfter(fs, name, flagDir, filter, dir.entries[..i])
    {
      var entry := dir.entries[i];
      ScanStep(fs, name, flagDir, filter, dir.entries, i);
      ghost var admitted := Admitted(fs, name, flagDir, filter, dir.entries[..i + 1]);
      var keep := Keep(fs, name, flagDir, filter, entry, ConfigShowHiddenFiles);
      errno := errno || SetsErrno(fs, name, flagDir, filter, entry, ConfigShowHiddenFiles);
      if keep {
        names, arraysz := AddName(names, n, arraysz, size, entry.name);
        n := n + 1;
      }
      assert names[..n] == admitted;
      i := i + 1;
    }
    assert dir.entries[..i] == dir.entries;
  }

  /**
    ScanDirectory: opens the directory, collects the names the filter keeps
    into `names` (capacity arraysz, count n), and returns -1 with no list when
    opendir or fstat fails or errno is set at the end; otherwise the count and
    the names sorted with q_cmp.
   */
  method ScanDirectory(fs: FileSystem, name: string, flagDir: bool, filter: Option<Table>)
    returns (n: int, namelist: Option<seq<string>>)
    requires filter.Some? ==> Terminated(filter.value)
    ensures n == -1 <==> ScanFails(fs, name, flagDir, filter)
    ensures n == -1 <==> namelist.None?
    ensures namelist == Scan(fs, name, flagDir, filter)
    ensures namelist.Some? ==>
      && n == |namelist.value|
      && Sorted(namelist.value)
      && multiset(namelist.value) == multiset(Admitted(fs, name, flagDir, filter, fs.listings[name].entries))
  {
    if name !in fs.listings {
      return -1, None;
    }
    var dir := fs.listings[name];
    if dir.size.None? {
      return -1, None;
    }
    var names, count, errno := CollectNames(fs, name, flagDir, filter, dir);
    n := count;
    if dir.readFails {
      errno := true;
    }
    if errno {
      // every collected name is dropped: no partial result
      return -1, None;
    }
    namelist := Some(SortNames(names[..n]));
  }

  /**
    ReadDirectory: scans, then calls the callback once per name in sorted
    order. The callback calls are returned as the sequence of names passed.
   */
  method ReadDirectory(fs: FileSystem, name: string, flagDir: bool, filter: Option<Table>)
    returns (n: int, added: seq<string>)
    requires filter.Some? ==> Terminated(filter.value)
    ensures n < 0 <==> ScanFails(fs, name, flagDir, filter)
    ensures n < 0 ==> n == -1 && added == [] && Scan(fs, name, flagDir, filter) == None
    ensures n >= 0 ==> n == |added| && Scan(fs, name, flagDir, filter) == Some(added)
  {
    var names;
    n, names := ScanDirectory(fs, name, flagDir, filter);
    added := [];
    if n >= 0 {
      var i := 0;
      while i < n
        invariant 0 <= i <= n
        invariant added == names.value[..i]
      {
        added := added + [names.value[i]];
        i := i + 1;
      }
      assert names.value[..n] == names.value;
    }
  }

  /** A name is admitted exactly when some entry carrying it is kept. */
  lemma {:induction false} AdmittedSpec(fs: FileSystem, baseDir: string, flagDir: bool, filter: Option<Table>, es: seq<Dirent>, x: string)
    requires filter.Some? ==> Terminated(filter.value)
    ensures x in Admitted(fs, baseDir, flagDir, filter, es) <==>
      exists k :: 0 <= k < |es| && es[k].name == x && Keep(fs, baseDir, flagDir, filter, es[k], ConfigShowHiddenFiles)
    decreases |es|
  {
    if es != [] {
      var init := es[..|es| - 1];
      AdmittedSpec(fs, baseDir, flagDir, filter, init, x);
      if k :| 0 <= k < |init| && init[k].name == x && Keep(fs, baseDir, flagDir, filter, init[k], ConfigShowHiddenFiles) {
        assert es[k] == init[k];
      }
      if k :| 0 <= k < |es| && es[k].name == x && Keep(fs, baseDir, flagDir, filter, es[k], ConfigShowHiddenFiles) {
        if k < |init| {
          assert init[k] == es[k];
        }
      }
    }
  }

  /** The positions of the kept entries of `es`. */
  function KeptIndices(fs: FileSystem, baseDir: string, flagDir: bool, filter: Option<Table>, es: seq<Dirent>): set<int>
    requires filter.Some? ==> Terminated(filter.value)
  {
    set k | 0 <= k < |es| && Keep(fs, baseDir, flagDir, filter, es[k], ConfigShowHiddenFiles)
  }

  /** Reading one more entry adds its position to the kept positions exactly when it is kept. */
  lemma KeptIndicesStep(fs: FileSystem, baseDir: string, flagDir: bool, filter: Option<Table>, es: seq<Dirent>)
    requires filter.Some? ==> Terminated(filter.value)
    requires es != []
    ensures var last := |es| - 1;
      KeptIndices(fs, baseDir, flagDir, filter, es) ==
        KeptIndices(fs, baseDir, flagDir, filter, es[..last])
          + (if Keep(fs, baseDir, flagDir, filter, es[last], ConfigShowHiddenFiles) then {last} else {})
    ensures |es| - 1 !in KeptIndices(fs, baseDir, flagDir, filter, es[..|es| - 1])
  {
    var last := |es| - 1;
    var init := es[..last];
    var before := KeptIndices(fs, baseDir, flagDir, filter, init);
    var after := KeptIndices(fs, baseDir, flagDir, filter, es);
    var added: set<int> := if Keep(fs, baseDir, flagDir, filter, es[last], ConfigShowHiddenFiles) then {last} else {};
    forall k | k in after ensures k in before + added {
      if k < last { assert init[k] == es[k]; }
    }
    forall k | k in before ensures k in after {
      assert init[k] == es[k];
    }
  }

  /** The count of admitted names equals the number of kept entries. */
  lemma {:induction false} AdmittedCount(fs: FileSystem, baseDir: string, flagDir: bool, filter: Option<Table>, es: seq<Dirent>)
    requires filter.Some? ==> Terminated(filter.value)
    ensures |Admitted(fs, baseDir, flagDir, filter, es)| == |KeptIndices(fs, baseDir, flagDir, filter, es)|
    decreases |es|
  {
    if es == [] {
      assert KeptIndices(fs, baseDir, flagDir, filter, es) == {};
    } else {
      AdmittedCount(fs, baseDir, flagDir, filter, es[..|es| - 1]);
      KeptIndicesStep(fs, baseDir, flagDir, filter, es);
    }
  }

  /**
    The filters on a name that passes the name checks and a type readdir
    reports: the directory filter refuses every known type except DT_DIR,
    and the file filter keeps DT_REG and refuses every other known type.
   */
  lemma KnownTypesClassified(fs: FileSystem, baseDir: string, filter: Option<Table>, e: Dirent, showHidden: bool)
    requires filter.Some? ==> Terminated(filter.value)
    ensures !DirNameRejected(e.name, showHidden) && e.dtype != Dir && !NeedsStat(e.dtype) ==>
      FilterIsDirectory(fs, baseDir, e, showHidden) == 0
    ensures !FileNameRejected(e.name, filter, showHidden) && e.dtype == Reg ==>
      FilterIsFile(fs, baseDir, filter, e, showHidden) == 1
    ensures !FileNameRejected(e.name, filter, showHidden) && e.dtype != Reg && !NeedsStat(e.dtype) ==>
      FilterIsFile(fs, baseDir, filter, e, showHidden) == 0
  {
  }

  /** Hidden names never come back from a scan, whichever kind it collects. */
  lemma NoHiddenNames(fs: FileSystem, name: string, flagDir: bool, filter: Option<Table>, r: seq<string>, x: string)
    requires filter.Some? ==> Terminated(filter.value)
    requires Scan(fs, name, flagDir, filter) == Some(r)
    requires x in r
    ensures !Hidden(x)
  {
    var es := fs.listings[name].entries;
    assert x in multiset(Admitted(fs, name, flagDir, filter, es));
    AdmittedSpec(fs, name, flagDir, filter, es, x);
  }

  /** With a filter table, every file a scan returns ends with one of the table's suffixes, ignoring case. */
  lemma FileNamesMatchFilter(fs: FileSystem, name: string, t: Table, r: seq<string>, x: string)
    requires WellFormed(t)
    requires Scan(fs, name, false, (WellFormedIsTerminated(t); Some(t))) == Some(r)
    requires x in r
    ensures exists s :: s in Suffixes(t) && EndsWithIgnoringCase(x, s)
  {
    WellFormedIsTerminated(t);
    var es := fs.listings[name].entries;
    assert x in multiset(Admitted(fs, name, false, Some(t), es));
    AdmittedSpec(fs, name, false, Some(t), es, x);
    MatchesTableSpec(x, t);
  }

  /** A scan returns the admitted names exactly: sorted, and each as often as it was kept. */
  lemma ScanIsSortedAdmitted(fs: FileSystem, name: string, flagDir: bool, filter: Option<Table>, r: seq<string>)
    requires filter.Some? ==> Terminated(filter.value)
    requires Scan(fs, name, flagDir, filter) == Some(r)
    ensures Sorted(r)
    ensures multiset(r) == multiset(Admitted(fs, name, flagDir, filter, fs.listings[name].entries))
    ensures |r| == |KeptIndices(fs, name, flagDir, filter, fs.listings[name].entries)|
  {
    AdmittedCount(fs, name, flagDir, filter, fs.listings[name].entries);
  }

  /** A stat that fails inside a filter fails the whole scan: nothing is returned. */
  lemma StatFailureFailsScan(fs: FileSystem, name: string, flagDir: bool, filter: Option<Table>, k: nat)
    requires filter.Some? ==> Terminated(filter.value)
    requires name in fs.listings && k < |fs.listings[name].entries|
    requires SetsErrno(fs, name, flagDir, filter, fs.listings[name].entries[k], ConfigShowHiddenFiles)
    ensures Scan(fs, name, flagDir, filter) == None
  {
  }

  /** An empty directory that opens and reads cleanly scans to the empty list, not an error. */
  lemma EmptyDirectoryScansEmpty(fs: FileSystem, name: string, flagDir: bool, filter: Option<Table>)
    requires filter.Some? ==> Terminated(filter.value)
    requires name in fs.listings && fs.listings[name].size.Some?
    requires fs.listings[name].entries == [] && !fs.listings[name].readFails
    ensures Scan(fs, name, flagDir, filter) == Some([])
  {
  }

  /** The directory filter accepts DT_DIR without consulting stat: the answer does not depend on the filesystem. */
  lemma DirTypeNeedsNoStat(fs1: FileSystem, fs2: FileSystem, baseDir: string, e: Dirent, showHidden: bool)
    requires e.dtype == Dir
    ensures FilterIsDirectory(fs1, baseDir, e, showHidden) == FilterIsDirectory(fs2, baseDir, e, showHidden)
    ensures FilterIsDirectory(fs1, baseDir, e, showHidden) == (if DirNameRejected(e.name, showHidden) then 0 else 1)
  {
  }

  /**
    With hidden files shown, the directory filter still refuses exactly "."
    and ".." among the names starting with '.'; with them hidden it refuses
    every such name. The file filter refuses every such name while hidden.
   */
  lemma HiddenNamePolicy(fs: FileSystem, baseDir: string, filter: Option<Table>, e: Dirent)
    requires filter.Some? ==> Terminated(filter.value)
    requires Hidden(e.name)
    ensures FilterIsDirectory(fs, baseDir, e, false) == 0
    ensures FilterIsFile(fs, baseDir, filter, e, false) == 0
    ensures (e.name == "." || e.name == "..") ==> FilterIsDirectory(fs, baseDir, e, true) == 0
    ensures e.dtype == Dir && e.name != "." && e.name != ".." ==> FilterIsDirectory(fs, baseDir, e, true) == 1
  {
  }

  /**
    A link or unknown entry is classified by stat of baseDir + name: the
    directory filter keeps it when stat says directory or fails (-1 is
    non-zero), the file filter keeps it only when stat says non-directory.
   */
  lemma StatFallback(fs: FileSystem, baseDir: string, filter: Option<Table>, e: Dirent, showHidden: bool)
    requires filter.Some? ==> Terminated(filter.value)
    requires NeedsStat(e.dtype)
    ensures !DirNameRejected(e.name, showHidden) ==>
      (FilterIsDirectory(fs, baseDir, e, showHidden) != 0 <==>
        (baseDir + e.name !in fs.kinds || fs.kinds[baseDir + e.name] == Directory))
    ensures !FileNameRejected(e.name, filter, showHidden) ==>
      (FilterIsFile(fs, baseDir, filter, e, showHidden) != 0 <==>
        (baseDir + e.name in fs.kinds && fs.kinds[baseDir + e.name] == NonDirectory))
  {
  }

  /** With a filter table, a name that matches no suffix is refused whatever its type. */
  lemma UnmatchedNameRefused(fs: FileSystem, baseDir: string, t: Table, e: Dirent, showHidden: bool)
    requires WellFormed(t)
    requires forall s :: s in Suffixes(t) ==> !EndsWithIgnoringCase(e.name, s)
    ensures Terminated(t)
    ensures FilterIsFile(fs, baseDir, Some(t), e, showHidden) == 0
    ensures !SetsErrno(fs, baseDir, false, Some(t), e, showHidden)
  {
    MatchesTableSpec(e.name, t);
  }

  /** With the video table, a regular file is kept by its suffix, ignoring case: "Movie.MKV" is. */
  lemma VideoFileKept(fs: FileSystem, baseDir: string)
    ensures Terminated(VideoFilters)
    ensures FilterIsFile(fs, baseDir, Some(VideoFilters), Dirent("Movie.MKV", Reg), ConfigShowHiddenFiles) == 1
  {
    BrowserTablesWellFormed();
    MatchesTableSpec("Movie.MKV", VideoFilters);
    assert ".mkv" in Suffixes(VideoFilters);
    assert "Movie.MKV"[5..] == ".MKV";
  }

  /** With the video table, a regular file with another suffix is refused: "notes.txt" is. */
  lemma OtherFileRefused(fs: FileSystem, baseDir: string)
    ensures Terminated(VideoFilters)
    ensures FilterIsFile(fs, baseDir, Some(VideoFilters), Dirent("notes.txt", Reg), ConfigShowHiddenFiles) == 0
  {
    BrowserTablesWellFormed();
    MatchesTableSpec("notes.txt", VideoFilters);
    forall s | s in Suffixes(VideoFilters)
      ensures !EndsWithIgnoringCase("notes.txt", s)
    {
      assert s[|s| - 1] != 't' && s[|s| - 1] != 'T';
      assert !EqualIgnoringCase("notes.txt"[|"notes.txt"| - |s|..], s) by {
        assert "notes.txt"[|"notes.txt"| - |s|..][|s| - 1] == 't';
      }
    }
  }
}
