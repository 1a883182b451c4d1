/**
  The file browser of play.cpp: the directory stack (the globals DirStack,
  DirStackUsed and DirStackSize, innermost path at index 0), the one-shot
  start directory handed out by the main menu action, and the cBrowser menu
  that lists the current directory, descends into directories and archives,
  plays files and climbs back up restoring the selection.

  The filesystem the menu scans is a ReadDir.FileSystem parameter; the
  archive switch of readdir.c is the parameter `avfs`. The host menu (the
  cOsdMenu base class) is reduced to its item texts and its current index.
 */
module Play {
  import opened Wrappers
  import opened Suffix
  import opened ReadDir

  /** The eOSState values the browser receives and returns. */
  datatype OsState = OsUnknown | OsContinue | OsEnd | OsBack | OsPlugin | OsOther

  /** The keys the browser handles itself; every other key is Other. */
  datatype Key = Ok | Back | Other

  /** Which menu the main menu action opens. */
  datatype MenuKind = BrowserMenu | PlayMenu

  /** What selecting the current item does. */
  datatype Choice = GoUp | Descend(path: string) | PlayFile(path: string)

  /** A stack entry: a non-empty path ending in '/'. */
  predicate IsDirPrefix(p: string) {
    |p| > 0 && p[|p| - 1] == '/'
  }

  /** Every entry of a stack is a directory prefix. */
  predicate AllDirPrefixes(stack: seq<string>) {
    forall k :: 0 <= k < |stack| ==> IsDirPrefix(stack[k])
  }

  /** NewDir's copy of the path: '/' is appended only when missing. */
  function Normalize(path: string): (p: string)
    requires |path| > 0
    ensures IsDirPrefix(p)
    ensures path[|path| - 1] == '/' ==> p == path
    ensures path[|path| - 1] != '/' ==> p == path + "/"
  {
    if path[|path| - 1] == '/' then path else path + "/"
  }

  /** The names of a scan, or nothing when the scan failed (CreateMenu ignores scan errors). */
  function Listed(r: Option<seq<string>>): seq<string> {
    if r.None? then [] else r.value
  }

  /** Names after a head, taken from two lists of names without '.', are without '.'. */
  lemma AppendedNotHidden(head: seq<string>, dirs: seq<string>, files: seq<string>)
    requires forall k :: 0 <= k < |dirs| ==> !Hidden(dirs[k])
    requires forall k :: 0 <= k < |files| ==> !Hidden(files[k])
    ensures forall k :: |head| <= k < |head + dirs + files| ==> !Hidden((head + dirs + files)[k])
  {
    forall k | |head| <= k < |head + dirs + files| ensures !Hidden((head + dirs + files)[k]) {
      if k < |head| + |dirs| {
        assert (head + dirs + files)[k] == dirs[k - |head|];
      } else {
        assert (head + dirs + files)[k] == files[k - |head| - |dirs|];
      }
    }
  }

  /** No name a scan lists starts with '.'. */
  lemma ListedNotHidden(fs: FileSystem, path: string, flagDir: bool, filter: Option<Table>)
    requires filter.Some? ==> Terminated(filter.value)
    ensures forall k :: 0 <= k < |Listed(Scan(fs, path, flagDir, filter))| ==>
      !Hidden(Listed(Scan(fs, path, flagDir, filter))[k])
  {
    var r := Listed(Scan(fs, path, flagDir, filter));
    forall k | 0 <= k < |r| ensures !Hidden(r[k]) {
      NoHiddenNames(fs, path, flagDir, filter, r, r[k]);
    }
  }

  /**
    The items CreateMenu builds for `path`: the path itself as a parent
    placeholder when nested, then the sorted directories, then the sorted
    files the filter admits. A failed scan contributes no items.
   */
  function Menu(fs: FileSystem, path: string, nested: bool, filter: Option<Table>): (items: seq<string>)
    requires filter.Some? ==> Terminated(filter.value)
    ensures nested ==> |items| >= 1 && items[0] == path
    ensures ScanFails(fs, path, true, None) && ScanFails(fs, path, false, filter) ==>
      items == (if nested then [path] else [])
    ensures forall k :: (if nested then 1 else 0) <= k < |items| ==> !Hidden(items[k])
  {
    var head := if nested then [path] else [];
    var dirs := Listed(Scan(fs, path, true, None));
    var files := Listed(Scan(fs, path, false, filter));
    ListedNotHidden(fs, path, true, None);
    ListedNotHidden(fs, path, false, filter);
    AppendedNotHidden(head, dirs, files);
    head + dirs + files
  }

  /** The menu of a directory stack: the menu of its innermost path, nested when deeper than one. */
  function MenuItems(fs: FileSystem, stack: seq<string>, filter: Option<Table>): seq<string>
    requires |stack| >= 1
    requires filter.Some? ==> Terminated(filter.value)
  {
    Menu(fs, stack[0], |stack| > 1, filter)
  }

  /** The host menu's current item after it is displayed: the first item, or none (-1) when empty. */
  function DefaultCurrent(items: seq<string>): int {
    if |items| > 0 then 0 else -1
  }

  /** strrchr(s, '/'): the index of the last '/' in s. */
  function LastSlash(s: string): (r: Option<nat>)
    ensures r.Some? ==> r.value < |s| && s[r.value] == '/'
    ensures r.Some? ==> forall j :: r.value < j < |s| ==> s[j] != '/'
    ensures r.None? ==> forall j :: 0 <= j < |s| ==> s[j] != '/'
  {
    if s == [] then None
    else if s[|s| - 1] == '/' then Some(|s| - 1)
    else LastSlash(s[..|s| - 1])
  }

  /**
    The name LevelUp looks for after popping `down`: with the trailing '/'
    removed, the text after the last '/'; nothing when no '/' remains.
   */
  function DescendedName(down: string): (r: Option<string>)
    requires IsDirPrefix(down)
    ensures r.Some? ==> forall j :: 0 <= j < |r.value| ==> r.value[j] != '/'
  {
    var stripped := down[..|down| - 1];
    match LastSlash(stripped)
    case None => None
    case Some(k) =>
      var name := stripped[k + 1..];
      assert forall j :: 0 <= j < |name| ==> name[j] == stripped[k + 1 + j];
      Some(name)
  }

  /** The index of the first item equal to text. */
  function FirstIndexOf(items: seq<string>, text: string): (r: Option<nat>)
    ensures r.Some? ==> r.value < |items| && items[r.value] == text
    ensures r.Some? ==> forall j :: 0 <= j < r.value ==> items[j] != text
    ensures r.None? <==> text !in items
  {
    if items == [] then None
    else if items[0] == text then Some(0)
    else
      match FirstIndexOf(items[1..], text)
      case None => None
      case Some(i) => Some(i + 1)
  }

  /** The current item after LevelUp from `down`: the first item named as the popped component, else the default. */
  function Reselect(items: seq<string>, down: string): (r: int)
    requires IsDirPrefix(down)
    ensures DescendedName(down).Some? && DescendedName(down).value in items ==>
      && 0 <= r < |items| && items[r] == DescendedName(down).value
      && forall j :: 0 <= j < r ==> items[j] != items[r]
    ensures DescendedName(down).None? || DescendedName(down).value !in items ==>
      r == DefaultCurrent(items)
  {
    match DescendedName(down)
    case None => DefaultCurrent(items)
    case Some(name) =>
      match FirstIndexOf(items, name)
      case None => DefaultCurrent(items)
      case Some(i) => i
  }

  /** A path with no '/' in it. */
  predicate IsComponent(t: string) {
    |t| > 0 && forall j :: 0 <= j < |t| ==> t[j] != '/'
  }

  /** Climbing out of prefix + t + "/" looks for the item t. */
  lemma {:induction false} DescendedNameOfChild(prefix: string, t: string)
    requires IsDirPrefix(prefix) && IsComponent(t)
    ensures IsDirPrefix(prefix + t + "/")
    ensures DescendedName(prefix + t + "/") == Some(t)
  {
    var down := prefix + t + "/";
    var stripped := down[..|down| - 1];
    assert stripped == prefix + t;
    var last := |prefix| - 1;
    assert stripped[last] == '/';
    forall j | last < j < |stripped|
      ensures stripped[j] != '/'
    {
      assert stripped[j] == t[j - |prefix|];
    }
    match LastSlash(stripped)
    case None =>
      assert false;
    case Some(k) =>
      assert k == last;
      assert stripped[k + 1..] == t;
  }

  /**
    When the directory left is listed, LevelUp's search selects its item;
    otherwise the menu keeps its default selection.
   */
  lemma ReselectFindsChild(items: seq<string>, prefix: string, t: string)
    requires IsDirPrefix(prefix) && IsComponent(t)
    ensures IsDirPrefix(prefix + t + "/")
    ensures t in items ==> 0 <= Reselect(items, prefix + t + "/") < |items|
    ensures t in items ==> items[Reselect(items, prefix + t + "/")] == t
    ensures t !in items ==> Reselect(items, prefix + t + "/") == DefaultCurrent(items)
  {
    DescendedNameOfChild(prefix, t);
  }

  /**
    An archive is entered as prefix + t + "#", which NewDir stores as
    prefix + t + "#/": climbing back looks for "t#", which no listed file is
    called, so the selection falls back to the default.
   */
  lemma ArchiveSelectionNotRestored(items: seq<string>, prefix: string, t: string)
    requires IsDirPrefix(prefix) && IsComponent(t)
    requires t + "#" !in items
    ensures Normalize(prefix + t + "#") == prefix + (t + "#") + "/"
    ensures Reselect(items, Normalize(prefix + t + "#")) == DefaultCurrent(items)
  {
    assert prefix + t + "#" == prefix + (t + "#");
    assert IsComponent(t + "#") by {
      forall j | 0 <= j < |t + "#"| ensures (t + "#")[j] != '/' {
        if j < |t| { assert (t + "#")[j] == t[j]; }
      }
    }
    DescendedNameOfChild(prefix, t + "#");
  }

  /** A DVD image directory: played as a disc instead of entered. */
  predicate IsDvdDirectory(text: string) {
    text == "AUDIO_TS" || text == "VIDEO_TS"
  }

  /**
    The decision Selected takes for the item at `current`: the placeholder of
    a nested stack goes up; a path stat does not call a directory (0) is
    entered with a '#' marker when it is an archive and played otherwise; a
    directory, or a path stat fails on (-1), plays the DVD of the current path
    when named AUDIO_TS or VIDEO_TS and is entered otherwise.
   */
  function Decide(fs: FileSystem, avfs: bool, stack: seq<string>, items: seq<string>, current: int): (r: Choice)
    requires |stack| >= 1
    requires 0 <= current < |items|
    ensures r.GoUp? <==> current == 0 && |stack| > 1
    ensures r.Descend? ==>
      r.path == stack[0] + items[current] + "#" || r.path == stack[0] + items[current] + "/"
    ensures r.PlayFile? ==>
      r.path == stack[0] + items[current] || r.path == "dvdnav:///" + stack[0]
  {
    if current == 0 && |stack| > 1 then GoUp
    else
      var filename := stack[0] + items[current];
      if IsDirectory(fs, filename) == 0 then
        if IsArchive(avfs, filename) != 0 then Descend(filename + "#") else PlayFile(filename)
      else if IsDvdDirectory(items[current]) then PlayFile("dvdnav:///" + stack[0])
      else Descend(filename + "/")
  }

  /** The item list CreateMenu fills: placeholder, directories, then filtered files. */
  method BuildMenu(fs: FileSystem, path: string, nested: bool, filter: Option<Table>) returns (items: seq<string>)
    requires filter.Some? ==> Terminated(filter.value)
    ensures items == Menu(fs, path, nested, filter)
  {
    items := [];
    if nested {
      items := items + [path];
    }
    var n, dirs := ReadDirectory(fs, path, true, None);
    items := items + dirs;
    var m, files := ReadDirectory(fs, path, false, filter);
    items := items + files;
  }

  /** LevelUp's search: the index of the first item whose text equals name. */
  method FindItem(items: seq<string>, name: string) returns (found: Option<nat>)
    ensures found == FirstIndexOf(items, name)
  {
    var i := 0;
    while i < |items|
      invariant 0 <= i <= |items|
      invariant forall j :: 0 <= j < i ==> items[j] != name
    {
      if items[i] == name {
        return Some(i);
      }
      i := i + 1;
    }
    return None;
  }

  /** Moves a[0..n) one place up to a[1..n], leaving a[0] and everything past n as they were. */
  method ShiftUp(a: array<string>, n: nat)
    requires n < a.Length
    modifies a
    ensures a[1..n + 1] == old(a[..n])
    ensures a[0] == old(a[0]) && a[n + 1..] == old(a[n + 1..])
  {
    var k := n;
    while k > 0
      invariant 0 <= k <= n
      invariant forall j :: 0 <= j <= k ==> a[j] == old(a[j])
      invariant forall j :: k < j <= n ==> a[j] == old(a[j - 1])
      invariant a[n + 1..] == old(a[n + 1..])
      decreases k
    {
      a[k] := a[k - 1];
      k := k - 1;
    }
  }

  /** Moves a[1..n) one place down to a[0..n - 1), leaving a[n - 1] and everything past it as they were. */
  method ShiftDown(a: array<string>, n: nat)
    requires 0 < n <= a.Length
    modifies a
    ensures a[..n - 1] == old(a[1..n])
    ensures a[n - 1..] == old(a[n - 1..])
  {
    var k := 0;
    while k < n - 1
      invariant 0 <= k <= n - 1
      invariant forall j :: 0 <= j < k ==> a[j] == old(a[j + 1])
      invariant forall j :: k <= j < a.Length ==> a[j] == old(a[j])
    {
      a[k] := a[k + 1];
      k := k + 1;
    }
  }

  /**
    What Selected does with an item that is not the placeholder: a path stat
    calls a non-directory is played, or entered with '#' when it is an
    archive; a path stat calls a directory or cannot stat (-1) is entered
    with '/' or, for AUDIO_TS and VIDEO_TS, played as a DVD of the current
    directory. A new path extends the current one by the item and exactly
    one character, as the strlen + strlen + 2 buffer allows.
   */
  lemma DecideCases(fs: FileSystem, avfs: bool, stack: seq<string>, items: seq<string>, current: int)
    requires |stack| >= 1 && 0 <= current < |items|
    requires !(current == 0 && |stack| > 1)
    ensures var filename := stack[0] + items[current];
      && (Decide(fs, avfs, stack, items, current).Descend? ==>
            var p := Decide(fs, avfs, stack, items, current).path;
            |p| == |filename| + 1 && p[..|filename|] == filename && p[|filename|] in {'#', '/'})
      && (Decide(fs, avfs, stack, items, current) == PlayFile(filename) <==>
            filename in fs.kinds && fs.kinds[filename] == NonDirectory && !(avfs && HasArchiveSuffix(filename)))
      && (Decide(fs, avfs, stack, items, current) == Descend(filename + "#") <==>
            filename in fs.kinds && fs.kinds[filename] == NonDirectory && avfs && HasArchiveSuffix(filename))
      && (IsDirectory(fs, filename) != 0 && !IsDvdDirectory(items[current]) ==>
            Decide(fs, avfs, stack, items, current) == Descend(filename + "/"))
      && (IsDirectory(fs, filename) != 0 && IsDvdDirectory(items[current]) ==>
            Decide(fs, avfs, stack, items, current) == PlayFile("dvdnav:///" + stack[0]))
  {
    var filename := stack[0] + items[current];
    assert (filename + "#")[..|filename|] == filename;
    assert (filename + "/")[..|filename|] == filename;
    if IsDvdDirectory(items[current]) {
      assert |"dvdnav:///" + stack[0]| != |filename|;
    }
  }

  /**
    The browser's state: the play.cpp globals that outlive one menu
    (ShowBrowser, BrowserStartDir, BrowserFilters, and the directory stack
    with DirStackSize as the array's length and DirStackUsed as `used`), and
    the open cBrowser menu (its Filter, its item texts and current index).
   */
  class Browser {
    var showBrowser: bool
    var startDir: Option<string>
    var browserFilters: Option<Table>
    var dirStack: array<string>
    var used: nat
    var filter: Option<Table>
    var items: seq<string>
    var current: int

    /** The stack fits its capacity, every entry is '/'-terminated, and the tables are terminated. */
    ghost predicate StackValid()
      reads this, dirStack
    {
      && used <= dirStack.Length
      && AllDirPrefixes(dirStack[..used])
      && (filter.Some? ==> Terminated(filter.value))
      && (browserFilters.Some? ==> Terminated(browserFilters.value))
      && (startDir.Some? ==> |startDir.value| > 0)
    }

    /** Besides, a requested browser without a start directory has a stack to reopen. */
    ghost predicate Valid()
      reads this, dirStack
    {
      StackValid() && (showBrowser && startDir.None? ==> used >= 1)
    }

    /** The directory stack, innermost first. */
    function Stack(): (s: seq<string>)
      reads this, dirStack
      requires used <= dirStack.Length
      ensures |s| == used
    {
      dirStack[..used]
    }

    /** The statics as the program starts: no stack, browser not requested. */
    constructor ()
      ensures Valid()
      ensures Stack() == [] && dirStack.Length == 0 && fresh(dirStack)
      ensures !showBrowser && startDir.None? && browserFilters.None?
      ensures filter.None? && items == [] && current == -1
    {
      showBrowser := false;
      startDir := None;
      browserFilters := None;
      dirStack := new string[0];
      used := 0;
      filter := None;
      items := [];
      current := -1;
    }

    /**
      The play menu's browse entries: request the browser, starting once at
      `root`, with the given filter table.
     */
    method RequestBrowser(root: string, filters: Option<Table>)
      requires Valid()
      requires |root| > 0
      requires filters.Some? ==> Terminated(filters.value)
      modifies this
      ensures Valid()
      ensures showBrowser && startDir == Some(root) && browserFilters == filters
      ensures dirStack == old(dirStack) && Stack() == old(Stack())
      ensures filter == old(filter) && items == old(items) && current == old(current)
    {
      showBrowser := true;
      startDir := Some(root);
      browserFilters := filters;
    }

    /**
      CreateMenu: clears the menu, adds the current path as placeholder when
      the stack is deeper than one, then the directory scan and the filtered
      file scan of the current path; scan errors only leave items out.
     */
    method CreateMenu(fs: FileSystem)
      requires StackValid() && used >= 1
      modifies this`items, this`current
      ensures Valid()
      ensures items == MenuItems(fs, Stack(), filter)
      ensures current == DefaultCurrent(items)
    {
      items := BuildMenu(fs, dirStack[0], used > 1, filter);
      current := DefaultCurrent(items);
    }

    /** Inserts pathname at index 0, first growing the array to exactly one more entry when it is full. */
    method Push(pathname: string)
      requires StackValid() && IsDirPrefix(pathname)
      modifies this`dirStack, this`used, dirStack
      ensures StackValid()
      ensures Stack() == [pathname] + old(Stack())
      ensures old(used) < old(dirStack.Length) ==> dirStack == old(dirStack)
      ensures old(used) >= old(dirStack.Length) ==> dirStack.Length == used && fresh(dirStack)
    {
      ghost var before := Stack();
      if used >= dirStack.Length {
        dirStack := Realloc(dirStack, used, used + 1);
      }
      assert dirStack[..used] == before;
      ShiftUp(dirStack, used);
      assert dirStack[1..used + 1] == before;
      dirStack[0] := pathname;
      used := used + 1;
      assert Stack() == [pathname] + before by {
        assert dirStack[1..used] == before;
      }
    }

    /** Drops index 0 of a stack of two or more, shifting the rest down. */
    method Pop()
      requires StackValid() && used > 1
      modifies this`used, dirStack
      ensures StackValid()
      ensures Stack() == old(Stack())[1..]
    {
      ghost var before := Stack();
      ShiftDown(dirStack, used);
      used := used - 1;
      assert Stack() == before[1..];
    }

    /**
      NewDir: pushes the '/'-terminated copy of path at index 0, shifting the
      older entries up, grows the capacity to exactly one more entry when it
      is full, adopts the filter and rebuilds the menu.
     */
    method NewDir(fs: FileSystem, path: string, newFilter: Option<Table>)
      requires StackValid()
      requires |path| > 0
      requires newFilter.Some? ==> Terminated(newFilter.value)
      modifies this, dirStack
      ensures Valid()
      ensures Stack() == [Normalize(path)] + old(Stack())
      ensures used == old(used) + 1 && dirStack.Length >= used
      ensures old(used) < old(dirStack.Length) ==> dirStack == old(dirStack)
      ensures old(used) >= old(dirStack.Length) ==> dirStack.Length == used && fresh(dirStack)
      ensures filter == newFilter
      ensures items == MenuItems(fs, Stack(), filter) && current == DefaultCurrent(items)
      ensures showBrowser == old(showBrowser) && startDir == old(startDir) && browserFilters == old(browserFilters)
    {
      var pathname := Normalize(path);
      Push(pathname);
      filter := newFilter;
      CreateMenu(fs);
    }

    /**
      The cBrowser constructor: with a start path, the stack is emptied and
      the normalised path pushed as its only entry; without one, the stack
      is kept and only the filter changes. Either way the menu is rebuilt.
     */
    method Open(fs: FileSystem, path: Option<string>, newFilter: Option<Table>)
      requires StackValid()
      requires path.Some? ==> |path.value| > 0
      requires path.None? ==> used >= 1
      requires newFilter.Some? ==> Terminated(newFilter.value)
      modifies this, dirStack
      ensures Valid()
      ensures dirStack == old(dirStack) || fresh(dirStack)
      ensures path.Some? ==> Stack() == [Normalize(path.value)]
      ensures path.None? ==> Stack() == old(Stack()) && dirStack == old(dirStack)
      ensures filter == newFilter
      ensures items == MenuItems(fs, Stack(), filter) && current == DefaultCurrent(items)
      ensures showBrowser == old(showBrowser) && startDir == old(startDir) && browserFilters == old(browserFilters)
    {
      items := [];
      current := -1;
      if path.Some? {
        used := 0;
        NewDir(fs, path.value, newFilter);
        return;
      }
      filter := newFilter;
      CreateMenu(fs);
    }

    /**
      LevelUp: at depth one or less, reports the top level and changes
      nothing; otherwise drops index 0, shifts the rest down, rebuilds the
      menu and selects the first item named like the directory left.
     */
    method LevelUp(fs: FileSystem) returns (r: OsState)
      requires Valid()
      modifies this, dirStack
      ensures Valid()
      ensures dirStack == old(dirStack)
      ensures old(used) <= 1 ==>
        && r == OsEnd && Stack() == old(Stack())
        && items == old(items) && current == old(current) && filter == old(filter)
      ensures old(used) > 1 ==>
        && r == OsContinue && Stack() == old(Stack())[1..]
        && filter == old(filter)
        && items == MenuItems(fs, Stack(), filter)
        && current == Reselect(items, old(Stack())[0])
      ensures showBrowser == old(showBrowser) && startDir == old(startDir) && browserFilters == old(browserFilters)
    {
      if used <= 1 {
        return OsEnd;
      }
      var down := dirStack[0];
      Pop();
      CreateMenu(fs);
      var name := DescendedName(down);
      if name.Some? {
        var found := FindItem(items, name.value);
        if found.Some? {
          current := found.value;
        }
      }
      return OsContinue;
    }

    /**
      The push/pop round trip: entering the subdirectory t of the current
      path (as Selected does) and climbing back with LevelUp restores the
      stack, lists the same directory again and selects t when it is listed.
     */
    method EnterThenLevelUp(fs: FileSystem, t: string)
      requires Valid() && used >= 1 && IsComponent(t)
      modifies this, dirStack
      ensures Valid()
      ensures Stack() == old(Stack()) && filter == old(filter)
      ensures items == MenuItems(fs, Stack(), filter)
      ensures t in items ==> 0 <= current < |items| && items[current] == t
      ensures t !in items ==> current == DefaultCurrent(items)
    {
      ghost var prefix := dirStack[0];
      NewDir(fs, dirStack[0] + t + "/", filter);
      assert Normalize(prefix + t + "/") == prefix + t + "/";
      var r := LevelUp(fs);
      ReselectFindsChild(items, prefix, t);
    }

    /**
      Selected: carries out Decide for the current item; a played path is
      returned in `played` (PlayFile) and leaves the stack alone.
     */
    method Selected(fs: FileSystem, avfs: bool) returns (r: OsState, played: Option<string>)
      requires Valid() && used >= 1
      requires 0 <= current < |items|
      modifies this, dirStack
      ensures Valid()
      ensures dirStack == old(dirStack) || fresh(dirStack)
      ensures showBrowser == old(showBrowser) && startDir == old(startDir) && browserFilters == old(browserFilters)
      ensures filter == old(filter)
      ensures old(Decide(fs, avfs, Stack(), items, current)) == GoUp ==>
        && r == OsContinue && played.None?
        && Stack() == old(Stack())[1..]
        && items == MenuItems(fs, Stack(), filter)
        && current == Reselect(items, old(Stack())[0])
      ensures old(Decide(fs, avfs, Stack(), items, current)).Descend? ==>
        && r == OsContinue && played.None?
        && Stack() == [Normalize(old(Decide(fs, avfs, Stack(), items, current)).path)] + old(Stack())
        && items == MenuItems(fs, Stack(), filter)
        && current == DefaultCurrent(items)
      ensures old(Decide(fs, avfs, Stack(), items, current)).PlayFile? ==>
        && r == OsEnd && played == Some(old(Decide(fs, avfs, Stack(), items, current)).path)
        && Stack() == old(Stack()) && items == old(items) && current == old(current)
    {
      var text := items[current];
      if current == 0 && used > 1 {
        r := LevelUp(fs);
        return r, None;
      }
      var filename := dirStack[0] + text;
      if IsDirectory(fs, filename) == 0 {
        if IsArchive(avfs, filename) != 0 {
          NewDir(fs, filename + "#", filter);
          return OsContinue, None;
        }
        return OsEnd, Some(filename);
      }
      if text == "AUDIO_TS" || text == "VIDEO_TS" {
        return OsEnd, Some("dvdnav:///" + dirStack[0]);
      }
      NewDir(fs, filename + "/", filter);
      return OsContinue, None;
    }

    /**
      cBrowser::ProcessKey, given the state the host menu's own key handling
      produced: an unhandled Ok selects, an unhandled Back climbs, and a Back
      the host reports climbs too, leaving the browser (ShowBrowser cleared,
      osPlugin) at the top level.
     */
    method ProcessKey(fs: FileSystem, avfs: bool, state: OsState, key: Key) returns (r: OsState, played: Option<string>)
      requires Valid()
      requires state == OsUnknown && key == Ok ==> used >= 1 && 0 <= current < |items|
      modifies this, dirStack
      ensures Valid()
      ensures dirStack == old(dirStack) || fresh(dirStack)
      ensures filter == old(filter)
      ensures state == OsUnknown && key == Ok && old(Decide(fs, avfs, Stack(), items, current)) == GoUp ==>
        && r == OsContinue && played.None?
        && Stack() == old(Stack())[1..]
        && items == MenuItems(fs, Stack(), filter)
        && current == Reselect(items, old(Stack())[0])
      ensures state == OsUnknown && key == Ok && old(Decide(fs, avfs, Stack(), items, current)).Descend? ==>
        && r == OsContinue && played.None?
        && Stack() == [Normalize(old(Decide(fs, avfs, Stack(), items, current)).path)] + old(Stack())
        && items == MenuItems(fs, Stack(), filter)
        && current == DefaultCurrent(items)
      ensures state == OsUnknown && key == Ok && old(Decide(fs, avfs, Stack(), items, current)).PlayFile? ==>
        && r == OsEnd && played == Some(old(Decide(fs, avfs, Stack(), items, current)).path)
        && Stack() == old(Stack()) && items == old(items) && current == old(current)
      ensures (state == OsBack || (state == OsUnknown && key == Back)) && old(used) > 1 ==>
        && r == OsContinue && played.None?
        && Stack() == old(Stack())[1..]
        && items == MenuItems(fs, Stack(), filter)
        && current == Reselect(items, old(Stack())[0])
      ensures (state == OsBack || (state == OsUnknown && key == Back)) && old(used) <= 1 ==>
        && played.None?
        && Stack() == old(Stack()) && items == old(items) && current == old(current)
      ensures state == OsBack && old(used) <= 1 ==> r == OsPlugin && !showBrowser
      ensures state == OsUnknown && key == Back && old(used) <= 1 ==> r == OsEnd
      ensures state != OsUnknown && state != OsBack ==>
        r == state && played.None? && Stack() == old(Stack()) && items == old(items) && current == old(current)
      ensures state != OsBack || old(used) > 1 ==> showBrowser == old(showBrowser)
      ensures state == OsUnknown && key == Other ==>
        r == OsUnknown && played.None? && Stack() == old(Stack()) && items == old(items) && current == old(current)
      ensures startDir == old(startDir) && browserFilters == old(browserFilters)
    {
      played := None;
      match state {
        case OsUnknown =>
          if key == Ok {
            r, played := Selected(fs, avfs);
          } else if key == Back {
            r := LevelUp(fs);
          } else {
            r := state;
          }
        case OsBack =>
          r := LevelUp(fs);
          if r == OsEnd {
            showBrowser := false;
            r := OsPlugin;
          }
        case _ =>
          r := state;
      }
    }

    /**
      The main menu action: while the browser is requested, opens it with the
      start directory, which is handed out only once (then cleared), and the
      requested filter; otherwise opens the play menu.
     */
    method MainMenuAction(fs: FileSystem) returns (kind: MenuKind)
      requires Valid()
      modifies this, dirStack
      ensures Valid()
      ensures dirStack == old(dirStack) || fresh(dirStack)
      ensures kind == (if old(showBrowser) then BrowserMenu else PlayMenu)
      ensures old(showBrowser) ==> startDir.None? && filter == browserFilters
      ensures old(showBrowser) && old(startDir).Some? ==> Stack() == [Normalize(old(startDir).value)]
      ensures old(showBrowser) && old(startDir).None? ==> Stack() == old(Stack())
      ensures old(showBrowser) ==> items == MenuItems(fs, Stack(), filter) && current == DefaultCurrent(items)
      ensures !old(showBrowser) ==> filter == old(filter) && items == old(items) && current == old(current)
      ensures !old(showBrowser) ==> startDir == old(startDir) && Stack() == old(Stack())
      ensures showBrowser == old(showBrowser) && browserFilters == old(browserFilters)
    {
      if showBrowser {
        var start := startDir;
        startDir := None;
        Open(fs, start, browserFilters);
        return BrowserMenu;
      }
      return PlayMenu;
    }
  }

  /**
    The plugin's own call sequence: the play menu requests the browser at
    root, the main menu action opens it there, and the host hands it a key
    it does not handle; the browser stays open at the normalised root.
   */
  method BrowseSession(fs: FileSystem, root: string) returns (kind: MenuKind, r: OsState, stack: seq<string>)
    requires |root| > 0
    ensures kind == BrowserMenu && r == OsUnknown
    ensures stack == [Normalize(root)]
  {
    var b := new Browser();
    b.RequestBrowser(root, None);
    kind := b.MainMenuAction(fs);
    var played;
    r, played := b.ProcessKey(fs, false, OsUnknown, Other);
    stack := b.dirStack[..b.used];
  }
}
