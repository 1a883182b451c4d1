/** The absent value of a C pointer. */
module Wrappers {
  datatype Option<T> = None | Some(value: T)
}

/**
  Name filter tables: the NameFilter record of readdir.h, the case-insensitive
  suffix test that both the archive detector and the file filter run over such
  a table, and the four constant tables (archives in readdir.c; video, audio
  and image in play.cpp).
 */
module Suffix {
  import opened Wrappers

  /** One table entry: the suffix length and the suffix; a None string is the {0, NULL} terminator. */
  datatype NameFilter = NameFilter(length: nat, str: Option<string>)

  /** A filter table, read up to its first terminator. */
  type Table = seq<NameFilter>

  /** The FILTER(x) macro: the length is sizeof(x) - 1, the string's length. */
  function Filter(s: string): (f: NameFilter)
    ensures f.str == Some(s) && f.length == |s|
  {
    NameFilter(|s|, Some(s))
  }

  /** The {0, NULL} entry that ends every table. */
  const End := NameFilter(0, None)

  /** Every entry but the last is a suffix whose Length is its strlen, and the last is {0, NULL}. */
  predicate WellFormed(t: Table) {
    && |t| >= 1
    && t[|t| - 1] == End
    && forall k :: 0 <= k < |t| - 1 ==> t[k].str.Some? && t[k].length == |t[k].str.value|
  }

  /** The suffixes a well-formed table lists, in order. */
  function Suffixes(t: Table): (s: seq<string>)
    requires WellFormed(t)
    ensures |s| == |t| - 1
    ensures forall k :: 0 <= k < |s| ==> t[k].str == Some(s[k])
  {
    seq(|t| - 1, k requires 0 <= k < |t| - 1 => t[k].str.value)
  }

  /** ASCII tolower, as strcasecmp applies it in the C locale. */
  function ToLower(c: char): char {
    if 'A' <= c <= 'Z' then (c as int + 32) as char else c
  }

  /** strcasecmp(a, b) == 0 for strings without NUL. */
  predicate EqualIgnoringCase(a: string, b: string) {
    |a| == |b| && forall i :: 0 <= i < |a| ==> ToLower(a[i]) == ToLower(b[i])
  }

  /** The reference suffix test: the last |suffix| characters of name equal suffix, ignoring ASCII case. */
  predicate EndsWithIgnoringCase(name: string, suffix: string) {
    |name| >= |suffix| && EqualIgnoringCase(name[|name| - |suffix|..], suffix)
  }

  /**
    One step of the table loop: len >= Length and strcasecmp on the tail of
    the name that starts Length characters before its end.
   */
  predicate EntryMatches(name: string, e: NameFilter)
    requires e.str.Some?
  {
    |name| >= e.length && EqualIgnoringCase(name[|name| - e.length..], e.str.value)
  }

  /** Some entry before the terminator. */
  predicate Terminated(t: Table) {
    exists k :: 0 <= k < |t| && t[k].str.None?
  }

  /** Entries 0..k of the table are all real entries, so the loop reaches entry k. */
  predicate BeforeTerminator(t: Table, k: int) {
    forall j :: 0 <= j <= k && j < |t| ==> t[j].str.Some?
  }

  /** The table loop: walk the entries until the terminator, stop at the first match. */
  function MatchesTable(name: string, t: Table): (r: bool)
    requires Terminated(t)
    ensures r ==> exists k :: 0 <= k < |t| && BeforeTerminator(t, k) && EntryMatches(name, t[k])
    ensures t[0].str.None? ==> !r
    decreases |t|
  {
    if t[0].str.None? then false
    else
      assert Terminated(t[1..]) by {
        var k :| 0 <= k < |t| && t[k].str.None?;
        assert k > 0 && t[1..][k - 1] == t[k];
      }
      var later := MatchesTable(name, t[1..]);
      assert later ==> exists k :: 0 <= k < |t| && BeforeTerminator(t, k) && EntryMatches(name, t[k]) by {
        if later {
          var k :| 0 <= k < |t[1..]| && BeforeTerminator(t[1..], k) && EntryMatches(name, t[1..][k]);
          assert t[k + 1] == t[1..][k];
          forall j | 0 <= j <= k + 1 ensures t[j].str.Some? {
            if j > 0 { assert t[j] == t[1..][j - 1]; }
          }
        }
      }
      assert EntryMatches(name, t[0]) ==>
        exists k :: 0 <= k < |t| && BeforeTerminator(t, k) && EntryMatches(name, t[k]) by {
        if EntryMatches(name, t[0]) {
          assert BeforeTerminator(t, 0);
        }
      }
      EntryMatches(name, t[0]) || later
  }

  lemma WellFormedIsTerminated(t: Table)
    requires WellFormed(t)
    ensures Terminated(t)
  {
    assert t[|t| - 1].str.None?;
  }

  /** On a well-formed table the loop answers exactly the reference test over the listed suffixes. */
  lemma {:induction false} MatchesTableSpec(name: string, t: Table)
    requires WellFormed(t)
    ensures Terminated(t)
    ensures MatchesTable(name, t) <==> exists s :: s in Suffixes(t) && EndsWithIgnoringCase(name, s)
    decreases |t|
  {
    WellFormedIsTerminated(t);
    if |t| == 1 {
      assert Suffixes(t) == [];
    } else {
      var rest := t[1..];
      assert WellFormed(rest) by {
        forall k | 0 <= k < |rest| - 1
          ensures rest[k].str.Some? && rest[k].length == |rest[k].str.value|
        {
          assert rest[k] == t[k + 1];
        }
      }
      MatchesTableSpec(name, rest);
      var first := t[0].str.value;
      assert Suffixes(t) == [first] + Suffixes(rest);
      assert EntryMatches(name, t[0]) <==> EndsWithIgnoringCase(name, first);
      if EndsWithIgnoringCase(name, first) {
        assert first in Suffixes(t);
      }
      if s :| s in Suffixes(t) && EndsWithIgnoringCase(name, s) {
        assert s == first || s in Suffixes(rest);
      }
    }
  }

  /** Archive suffixes (readdir.c, inside IsArchive). */
  const ArchiveFilters: Table := [
    Filter(".cbz"), Filter(".cbr"), Filter(".zip"), Filter(".rar"),
    Filter(".tar"), Filter(".tar.gz"), Filter(".tgz"), End]

  /** Video suffixes (play.cpp). */
  const VideoFilters: Table := [
    Filter(".ts"), Filter(".avi"), Filter(".flv"), Filter(".iso"),
    Filter(".m4v"), Filter(".mkv"), Filter(".mov"), Filter(".mp4"),
    Filter(".mpg"), Filter(".vdr"), Filter(".vob"), Filter(".wmv"), End]

  /** Audio suffixes (play.cpp). */
  const AudioFilters: Table := [
    Filter(".flac"), Filter(".mp3"), Filter(".ogg"), Filter(".wav"), End]

  /** Image and comic suffixes (play.cpp). */
  const ImageFilters: Table := [
    Filter(".cbr"), Filter(".cbz"), Filter(".zip"), Filter(".rar"),
    Filter(".jpg"), Filter(".png"), End]

  /** The archive table is well formed and lists exactly these suffixes. */
  lemma ArchiveTableWellFormed()
    ensures WellFormed(ArchiveFilters)
    ensures Suffixes(ArchiveFilters) == [".cbz", ".cbr", ".zip", ".rar", ".tar", ".tar.gz", ".tgz"]
  {
  }

  /** The three browser tables are well formed and list exactly these suffixes. */
  lemma BrowserTablesWellFormed()
    ensures WellFormed(VideoFilters) && WellFormed(AudioFilters) && WellFormed(ImageFilters)
    ensures Suffixes(VideoFilters) ==
      [".ts", ".avi", ".flv", ".iso", ".m4v", ".mkv", ".mov", ".mp4", ".mpg", ".vdr", ".vob", ".wmv"]
    ensures Suffixes(AudioFilters) == [".flac", ".mp3", ".ogg", ".wav"]
    ensures Suffixes(ImageFilters) == [".cbr", ".cbz", ".zip", ".rar", ".jpg", ".png"]
  {
  }

  /** The name ends with one of the archive suffixes, ignoring case. */
  predicate HasArchiveSuffix(filename: string) {
    exists s :: s in Suffixes(ArchiveFilters) && EndsWithIgnoringCase(filename, s)
  }

  /**
    IsArchive: 1 when archive support is compiled in (the USE_AVFS switch,
    here the parameter avfs) and the file name ends with one of the archive
    suffixes, ignoring case; 0 otherwise.
   */
  function IsArchive(avfs: bool, filename: string): (r: int)
    ensures r == 0 || r == 1
    ensures r == 1 <==> avfs && HasArchiveSuffix(filename)
  {
    ArchiveTableWellFormed();
    MatchesTableSpec(filename, ArchiveFilters);
    if avfs && MatchesTable(filename, ArchiveFilters) then 1 else 0
  }

  /** Archive detection ignores case: "Comic.CBZ" is an archive when archive support is on. */
  lemma IsArchiveIgnoresCase()
    ensures IsArchive(true, "Comic.CBZ") == 1
    ensures IsArchive(false, "Comic.CBZ") == 0
  {
    ArchiveTableWellFormed();
    assert EndsWithIgnoringCase("Comic.CBZ", ".cbz") by {
      assert "Comic.CBZ"[5..] == ".CBZ";
    }
    assert ".cbz" in Suffixes(ArchiveFilters);
  }
}
