/**
  The directory aggregator, `process_dir`: a depth-first, post-order walk of
  a directory tree that collects at most one (directory, artist, album)
  record per directory.

  The walk is specified by the function `Aggregate`, which builds the
  records of a directory as the records of its subdirectories, in sorted
  path order, followed by the directory's own record; the method
  `ProcessDir` follows the source's loops and appends to one shared result
  list, and is proved to append exactly `Aggregate`.
 */
module DirWalk {
  import opened Wrappers
  import opened PyStr
  import opened PosixPath

  /** What a directory path holds when the walk comes to it. */
  datatype Listing =
    | Missing                      // `os.path.exists` is false
    | Unreadable                   // `os.listdir` raises OSError
    | Listed(entries: seq<Entry>)  // the entries, in the order `os.listdir` gives them

  /** An entry of a directory: one for which `os.path.isdir` holds, or anything else. */
  datatype Entry = File(name: string) | Dir(name: string, listing: Listing)

  /** The two tag readers: EasyID3 for `.mp3`, EasyMP4 for `.m4a`. */
  datatype AudioFormat = Mp3 | M4a

  /** What a tag reader gives for a file: an exception, or its artist and album (None where it has none). */
  datatype TagRead = ReadError | Tags(artist: Option<string>, album: Option<string>)

  /** The tag library, applied to the file's full path. */
  type TagReader = (AudioFormat, string) -> TagRead

  /** One result: a directory and the artist and album found in it. */
  datatype AlbumRecord = AlbumRecord(dir: string, artist: string, album: string)

  /** Names are as `os.listdir` gives them, unique in their directory, all the way down. */
  ghost predicate WellFormed(listing: Listing)
    decreases listing
  {
    listing.Listed? ==>
      (forall i :: 0 <= i < |listing.entries| ==> ValidName(listing.entries[i].name)) &&
      (forall i, j :: 0 <= i < j < |listing.entries| ==> listing.entries[i].name != listing.entries[j].name) &&
      (forall i :: 0 <= i < |listing.entries| && listing.entries[i].Dir? ==> WellFormed(listing.entries[i].listing))
  }

  /** The full paths of the subdirectory entries, in listing order. */
  function SubdirPaths(path: string, entries: seq<Entry>): seq<string>
  {
    if entries == [] then []
    else
      var last := entries[|entries| - 1];
      SubdirPaths(path, entries[..|entries| - 1]) + (if last.Dir? then [Join(path, last.name)] else [])
  }

  /** The names of the other entries, in listing order. */
  function FileNames(entries: seq<Entry>): seq<string>
  {
    if entries == [] then []
    else
      var last := entries[|entries| - 1];
      FileNames(entries[..|entries| - 1]) + (if last.File? then [last.name] else [])
  }

  /** The subdirectory entry that a full path names, as the file system resolves it. */
  function Resolve(path: string, entries: seq<Entry>, sub: string): (r: Option<Entry>)
    ensures r.Some? ==> r.value in entries && r.value.Dir? && Join(path, r.value.name) == sub
    ensures r.None? ==> forall e :: e in entries && e.Dir? ==> Join(path, e.name) != sub
  {
    if entries == [] then None
    else if entries[0].Dir? && Join(path, entries[0].name) == sub then Some(entries[0])
    else Resolve(path, entries[1..], sub)
  }

  /** The tag reader a file name calls for, by its `splitext` extension. */
  function FormatOf(file: string): Option<AudioFormat>
  {
    var ext := Extension(file);
    if ext == ".m4a" then Some(M4a) else if ext == ".mp3" then Some(Mp3) else None
  }

  /**
    The artist and album a file of directory `path` yields, missing values
    read as empty, when at least one of them is non-empty; None for a file
    that is not audio, whose tags cannot be read, or whose tags are empty.
   */
  function Usable(path: string, file: string, reader: TagReader): Option<(string, string)>
  {
    match FormatOf(file)
    case None => None
    case Some(format) =>
      match reader(format, Join(path, file))
      case ReadError => None
      case Tags(artist, album) =>
        var a := artist.GetOr("");
        var b := album.GetOr("");
        if a != "" || b != "" then Some((a, b)) else None
  }

  /** The artist and album of the first file, in the given order, that yields them. */
  function FirstTags(path: string, files: seq<string>, reader: TagReader): Option<(string, string)>
  {
    if files == [] then None
    else if Usable(path, files[0], reader).Some? then Usable(path, files[0], reader)
    else FirstTags(path, files[1..], reader)
  }

  /** The record of directory `path` that its first usable file gives. */
  function FirstRecord(path: string, files: seq<string>, reader: TagReader): Option<AlbumRecord>
  {
    match FirstTags(path, files, reader)
    case None => None
    case Some(tags) => Some(AlbumRecord(path, tags.0, tags.1))
  }

  /** One of the configured cover file names is among the directory's own files. */
  predicate CoverPresent(coverFiles: seq<string>, files: seq<string>)
  {
    exists c :: c in coverFiles && c in files
  }

  /**
    The record a directory contributes itself: none when a cover file is
    among its files, otherwise that of its first usable file in sorted order.
   */
  function OwnRecord(path: string, entries: seq<Entry>, coverFiles: seq<string>, reader: TagReader): Option<AlbumRecord>
  {
    if CoverPresent(coverFiles, FileNames(entries)) then None
    else FirstRecord(path, SortStrings(FileNames(entries)), reader)
  }

  function OptionSeq<T>(o: Option<T>): seq<T>
  {
    if o.Some? then [o.value] else []
  }

  /** The records the walk of `path` adds: those of its subdirectories in sorted order, then its own. */
  function Aggregate(path: string, listing: Listing, coverFiles: seq<string>, reader: TagReader): seq<AlbumRecord>
    decreases listing, 1, 0
  {
    match listing
    case Missing => []
    case Unreadable => []
    case Listed(entries) =>
      var dirs := SortStrings(SubdirPaths(path, entries));
      AggregateSubdirs(path, entries, dirs, coverFiles, reader) + OptionSeq(OwnRecord(path, entries, coverFiles, reader))
  }

  /** The records of the subdirectories with the given full paths, one after the other. */
  function AggregateSubdirs(path: string, entries: seq<Entry>, dirs: seq<string>, coverFiles: seq<string>,
                            reader: TagReader): seq<AlbumRecord>
    decreases Listed(entries), 0, |dirs|
  {
    if dirs == [] then []
    else SubdirRecords(path, entries, dirs[0], coverFiles, reader) + AggregateSubdirs(path, entries, dirs[1..], coverFiles, reader)
  }

  /** The records of the one subdirectory that a full path names. */
  function SubdirRecords(path: string, entries: seq<Entry>, dir: string, coverFiles: seq<string>,
                         reader: TagReader): seq<AlbumRecord>
    decreases Listed(entries), 0, 0
  {
    match Resolve(path, entries, dir)
    case None => []
    case Some(e) => Aggregate(dir, e.listing, coverFiles, reader)
  }

  /** A file is read as MP3 exactly when its name ends in `.mp3` after something other than dots. */
  lemma FormatMp3(name: string)
    requires ValidName(name)
    ensures FormatOf(name) == Some(Mp3) <==> AudioName(name, ".mp3")
  {
    ExtensionOfName(name, ".mp3");
  }

  /** A file is read as MP4 exactly when its name ends in `.m4a` after something other than dots. */
  lemma FormatM4a(name: string)
    requires ValidName(name)
    ensures FormatOf(name) == Some(M4a) <==> AudioName(name, ".m4a")
  {
    ExtensionOfName(name, ".m4a");
  }

  /** The name ends in the extension, and something other than a dot stands before it. */
  ghost predicate AudioName(name: string, ext: string)
  {
    |name| > |ext| && name[|name| - |ext|..] == ext && exists k :: 0 <= k < |name| - |ext| && name[k] != '.'
  }

  /** First match wins: the tags come from a usable file with no usable file before it. */
  lemma {:induction false} FirstTagsIsFirstUsable(path: string, files: seq<string>, reader: TagReader, i: nat)
    requires i < |files| && Usable(path, files[i], reader).Some?
    requires forall j :: 0 <= j < i ==> Usable(path, files[j], reader).None?
    ensures FirstTags(path, files, reader) == Usable(path, files[i], reader)
  {
    if i > 0 {
      var tail := files[1..];
      assert Usable(path, files[0], reader).None?;
      assert tail[i - 1] == files[i];
      assert forall j :: 0 <= j < i - 1 ==> tail[j] == files[j + 1];
      FirstTagsIsFirstUsable(path, tail, reader, i - 1);
    }
  }

  /** Tags found come from some usable file, and every file before it was passed over. */
  lemma {:induction false} FirstTagsHasSource(path: string, files: seq<string>, reader: TagReader)
    requires FirstTags(path, files, reader).Some?
    ensures exists i :: 0 <= i < |files| && FirstTags(path, files, reader) == Usable(path, files[i], reader) &&
                        forall j :: 0 <= j < i ==> Usable(path, files[j], reader).None?
  {
    if Usable(path, files[0], reader).None? {
      var tail := files[1..];
      FirstTagsHasSource(path, tail, reader);
      var i :| 0 <= i < |tail| && FirstTags(path, tail, reader) == Usable(path, tail[i], reader) &&
        forall j :: 0 <= j < i ==> Usable(path, tail[j], reader).None?;
      FirstTagsShift(path, files, reader, i);
      FirstTagsSource(path, files, reader, i + 1);
    } else {
      FirstTagsSource(path, files, reader, 0);
    }
  }

  /** A source in the tail, behind an unusable first file, is a source in the whole list. */
  lemma FirstTagsShift(path: string, files: seq<string>, reader: TagReader, i: nat)
    requires |files| > 0 && Usable(path, files[0], reader).None?
    requires i < |files| - 1 && FirstTags(path, files[1..], reader) == Usable(path, files[1..][i], reader)
    requires forall j :: 0 <= j < i ==> Usable(path, files[1..][j], reader).None?
    ensures FirstTags(path, files, reader) == Usable(path, files[i + 1], reader)
    ensures forall j :: 0 <= j < i + 1 ==> Usable(path, files[j], reader).None?
  {
  }

  /** A file whose tags are the result, with only unusable files before it, witnesses where the tags come from. */
  lemma FirstTagsSource(path: string, files: seq<string>, reader: TagReader, k: nat)
    requires k < |files| && FirstTags(path, files, reader) == Usable(path, files[k], reader)
    requires forall j :: 0 <= j < k ==> Usable(path, files[j], reader).None?
    ensures exists i :: 0 <= i < |files| && FirstTags(path, files, reader) == Usable(path, files[i], reader) &&
                        forall j :: 0 <= j < i ==> Usable(path, files[j], reader).None?
  {
  }

  /** No tags exactly when no file is a readable audio file with a non-empty artist or album. */
  lemma {:induction false} FirstTagsNone(path: string, files: seq<string>, reader: TagReader)
    ensures FirstTags(path, files, reader).None? <==> forall i :: 0 <= i < |files| ==> Usable(path, files[i], reader).None?
  {
    if files != [] {
      FirstTagsNone(path, files[1..], reader);
      assert forall i :: 1 <= i < |files| ==> files[i] == files[1..][i - 1];
    }
  }

  /** A name is among the file names exactly when some non-directory entry has it. */
  lemma {:induction false} FileNamesMembers(entries: seq<Entry>, x: string)
    ensures x in FileNames(entries) <==> exists i :: 0 <= i < |entries| && entries[i].File? && entries[i].name == x
  {
    if entries != [] {
      var init := entries[..|entries| - 1];
      FileNamesMembers(init, x);
      assert forall i :: 0 <= i < |init| ==> init[i] == entries[i];
    }
  }

  /** A path is among the subdirectory paths exactly when it is the joined path of some subdirectory entry. */
  lemma {:induction false} SubdirPathsMembers(path: string, entries: seq<Entry>, x: string)
    ensures x in SubdirPaths(path, entries) <==>
      exists i :: 0 <= i < |entries| && entries[i].Dir? && Join(path, entries[i].name) == x
  {
    if entries != [] {
      var init := entries[..|entries| - 1];
      SubdirPathsMembers(path, init, x);
      assert forall i :: 0 <= i < |init| ==> init[i] == entries[i];
    }
  }

  /** Distinct valid entry names give distinct subdirectory paths. */
  lemma {:induction false} SubdirPathsDistinct(path: string, entries: seq<Entry>)
    requires forall i :: 0 <= i < |entries| ==> ValidName(entries[i].name)
    requires forall i, j :: 0 <= i < j < |entries| ==> entries[i].name != entries[j].name
    ensures Distinct(SubdirPaths(path, entries))
  {
    if entries != [] {
      var init := entries[..|entries| - 1];
      var last := entries[|entries| - 1];
      SubdirPathsDistinct(path, init);
      if last.Dir? {
        var x := Join(path, last.name);
        forall i | 0 <= i < |init| && init[i].Dir?
          ensures Join(path, init[i].name) != x
        {
          assert init[i] == entries[i];
          JoinInjective(path, init[i].name, last.name);
        }
        SubdirPathsMembers(path, init, x);
      }
    }
  }

  /** The cover check fires exactly when some non-directory entry bears one of the cover file names. */
  lemma CoverPresentIff(entries: seq<Entry>, coverFiles: seq<string>)
    ensures CoverPresent(coverFiles, FileNames(entries)) <==>
      exists i :: 0 <= i < |entries| && entries[i].File? && entries[i].name in coverFiles
  {
    if CoverPresent(coverFiles, FileNames(entries)) {
      var c :| c in coverFiles && c in FileNames(entries);
      FileNamesMembers(entries, c);
    }
    if exists i :: 0 <= i < |entries| && entries[i].File? && entries[i].name in coverFiles {
      var i :| 0 <= i < |entries| && entries[i].File? && entries[i].name in coverFiles;
      FileNamesMembers(entries, entries[i].name);
    }
  }

  /** Sorting the file names does not change whether a cover file is among them. */
  lemma CoverPresentSorted(coverFiles: seq<string>, files: seq<string>)
    ensures CoverPresent(coverFiles, SortStrings(files)) <==> CoverPresent(coverFiles, files)
  {
    SortStringsPermutes(files);
    if CoverPresent(coverFiles, files) {
      var c :| c in coverFiles && c in files;
      assert c in multiset(SortStrings(files));
    }
    if CoverPresent(coverFiles, SortStrings(files)) {
      var c :| c in coverFiles && c in SortStrings(files);
      assert c in multiset(files);
    }
  }

  /** A directory holding a cover file adds only its subdirectories' records. */
  lemma SkipWhenCoverPresent(path: string, entries: seq<Entry>, coverFiles: seq<string>, reader: TagReader, i: nat)
    requires i < |entries| && entries[i].File? && entries[i].name in coverFiles
    ensures Aggregate(path, Listed(entries), coverFiles, reader)
         == AggregateSubdirs(path, entries, SortStrings(SubdirPaths(path, entries)), coverFiles, reader)
  {
    CoverPresentIff(entries, coverFiles);
  }

  /** Any other directory adds, after its subdirectories' records, the record of its first usable file in sorted order. */
  lemma RecordWhenNoCover(path: string, entries: seq<Entry>, coverFiles: seq<string>, reader: TagReader)
    requires forall i :: 0 <= i < |entries| && entries[i].File? ==> entries[i].name !in coverFiles
    ensures Aggregate(path, Listed(entries), coverFiles, reader)
         == AggregateSubdirs(path, entries, SortStrings(SubdirPaths(path, entries)), coverFiles, reader)
          + OptionSeq(FirstRecord(path, SortStrings(FileNames(entries)), reader))
  {
    CoverPresentIff(entries, coverFiles);
  }

  /** No two records name the same directory. */
  ghost predicate DistinctDirs(rs: seq<AlbumRecord>)
  {
    forall i, j :: 0 <= i < j < |rs| ==> rs[i].dir != rs[j].dir
  }

  /** The walk of a listed directory, unfolded once. */
  lemma AggregateListed(path: string, entries: seq<Entry>, coverFiles: seq<string>, reader: TagReader)
    ensures Aggregate(path, Listed(entries), coverFiles, reader)
         == AggregateSubdirs(path, entries, SortStrings(SubdirPaths(path, entries)), coverFiles, reader)
          + OptionSeq(OwnRecord(path, entries, coverFiles, reader))
  {
  }

  /** The records of a non-empty list of subdirectory paths, unfolded once. */
  lemma AggregateSubdirsCons(path: string, entries: seq<Entry>, dirs: seq<string>, coverFiles: seq<string>,
                             reader: TagReader)
    requires dirs != []
    ensures AggregateSubdirs(path, entries, dirs, coverFiles, reader)
         == SubdirRecords(path, entries, dirs[0], coverFiles, reader) + AggregateSubdirs(path, entries, dirs[1..], coverFiles, reader)
  {
  }

  /** Every record is for directory `q` or one below it. */
  ghost predicate AllWithin(q: string, rs: seq<AlbumRecord>)
  {
    forall i :: 0 <= i < |rs| ==> Within(q, rs[i].dir)
  }

  /** Every record is for a directory strictly below `q`. */
  ghost predicate AllBelow(q: string, rs: seq<AlbumRecord>)
  {
    forall i :: 0 <= i < |rs| ==> Within(q, rs[i].dir) && rs[i].dir != q
  }

  /** Every record is for the path `d` of an entry, or a directory below it. */
  ghost predicate AllUnder(d: string, rs: seq<AlbumRecord>)
  {
    forall i :: 0 <= i < |rs| ==> Under(d, rs[i].dir)
  }

  /** Only the last record can be for `q` itself. */
  ghost predicate LastFor(q: string, rs: seq<AlbumRecord>)
  {
    forall i :: 0 <= i < |rs| - 1 ==> rs[i].dir != q
  }

  /** No record is for directory `r`. */
  ghost predicate NoneFor(r: string, rs: seq<AlbumRecord>)
  {
    forall i :: 0 <= i < |rs| ==> rs[i].dir != r
  }

  /** Records within the path of an entry lie strictly below its directory. */
  lemma ChildRecords(path: string, name: string, rs: seq<AlbumRecord>)
    requires ValidName(name) && AllWithin(Join(path, name), rs)
    ensures AllBelow(path, rs) && AllUnder(DirPrefix(path) + name, rs)
  {
    forall i | 0 <= i < |rs|
      ensures Within(path, rs[i].dir) && rs[i].dir != path && Under(DirPrefix(path) + name, rs[i].dir)
    {
      ChildWithin(path, name, rs[i].dir);
    }
  }

  /** Records strictly below `path` followed by at most one record for `path` are in post-order. */
  lemma OwnAfterSubdirs(path: string, subs: seq<AlbumRecord>, own: Option<AlbumRecord>)
    requires AllBelow(path, subs) && (own.Some? ==> own.value.dir == path)
    ensures AllWithin(path, subs + OptionSeq(own)) && LastFor(path, subs + OptionSeq(own))
    ensures DistinctDirs(subs) ==> DistinctDirs(subs + OptionSeq(own))
  {
  }

  /** Two lists of records for distinct directories, with no directory in common, together name each directory at most once. */
  lemma DistinctConcat(a: seq<AlbumRecord>, b: seq<AlbumRecord>)
    requires DistinctDirs(a) && DistinctDirs(b)
    requires forall i :: 0 <= i < |a| ==> NoneFor(a[i].dir, b)
    ensures DistinctDirs(a + b)
  {
  }

  /**
    The walk of `path` yields records only for `path` and directories below
    it, and the record of `path` itself, if any, comes after all the others
    (post-order).
   */
  lemma {:induction false} AggregateWithin(path: string, listing: Listing, coverFiles: seq<string>, reader: TagReader)
    requires WellFormed(listing)
    ensures AllWithin(path, Aggregate(path, listing, coverFiles, reader))
    ensures LastFor(path, Aggregate(path, listing, coverFiles, reader))
    decreases listing, 2
  {
    if listing.Listed? {
      var entries := listing.entries;
      var dirs := SortStrings(SubdirPaths(path, entries));
      AggregateListed(path, entries, coverFiles, reader);
      SubdirsWithin(path, entries, dirs, coverFiles, reader);
      OwnAfterSubdirs(path, AggregateSubdirs(path, entries, dirs, coverFiles, reader), OwnRecord(path, entries, coverFiles, reader));
    }
  }

  /** The records of subdirectories lie strictly below the directory. */
  lemma {:induction false} SubdirsWithin(path: string, entries: seq<Entry>, dirs: seq<string>,
                                         coverFiles: seq<string>, reader: TagReader)
    requires WellFormed(Listed(entries))
    ensures AllBelow(path, AggregateSubdirs(path, entries, dirs, coverFiles, reader))
    decreases Listed(entries), 1, |dirs|
  {
    if dirs != [] {
      AggregateSubdirsCons(path, entries, dirs, coverFiles, reader);
      SubdirRecordsWithin(path, entries, dirs[0], coverFiles, reader);
      SubdirsWithin(path, entries, dirs[1..], coverFiles, reader);
    }
  }

  /** The records of one subdirectory lie below the entry that its path resolves to. */
  lemma {:induction false} SubdirRecordsWithin(path: string, entries: seq<Entry>, dir: string,
                                               coverFiles: seq<string>, reader: TagReader)
    requires WellFormed(Listed(entries))
    ensures AllBelow(path, SubdirRecords(path, entries, dir, coverFiles, reader))
    ensures AllUnder(dir, SubdirRecords(path, entries, dir, coverFiles, reader))
    ensures SubdirRecords(path, entries, dir, coverFiles, reader) != [] ==> ResolvesTo(path, entries, dir)
    decreases Listed(entries), 0
  {
    var sub := Resolve(path, entries, dir);
    if sub.Some? {
      var e := sub.value;
      var m :| 0 <= m < |entries| && entries[m] == e;
      assert ValidName(e.name);
      assert dir == Join(path, e.name) == DirPrefix(path) + e.name;
      AggregateWithin(dir, e.listing, coverFiles, reader);
      ChildRecords(path, e.name, Aggregate(dir, e.listing, coverFiles, reader));
    }
  }

  /** `dir` is the path of an entry of the listing: its directory's prefix followed by a valid name. */
  ghost predicate ResolvesTo(path: string, entries: seq<Entry>, dir: string)
  {
    var sub := Resolve(path, entries, dir);
    sub.Some? && ValidName(sub.value.name) && dir == DirPrefix(path) + sub.value.name
  }

  /** A path below a subdirectory outside `dirs` is the directory of no record of `dirs`. */
  lemma {:induction false} SubdirsAvoid(path: string, entries: seq<Entry>, dirs: seq<string>, dir: string, r: string,
                                        coverFiles: seq<string>, reader: TagReader)
    requires WellFormed(Listed(entries))
    requires ResolvesTo(path, entries, dir) && dir !in dirs && Under(dir, r)
    ensures NoneFor(r, AggregateSubdirs(path, entries, dirs, coverFiles, reader))
  {
    if dirs != [] {
      var first := SubdirRecords(path, entries, dirs[0], coverFiles, reader);
      AggregateSubdirsCons(path, entries, dirs, coverFiles, reader);
      SubdirRecordsWithin(path, entries, dirs[0], coverFiles, reader);
      SubdirsAvoid(path, entries, dirs[1..], dir, r, coverFiles, reader);
      if first != [] {
        var a := Resolve(path, entries, dir).value.name;
        var b := Resolve(path, entries, dirs[0]).value.name;
        assert a != b by {
          assert dir == DirPrefix(path) + a && dirs[0] == DirPrefix(path) + b;
        }
        forall i | 0 <= i < |first|
          ensures first[i].dir != r
        {
          SegmentsDiffer(DirPrefix(path), a, b, r, first[i].dir);
        }
      }
    }
  }

  /** The walk gives each directory at most one record. */
  lemma {:induction false} AggregateDistinct(path: string, listing: Listing, coverFiles: seq<string>, reader: TagReader)
    requires WellFormed(listing)
    ensures DistinctDirs(Aggregate(path, listing, coverFiles, reader))
    decreases listing, 2
  {
    if listing.Listed? {
      var entries := listing.entries;
      var dirs := SortStrings(SubdirPaths(path, entries));
      AggregateListed(path, entries, coverFiles, reader);
      SubdirPathsDistinct(path, entries);
      SortStringsDistinct(SubdirPaths(path, entries));
      SubdirsDistinct(path, entries, dirs, coverFiles, reader);
      SubdirsWithin(path, entries, dirs, coverFiles, reader);
      OwnAfterSubdirs(path, AggregateSubdirs(path, entries, dirs, coverFiles, reader), OwnRecord(path, entries, coverFiles, reader));
    }
  }

  /** Distinct subdirectory paths give records for distinct directories. */
  lemma {:induction false} SubdirsDistinct(path: string, entries: seq<Entry>, dirs: seq<string>,
                                           coverFiles: seq<string>, reader: TagReader)
    requires WellFormed(Listed(entries)) && Distinct(dirs)
    ensures DistinctDirs(AggregateSubdirs(path, entries, dirs, coverFiles, reader))
    decreases Listed(entries), 1, |dirs|
  {
    if dirs != [] {
      var first := SubdirRecords(path, entries, dirs[0], coverFiles, reader);
      var rest := AggregateSubdirs(path, entries, dirs[1..], coverFiles, reader);
      AggregateSubdirsCons(path, entries, dirs, coverFiles, reader);
      SubdirsDistinct(path, entries, dirs[1..], coverFiles, reader);
      SubdirRecordsWithin(path, entries, dirs[0], coverFiles, reader);
      var sub := Resolve(path, entries, dirs[0]);
      if sub.Some? {
        var m :| 0 <= m < |entries| && entries[m] == sub.value;
        AggregateDistinct(dirs[0], sub.value.listing, coverFiles, reader);
      }
      assert dirs[0] !in dirs[1..];
      forall i | 0 <= i < |first|
        ensures NoneFor(first[i].dir, rest)
      {
        SubdirsAvoid(path, entries, dirs[1..], dirs[0], first[i].dir, coverFiles, reader);
      }
      DistinctConcat(first, rest);
    }
  }

  /** The file names of two lists of entries, one after the other. */
  lemma {:induction false} FileNamesConcat(a: seq<Entry>, b: seq<Entry>)
    ensures FileNames(a + b) == FileNames(a) + FileNames(b)
  {
    if b == [] {
      assert a + b == a;
    } else {
      var ab := a + b;
      assert ab[..|ab| - 1] == a + b[..|b| - 1];
      FileNamesConcat(a, b[..|b| - 1]);
    }
  }

  /** The subdirectory paths of two lists of entries, one after the other. */
  lemma {:induction false} SubdirPathsConcat(path: string, a: seq<Entry>, b: seq<Entry>)
    ensures SubdirPaths(path, a + b) == SubdirPaths(path, a) + SubdirPaths(path, b)
  {
    if b == [] {
      assert a + b == a;
    } else {
      var ab := a + b;
      assert ab[..|ab| - 1] == a + b[..|b| - 1];
      SubdirPathsConcat(path, a, b[..|b| - 1]);
    }
  }

  /** Leaving one entry out of a list leaves out its file names, and nothing else. */
  lemma FileNamesAround(e: seq<Entry>, k: nat)
    requires k < |e|
    ensures multiset(FileNames(e)) == multiset(FileNames(e[..k] + e[k + 1..])) + multiset(FileNames([e[k]]))
  {
    var before, after := e[..k], e[k + 1..];
    SplitAround(e, k);
    FileNamesConcat(before, [e[k]] + after);
    FileNamesConcat([e[k]], after);
    FileNamesConcat(before, after);
  }

  /** Listing the same entries in another order lists the same file names, each as often. */
  lemma {:induction false} FileNamesPermute(e1: seq<Entry>, e2: seq<Entry>)
    requires multiset(e1) == multiset(e2)
    ensures multiset(FileNames(e1)) == multiset(FileNames(e2))
    decreases |e1|
  {
    if e1 == [] {
      assert |multiset(e2)| == 0;
    } else {
      var n := |e1| - 1;
      var x := e1[n];
      assert x in multiset(e2);
      var k :| 0 <= k < |e2| && e2[k] == x;
      SplitAround(e1, n);
      SplitAround(e2, k);
      assert e1[..n] + e1[n + 1..] == e1[..n];
      FileNamesPermute(e1[..n], e2[..k] + e2[k + 1..]);
      FileNamesAround(e1, n);
      FileNamesAround(e2, k);
    }
  }

  /** Leaving one entry out of a list leaves out its subdirectory paths, and nothing else. */
  lemma SubdirPathsAround(path: string, e: seq<Entry>, k: nat)
    requires k < |e|
    ensures multiset(SubdirPaths(path, e)) == multiset(SubdirPaths(path, e[..k] + e[k + 1..])) + multiset(SubdirPaths(path, [e[k]]))
  {
    var before, after := e[..k], e[k + 1..];
    SplitAround(e, k);
    SubdirPathsConcat(path, before, [e[k]] + after);
    SubdirPathsConcat(path, [e[k]], after);
    SubdirPathsConcat(path, before, after);
  }

  /** Listing the same entries in another order gives the same subdirectory paths, each as often. */
  lemma {:induction false} SubdirPathsPermute(path: string, e1: seq<Entry>, e2: seq<Entry>)
    requires multiset(e1) == multiset(e2)
    ensures multiset(SubdirPaths(path, e1)) == multiset(SubdirPaths(path, e2))
    decreases |e1|
  {
    if e1 == [] {
      assert |multiset(e2)| == 0;
    } else {
      var n := |e1| - 1;
      var x := e1[n];
      assert x in multiset(e2);
      var k :| 0 <= k < |e2| && e2[k] == x;
      SplitAround(e1, n);
      SplitAround(e2, k);
      assert e1[..n] + e1[n + 1..] == e1[..n];
      SubdirPathsPermute(path, e1[..n], e2[..k] + e2[k + 1..]);
      SubdirPathsAround(path, e1, n);
      SubdirPathsAround(path, e2, k);
    }
  }


  /** Under unique valid names, the entry a path resolves to does not depend on the listing order. */
  lemma ResolvePermute(path: string, e1: seq<Entry>, e2: seq<Entry>, sub: string)
    requires WellFormed(Listed(e1)) && multiset(e1) == multiset(e2)
    ensures Resolve(path, e1, sub) == Resolve(path, e2, sub)
  {
    var r1 := Resolve(path, e1, sub);
    var r2 := Resolve(path, e2, sub);
    if r1.Some? {
      assert r1.value in multiset(e2);
    }
    if r2.Some? {
      assert r2.value in multiset(e1);
    }
    if r1.Some? && r2.Some? {
      var i :| 0 <= i < |e1| && e1[i] == r1.value;
      forall j | 0 <= j < |e1| && j != i && e1[j].Dir?
        ensures Join(path, e1[j].name) != sub
      {
        JoinInjective(path, e1[i].name, e1[j].name);
      }
    }
  }

  /** The subdirectories' records do not depend on the listing order. */
  lemma {:induction false} AggregateSubdirsPermute(path: string, e1: seq<Entry>, e2: seq<Entry>, dirs: seq<string>,
                                                   coverFiles: seq<string>, reader: TagReader)
    requires WellFormed(Listed(e1)) && multiset(e1) == multiset(e2)
    ensures AggregateSubdirs(path, e1, dirs, coverFiles, reader) == AggregateSubdirs(path, e2, dirs, coverFiles, reader)
    decreases |dirs|
  {
    if dirs != [] {
      ResolvePermute(path, e1, e2, dirs[0]);
      AggregateSubdirsPermute(path, e1, e2, dirs[1..], coverFiles, reader);
    }
  }

  /**
    The walk's records do not depend on the order in which the directory
    lists its entries: sorting the subdirectory paths and the file names
    makes them determined by the entries alone.
   */
  lemma AggregateListingOrder(path: string, e1: seq<Entry>, e2: seq<Entry>, coverFiles: seq<string>, reader: TagReader)
    requires WellFormed(Listed(e1)) && multiset(e1) == multiset(e2)
    ensures Aggregate(path, Listed(e1), coverFiles, reader) == Aggregate(path, Listed(e2), coverFiles, reader)
  {
    FileNamesPermute(e1, e2);
    SubdirPathsPermute(path, e1, e2);
    SortStringsOrderFree(FileNames(e1), FileNames(e2));
    SortStringsOrderFree(SubdirPaths(path, e1), SubdirPaths(path, e2));
    CoverPresentSorted(coverFiles, FileNames(e1));
    CoverPresentSorted(coverFiles, FileNames(e2));
    AggregateSubdirsPermute(path, e1, e2, SortStrings(SubdirPaths(path, e1)), coverFiles, reader);
  }

  /** The result list that `process_dir` appends to and passes down. */
  class AlbumList {
    var records: seq<AlbumRecord>

    constructor ()
      ensures records == []
    {
      records := [];
    }

    method Append(r: AlbumRecord)
      modifies this
      ensures records == old(records) + [r]
    {
      records := records + [r];
    }
  }

  /** The listing loop of `process_dir`: full paths of the subdirectories and names of the other entries. */
  method SplitEntries(thisDir: string, entries: seq<Entry>) returns (dirs: seq<string>, files: seq<string>)
    ensures dirs == SubdirPaths(thisDir, entries)
    ensures files == FileNames(entries)
  {
    dirs, files := [], [];
    var i := 0;
    while i < |entries|
      invariant 0 <= i <= |entries|
      invariant dirs == SubdirPaths(thisDir, entries[..i])
      invariant files == FileNames(entries[..i])
    {
      var item := entries[i];
      var itemFullPath := Join(thisDir, item.name);
      if item.Dir? {
        dirs := dirs + [itemFullPath];
      } else {
        files := files + [item.name];
      }
      assert entries[..i + 1][..i] == entries[..i];
      i := i + 1;
    }
    assert entries[..i] == entries;
  }

  /** The loop over the configured cover file names. */
  method HasCoverFile(coverFiles: seq<string>, files: seq<string>) returns (found: bool)
    ensures found == CoverPresent(coverFiles, files)
  {
    var c := 0;
    while c < |coverFiles|
      invariant 0 <= c <= |coverFiles|
      invariant forall j :: 0 <= j < c ==> coverFiles[j] !in files
    {
      if coverFiles[c] in files {
        return true;
      }
      c := c + 1;
    }
    return false;
  }

  /** The loop over the sorted file names, reading the tags of the audio ones. */
  method FindAlbumDetails(thisDir: string, files: seq<string>, reader: TagReader) returns (found: Option<AlbumRecord>)
    ensures found == FirstRecord(thisDir, files, reader)
  {
    var f := 0;
    while f < |files|
      invariant 0 <= f <= |files|
      invariant FirstTags(thisDir, files[f..], reader) == FirstTags(thisDir, files, reader)
    {
      var file := files[f];
      var fileFullPath := Join(thisDir, file);
      var fileExtension := Extension(file);
      var read := Tags(None, None);
      if fileExtension == ".m4a" {
        read := reader(M4a, fileFullPath);
      }
      if fileExtension == ".mp3" {
        read := reader(Mp3, fileFullPath);
      }
      if read.Tags? {
        var artist := read.artist.GetOr("");
        var album := read.album.GetOr("");
        if artist != "" || album != "" {
          return Some(AlbumRecord(thisDir, artist, album));
        }
      }
      assert files[f..][1..] == files[f + 1..];
      f := f + 1;
    }
    return None;
  }

  /**
    `process_dir(thisDir, results, coverFiles)`: walks the directory and
    appends to `results` exactly the records `Aggregate` gives, leaving the
    earlier ones as they were.
   */
  method ProcessDir(thisDir: string, listing: Listing, results: AlbumList, coverFiles: seq<string>, reader: TagReader)
    modifies results
    ensures results.records == old(results.records) + Aggregate(thisDir, listing, coverFiles, reader)
    decreases listing, 2
  {
    if !listing.Listed? {
      return;
    }
    var entries := listing.entries;
    var dirs, files := SplitEntries(thisDir, entries);
    dirs := SortStrings(dirs);
    files := SortStrings(files);
    ghost var own := OwnRecord(thisDir, entries, coverFiles, reader);
    AggregateListed(thisDir, entries, coverFiles, reader);
    CoverPresentSorted(coverFiles, FileNames(entries));
    // recurse into subdirectories first
    ProcessSubdirs(thisDir, entries, dirs, results, coverFiles, reader);
    // a directory holding a cover file needs no further work
    var skip := HasCoverFile(coverFiles, files);
    if skip {
      assert own == None;
      return;
    }
    var found := FindAlbumDetails(thisDir, files, reader);
    assert own == found;
    if found.Some? {
      results.Append(found.value);
    }
  }

  method ProcessOneSubdir(thisDir: string, entries: seq<Entry>, dir: string, results: AlbumList,
                        coverFiles: seq<string>, reader: TagReader)
    modifies results
    ensures results.records == old(results.records) + SubdirRecords(thisDir, entries, dir, coverFiles, reader)
    decreases Listed(entries), 0, 0
  {
      var sub := Resolve(thisDir, entries, dir);
      if sub.Some? {
        ProcessDir(dir, sub.value.listing, results, coverFiles, reader);
      }
  }

  /** The loop of `process_dir` over the sorted subdirectory paths, each walked with the same result list. */
  method ProcessSubdirs(thisDir: string, entries: seq<Entry>, dirs: seq<string>, results: AlbumList,
                        coverFiles: seq<string>, reader: TagReader)
    modifies results
    ensures results.records == old(results.records) + AggregateSubdirs(thisDir, entries, dirs, coverFiles, reader)
    decreases Listed(entries), 1
  {
    var k := 0;
    while k < |dirs|
      invariant 0 <= k <= |dirs|
      invariant results.records + AggregateSubdirs(thisDir, entries, dirs[k..], coverFiles, reader)
             == old(results.records) + AggregateSubdirs(thisDir, entries, dirs, coverFiles, reader)
    {
      ghost var before := results.records;
      ghost var rest := AggregateSubdirs(thisDir, entries, dirs[k + 1..], coverFiles, reader);
      assert dirs[k..][1..] == dirs[k + 1..];
      ProcessOneSubdir(thisDir, entries, dirs[k], results, coverFiles, reader);
      assert results.records + rest == before + AggregateSubdirs(thisDir, entries, dirs[k..], coverFiles, reader);
      k := k + 1;
    }
  }
}
