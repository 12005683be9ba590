/**
  `main`: walk the music directory, skipping directories that already have
  the cover file unless overwriting, then for each album found search for
  images by artist and album and download the first that opens, only when
  the search found any.
 */
module Orchestrate {
  import opened PyStr
  import opened DirWalk
  import opened Download
  import opened Query
  import opened Options

  /** The cover names that make the walk skip a directory: the cover file name, unless overwriting. */
  function CoverFiles(p: Parameters): seq<string>
  {
    if p.overWrite then [] else [p.fileName]
  }

  /** The search request for one album, sent with the given referer. */
  function SearchFor(r: AlbumRecord, p: Parameters, referer: string, quote: Quoter): Request
  {
    Request(RequestUrl([r.artist, r.album], p.fileType, p.fileSize, p.resultCount, quote), referer)
  }

  /** The search requests for the albums, in order. */
  function Searches(recs: seq<AlbumRecord>, p: Parameters, referer: string, quote: Quoter): seq<Request>
  {
    if recs == [] then []
    else Searches(recs[..|recs| - 1], p, referer, quote) + [SearchFor(recs[|recs| - 1], p, referer, quote)]
  }

  /** The image URLs the search finds for one album. */
  function UrlsFor(r: AlbumRecord, p: Parameters, referer: string, quote: Quoter, answer: Request -> SearchOutcome): seq<string>
  {
    ImgUrls(answer(SearchFor(r, p, referer, quote)))
  }

  /** The disk after the download step for one album: `dl_cover` runs only when the search found URLs. */
  function AlbumDownload(files: map<string, Bytes>, r: AlbumRecord, p: Parameters, referer: string, quote: Quoter,
                         answer: Request -> SearchOutcome, respond: Responder): map<string, Bytes>
  {
    var urls := UrlsFor(r, p, referer, quote, answer);
    if |urls| > 0 then AfterDlCover(files, urls, r.dir, p.fileName, p.overWrite, respond) else files
  }

  /** The image URLs opened in the download step for one album. */
  function AlbumFetch(r: AlbumRecord, p: Parameters, referer: string, quote: Quoter,
                      answer: Request -> SearchOutcome, respond: Responder): seq<string>
  {
    var urls := UrlsFor(r, p, referer, quote, answer);
    if |urls| > 0 then Attempted(urls, respond) else []
  }

  /** The disk after the downloads for the albums, in order. */
  function Downloaded(files: map<string, Bytes>, recs: seq<AlbumRecord>, p: Parameters, referer: string, quote: Quoter,
                      answer: Request -> SearchOutcome, respond: Responder): map<string, Bytes>
  {
    if recs == [] then files
    else AlbumDownload(Downloaded(files, recs[..|recs| - 1], p, referer, quote, answer, respond),
                       recs[|recs| - 1], p, referer, quote, answer, respond)
  }

  /** The image URLs opened for the albums, in order. */
  function Fetched(recs: seq<AlbumRecord>, p: Parameters, referer: string, quote: Quoter,
                   answer: Request -> SearchOutcome, respond: Responder): seq<string>
  {
    if recs == [] then []
    else Fetched(recs[..|recs| - 1], p, referer, quote, answer, respond) + AlbumFetch(recs[|recs| - 1], p, referer, quote, answer, respond)
  }

  /** The cover path of an album and its backup path. */
  ghost predicate Touches(recs: seq<AlbumRecord>, p: Parameters, path: string)
  {
    exists i :: 0 <= i < |recs| && (path == PosixPath.Join(recs[i].dir, p.fileName) || path == PosixPath.Join(recs[i].dir, p.fileName) + ".bak")
  }

  /** With overwrite on, no directory is skipped for having a cover; with it off, exactly those holding the cover name are. */
  lemma CoverFilesSkip(p: Parameters, files: seq<string>)
    ensures p.overWrite ==> !CoverPresent(CoverFiles(p), files)
    ensures !p.overWrite ==> (CoverPresent(CoverFiles(p), files) <==> p.fileName in files)
  {
  }

  /** With overwrite on, every directory with usable tags yields its record, cover or not. */
  lemma OverwriteRecordsEveryAlbum(p: Parameters, path: string, entries: seq<Entry>, reader: TagReader)
    requires p.overWrite
    ensures OwnRecord(path, entries, CoverFiles(p), reader) == FirstRecord(path, PyStr.SortStrings(FileNames(entries)), reader)
  {
    CoverFilesSkip(p, FileNames(entries));
  }

  /**
    Without the check that the search found something, an empty URL list
    would still move an existing cover aside when overwriting: for every
    album whose search finds nothing, the guard is what keeps the disk as it
    was and opens no URL.
   */
  lemma EmptyUrlListStillRenames(files: map<string, Bytes>, r: AlbumRecord, p: Parameters, referer: string,
                                 quote: Quoter, answer: Request -> SearchOutcome, respond: Responder)
    requires p.overWrite && PosixPath.Join(r.dir, p.fileName) in files
    requires UrlsFor(r, p, referer, quote, answer) == []
    ensures AfterDlCover(files, [], r.dir, p.fileName, true, respond) != files
    ensures AlbumDownload(files, r, p, referer, quote, answer, respond) == files
    ensures AlbumFetch(r, p, referer, quote, answer, respond) == []
  {
  }

  /** When no search finds anything, the download loop leaves the disk as it was and opens no URL. */
  lemma {:induction false} NothingFoundNothingChanged(files: map<string, Bytes>, recs: seq<AlbumRecord>, p: Parameters,
                                                      referer: string, quote: Quoter, answer: Request -> SearchOutcome,
                                                      respond: Responder)
    requires forall i :: 0 <= i < |recs| ==> UrlsFor(recs[i], p, referer, quote, answer) == []
    ensures Downloaded(files, recs, p, referer, quote, answer, respond) == files
    ensures Fetched(recs, p, referer, quote, answer, respond) == []
  {
    if recs != [] {
      var init := recs[..|recs| - 1];
      assert forall i :: 0 <= i < |init| ==> init[i] == recs[i];
      NothingFoundNothingChanged(files, init, p, referer, quote, answer, respond);
      assert UrlsFor(recs[|recs| - 1], p, referer, quote, answer) == [];
    }
  }

  /** Paths that are neither the cover nor the backup path of an album are left as they were. */
  lemma {:induction false} DownloadedFrame(files: map<string, Bytes>, recs: seq<AlbumRecord>, p: Parameters, referer: string,
                                           quote: Quoter, answer: Request -> SearchOutcome, respond: Responder, path: string)
    requires !Touches(recs, p, path)
    ensures var r := Downloaded(files, recs, p, referer, quote, answer, respond);
      (path in r <==> path in files) && (path in files ==> r[path] == files[path])
  {
    if recs != [] {
      var init := recs[..|recs| - 1];
      var last := recs[|recs| - 1];
      forall i | 0 <= i < |init|
        ensures path != PosixPath.Join(init[i].dir, p.fileName) && path != PosixPath.Join(init[i].dir, p.fileName) + ".bak"
      {
        assert init[i] == recs[i];
      }
      DownloadedFrame(files, init, p, referer, quote, answer, respond, path);
      var urls := UrlsFor(last, p, referer, quote, answer);
      if |urls| > 0 {
        var before := Downloaded(files, init, p, referer, quote, answer, respond);
        DlCoverFrame(before, urls, last.dir, p.fileName, p.overWrite, respond, path);
      }
    }
  }

  /** There is one search per album, and every search is sent with the referer passed down. */
  lemma {:induction false} SearchesReferer(recs: seq<AlbumRecord>, p: Parameters, referer: string, quote: Quoter)
    ensures |Searches(recs, p, referer, quote)| == |recs|
    ensures forall i :: 0 <= i < |recs| ==> Searches(recs, p, referer, quote)[i].referer == referer
  {
    if recs != [] {
      SearchesReferer(recs[..|recs| - 1], p, referer, quote);
    }
  }

  /** The searches do not depend on the referer option of the settings. */
  lemma {:induction false} SearchesIgnoreOption(recs: seq<AlbumRecord>, p: Parameters, referer: string, quote: Quoter, other: string)
    ensures Searches(recs, p, referer, quote) == Searches(recs, p.(referer := other), referer, quote)
  {
    if recs != [] {
      SearchesIgnoreOption(recs[..|recs| - 1], p, referer, quote, other);
    }
  }

  /**
    As written, the searches do not depend on the `--referer` option: two
    settings that differ only in it send the same requests, all with the
    default referer.
   */
  lemma RefererIgnored(recs: seq<AlbumRecord>, p: Parameters, quote: Quoter, other: string)
    ensures Searches(recs, p, DefaultReferer, quote) == Searches(recs, p.(referer := other), DefaultReferer, quote)
    ensures |Searches(recs, p, DefaultReferer, quote)| == |recs|
    ensures forall i :: 0 <= i < |recs| ==> Searches(recs, p, DefaultReferer, quote)[i].referer == DefaultReferer
  {
    SearchesReferer(recs, p, DefaultReferer, quote);
    SearchesIgnoreOption(recs, p, DefaultReferer, quote, other);
  }

  /** Concretely: with `--referer` set to anything else, the first search still carries the default. */
  lemma RefererIgnoredExample(r: AlbumRecord, p: Parameters, quote: Quoter)
    requires p.referer == "https://example.org/"
    ensures |Searches([r], p, DefaultReferer, quote)| == 1
    ensures Searches([r], p, DefaultReferer, quote)[0].referer != p.referer
  {
  }

  /** Corrected: every search carries the `--referer` option. */
  lemma RefererHonoured(recs: seq<AlbumRecord>, p: Parameters, quote: Quoter)
    ensures |Searches(recs, p, p.referer, quote)| == |recs|
    ensures forall i :: 0 <= i < |recs| ==> Searches(recs, p, p.referer, quote)[i].referer == p.referer
  {
    SearchesReferer(recs, p, p.referer, quote);
  }

  /** One more album extends the searches, the downloads and the URLs opened by its own. */
  lemma DownloadStep(files: map<string, Bytes>, recs: seq<AlbumRecord>, i: nat, p: Parameters, referer: string,
                     quote: Quoter, answer: Request -> SearchOutcome, respond: Responder)
    requires i < |recs|
    ensures Searches(recs[..i + 1], p, referer, quote) == Searches(recs[..i], p, referer, quote) + [SearchFor(recs[i], p, referer, quote)]
    ensures Downloaded(files, recs[..i + 1], p, referer, quote, answer, respond) ==
      AlbumDownload(Downloaded(files, recs[..i], p, referer, quote, answer, respond), recs[i], p, referer, quote, answer, respond)
    ensures Fetched(recs[..i + 1], p, referer, quote, answer, respond) ==
      Fetched(recs[..i], p, referer, quote, answer, respond) + AlbumFetch(recs[i], p, referer, quote, answer, respond)
  {
    assert recs[..i + 1][..i] == recs[..i];
  }

  /** The body of the download loop of `main` for one album: search, then download if anything was found. */
  method DownloadOne(r: AlbumRecord, p: Parameters, referer: string, quote: Quoter,
                     svc: SearchService, fs: FileSystem, net: Network)
    modifies svc, fs, net
    ensures svc.sent == old(svc.sent) + [SearchFor(r, p, referer, quote)]
    ensures fs.files == AlbumDownload(old(fs.files), r, p, referer, quote, svc.answer, net.respond)
    ensures net.tried == old(net.tried) + AlbumFetch(r, p, referer, quote, svc.answer, net.respond)
  {
    var urls := GetImgUrls([r.artist, r.album], p.fileType, p.fileSize, p.resultCount, referer, quote, svc);
    if |urls| > 0 {
      var _ := DlCover(urls, r.dir, p.fileName, p.overWrite, fs, net);
    }
  }

  /**
    The download loop of `main`: for each album, search by artist and album,
    and download a cover only when the search found URLs.
   */
  method DownloadAll(recs: seq<AlbumRecord>, p: Parameters, referer: string, quote: Quoter,
                     svc: SearchService, fs: FileSystem, net: Network)
    modifies svc, fs, net
    ensures svc.sent == old(svc.sent) + Searches(recs, p, referer, quote)
    ensures fs.files == Downloaded(old(fs.files), recs, p, referer, quote, svc.answer, net.respond)
    ensures net.tried == old(net.tried) + Fetched(recs, p, referer, quote, svc.answer, net.respond)
  {
    for i := 0 to |recs|
      invariant svc.sent == old(svc.sent) + Searches(recs[..i], p, referer, quote)
      invariant fs.files == Downloaded(old(fs.files), recs[..i], p, referer, quote, svc.answer, net.respond)
      invariant net.tried == old(net.tried) + Fetched(recs[..i], p, referer, quote, svc.answer, net.respond)
    {
      DownloadStep(old(fs.files), recs, i, p, referer, quote, svc.answer, net.respond);
      DownloadOne(recs[i], p, referer, quote, svc, fs, net);
      ConcatAssoc(old(svc.sent), Searches(recs[..i], p, referer, quote), [SearchFor(recs[i], p, referer, quote)]);
      ConcatAssoc(old(net.tried), Fetched(recs[..i], p, referer, quote, svc.answer, net.respond),
                  AlbumFetch(recs[i], p, referer, quote, svc.answer, net.respond));
    }
    assert recs[..|recs|] == recs;
  }

  /**
    `main` as written: the option checks, which end the program with status 2
    before anything else happens; then the walk with the cover files chosen
    by the overwrite option, then the downloads, every search sent with the
    default referer.
   */
  method RunAsWritten(argv: seq<string>, isDir: string -> bool, opts: RawOptions, root: Listing, reader: TagReader,
                      quote: Quoter, svc: SearchService, fs: FileSystem, net: Network) returns (status: int)
    modifies svc, fs, net
    ensures CheckOptions(argv, isDir, opts).None? ==>
      status == 2 && svc.sent == old(svc.sent) && fs.files == old(fs.files) && net.tried == old(net.tried)
    ensures CheckOptions(argv, isDir, opts).Some? ==>
      var p := CheckOptions(argv, isDir, opts).value;
      var recs := Aggregate(p.musicDir, root, CoverFiles(p), reader);
      status == 0 &&
      svc.sent == old(svc.sent) + Searches(recs, p, DefaultReferer, quote) &&
      fs.files == Downloaded(old(fs.files), recs, p, DefaultReferer, quote, svc.answer, net.respond) &&
      net.tried == old(net.tried) + Fetched(recs, p, DefaultReferer, quote, svc.answer, net.respond)
  {
    var parameters := CheckOptions(argv, isDir, opts);
    if parameters.None? {
      return 2;
    }
    var p := parameters.value;
    var results := new AlbumList();
    ProcessDir(p.musicDir, root, results, CoverFiles(p), reader);
    assert results.records == Aggregate(p.musicDir, root, CoverFiles(p), reader);
    DownloadAll(results.records, p, DefaultReferer, quote, svc, fs, net);
    return 0;
  }

  /** `main` with the `--referer` option passed on to every search. */
  method Run(argv: seq<string>, isDir: string -> bool, opts: RawOptions, root: Listing, reader: TagReader,
             quote: Quoter, svc: SearchService, fs: FileSystem, net: Network) returns (status: int)
    modifies svc, fs, net
    ensures CheckOptions(argv, isDir, opts).None? ==>
      status == 2 && svc.sent == old(svc.sent) && fs.files == old(fs.files) && net.tried == old(net.tried)
    ensures CheckOptions(argv, isDir, opts).Some? ==>
      var p := CheckOptions(argv, isDir, opts).value;
      var recs := Aggregate(p.musicDir, root, CoverFiles(p), reader);
      status == 0 &&
      svc.sent == old(svc.sent) + Searches(recs, p, p.referer, quote) &&
      fs.files == Downloaded(old(fs.files), recs, p, p.referer, quote, svc.answer, net.respond) &&
      net.tried == old(net.tried) + Fetched(recs, p, p.referer, quote, svc.answer, net.respond)
  {
    var parameters := CheckOptions(argv, isDir, opts);
    if parameters.None? {
      return 2;
    }
    var p := parameters.value;
    var results := new AlbumList();
    ProcessDir(p.musicDir, root, results, CoverFiles(p), reader);
    assert results.records == Aggregate(p.musicDir, root, CoverFiles(p), reader);
    DownloadAll(results.records, p, p.referer, quote, svc, fs, net);
    return 0;
  }
}
