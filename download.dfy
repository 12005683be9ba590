/**
  `dl_cover`: back up an existing cover when overwriting, then fetch the
  first candidate URL that opens and write its body as the cover file.
  The disk is a map from paths to file contents; the network is an oracle
  that either fails to open a URL or yields its body.
 */
module Download {
  import opened Wrappers
  import opened PosixPath

  type Bytes = seq<bv8>

  /** What opening each URL gives: nothing when `urlopen` raises, otherwise the body it reads. */
  type Responder = string -> Option<Bytes>

  /** The regular files on disk, by path. */
  class FileSystem {
    var files: map<string, Bytes>

    constructor(initial: map<string, Bytes>)
      ensures files == initial
    {
      files := initial;
    }

    /** `os.path.isfile`. */
    predicate IsFile(p: string)
      reads this
    {
      p in files
    }

    /** `os.rename`: the file moves to `dst`, replacing whatever was there. */
    method Rename(src: string, dst: string)
      requires src in files
      modifies this
      ensures files == (old(files) - {src})[dst := old(files)[src]]
    {
      files := (files - {src})[dst := files[src]];
    }

    /** Opening `p` for writing and writing `body`: the file holds exactly `body` afterwards. */
    method Write(p: string, body: Bytes)
      modifies this
      ensures files == old(files)[p := body]
    {
      files := files[p := body];
    }
  }

  /** The network, with the list of URLs opened so far. */
  class Network {
    const respond: Responder
    var tried: seq<string>

    constructor(respond: Responder)
      ensures this.respond == respond && tried == []
    {
      this.respond := respond;
      tried := [];
    }

    /** `urllib2.urlopen(url, None, 10)` followed by reading the whole body. */
    method Open(url: string) returns (body: Option<Bytes>)
      modifies this
      ensures body == respond(url)
      ensures tried == old(tried) + [url]
    {
      tried := tried + [url];
      body := respond(url);
    }
  }

  /** The index of the first URL that opens, if any. */
  function FirstOpen(urls: seq<string>, respond: Responder): (r: Option<nat>)
    ensures r.Some? ==> r.value < |urls|
  {
    if urls == [] then None
    else if respond(urls[0]).Some? then Some(0)
    else
      match FirstOpen(urls[1..], respond)
      case None => None
      case Some(i) => Some(i + 1)
  }

  /** The URLs `dl_cover` opens: up to and including the first that opens, or all of them. */
  function Attempted(urls: seq<string>, respond: Responder): seq<string>
  {
    match FirstOpen(urls, respond)
    case Some(i) => urls[..i + 1]
    case None => urls
  }

  /** The disk after the backup step: with overwrite on, an existing cover is moved to the `.bak` path. */
  function BackedUp(files: map<string, Bytes>, target: string, overWrite: bool): map<string, Bytes>
  {
    if target in files && overWrite then (files - {target})[target + ".bak" := files[target]]
    else files
  }

  /** The disk after `dl_cover(urls, directory, fileName, overWrite)`. */
  function AfterDlCover(files: map<string, Bytes>, urls: seq<string>, directory: string, fileName: string,
                        overWrite: bool, respond: Responder): map<string, Bytes>
  {
    var target := Join(directory, fileName);
    var backed := BackedUp(files, target, overWrite);
    match FirstOpen(urls, respond)
    case Some(i) => backed[target := respond(urls[i]).GetOr([])]
    case None => backed
  }

  /** A URL that opens, after URLs that all fail, is the one `dl_cover` downloads. */
  lemma {:induction false} FirstOpenFound(urls: seq<string>, respond: Responder, k: nat)
    requires k < |urls| && respond(urls[k]).Some?
    requires forall j :: 0 <= j < k ==> respond(urls[j]).None?
    ensures FirstOpen(urls, respond) == Some(k)
  {
    if k > 0 {
      FirstOpenFound(urls[1..], respond, k - 1);
    }
  }

  /** No URL is downloaded exactly when none of them opens; in particular for an empty list. */
  lemma {:induction false} FirstOpenNone(urls: seq<string>, respond: Responder)
    ensures FirstOpen(urls, respond).None? <==> forall j :: 0 <= j < |urls| ==> respond(urls[j]).None?
  {
    if urls != [] {
      FirstOpenNone(urls[1..], respond);
      assert forall j :: 1 <= j < |urls| ==> urls[j] == urls[1..][j - 1];
    }
  }

  /** The URL downloaded opens, and every URL before it fails. */
  lemma {:induction false} FirstOpenSome(urls: seq<string>, respond: Responder)
    ensures FirstOpen(urls, respond).Some? ==>
      var i := FirstOpen(urls, respond).value;
      i < |urls| && respond(urls[i]).Some? && forall j :: 0 <= j < i ==> respond(urls[j]).None?
  {
    if urls != [] && respond(urls[0]).None? {
      FirstOpenSome(urls[1..], respond);
      assert forall j :: 1 <= j < |urls| ==> urls[j] == urls[1..][j - 1];
    }
  }

  /**
    The URLs tried are a prefix of the list in list order; all but the last
    fail, and the last opens unless every URL fails.
   */
  lemma AttemptedPrefix(urls: seq<string>, respond: Responder)
    ensures var t := Attempted(urls, respond);
      t <= urls &&
      (forall j :: 0 <= j < |t| - 1 ==> respond(t[j]).None?) &&
      (t != [] && respond(t[|t| - 1]).Some? <==> FirstOpen(urls, respond).Some?) &&
      (FirstOpen(urls, respond).None? ==> t == urls)
  {
    FirstOpenSome(urls, respond);
    FirstOpenNone(urls, respond);
  }

  /** `dl_cover` succeeds exactly when some URL opens, and then the cover holds that URL's body. */
  lemma DlCoverWritesFirstBody(files: map<string, Bytes>, urls: seq<string>, directory: string, fileName: string,
                               overWrite: bool, respond: Responder)
    ensures var r := AfterDlCover(files, urls, directory, fileName, overWrite, respond);
      FirstOpen(urls, respond).Some? ==>
        var i := FirstOpen(urls, respond).value;
        respond(urls[i]).Some? &&
        r == BackedUp(files, Join(directory, fileName), overWrite)[Join(directory, fileName) := respond(urls[i]).value]
  {
    FirstOpenSome(urls, respond);
  }

  /**
    When no URL opens, the cover is not written: the only change to the disk
    is the backup rename, and an existing cover is gone from its path only
    when overwrite is on.
   */
  lemma DlCoverFailureOnlyRenames(files: map<string, Bytes>, urls: seq<string>, directory: string, fileName: string,
                                  overWrite: bool, respond: Responder)
    requires forall j :: 0 <= j < |urls| ==> respond(urls[j]).None?
    ensures var target := Join(directory, fileName);
      var r := AfterDlCover(files, urls, directory, fileName, overWrite, respond);
      r == BackedUp(files, target, overWrite) &&
      (target in r <==> target in files && !overWrite) &&
      (target in files && overWrite ==> target + ".bak" in r && r[target + ".bak"] == files[target])
  {
    FirstOpenNone(urls, respond);
    var target := Join(directory, fileName);
    assert target != target + ".bak" by {
      assert |target + ".bak"| == |target| + 4;
    }
  }

  /** Without overwrite nothing is renamed: the disk changes at most at the cover path. */
  lemma DlCoverNoRenameWithoutOverwrite(files: map<string, Bytes>, urls: seq<string>, directory: string, fileName: string,
                                        respond: Responder)
    ensures var target := Join(directory, fileName);
      var r := AfterDlCover(files, urls, directory, fileName, false, respond);
      r == files || (target in r && r == files[target := r[target]])
  {
  }

  /** Paths other than the cover and its backup are untouched. */
  lemma DlCoverFrame(files: map<string, Bytes>, urls: seq<string>, directory: string, fileName: string,
                     overWrite: bool, respond: Responder, p: string)
    requires p != Join(directory, fileName) && p != Join(directory, fileName) + ".bak"
    ensures var r := AfterDlCover(files, urls, directory, fileName, overWrite, respond);
      (p in r <==> p in files) && (p in files ==> r[p] == files[p])
  {
  }

  /** With overwrite on, an existing cover survives at the backup path whatever the download does. */
  lemma DlCoverKeepsBackup(files: map<string, Bytes>, urls: seq<string>, directory: string, fileName: string,
                           respond: Responder)
    requires Join(directory, fileName) in files
    ensures var target := Join(directory, fileName);
      var r := AfterDlCover(files, urls, directory, fileName, true, respond);
      target + ".bak" in r && r[target + ".bak"] == files[target]
  {
  }

  /**
    `dl_cover(urlList, directory, fileName, overWrite)`: returns whether a
    cover was downloaded; opens the URLs in order and no URL after the first
    one that opens.
   */
  method DlCover(urls: seq<string>, directory: string, fileName: string, overWrite: bool,
                 fs: FileSystem, net: Network) returns (ok: bool)
    modifies fs, net
    ensures ok <==> FirstOpen(urls, net.respond).Some?
    ensures fs.files == AfterDlCover(old(fs.files), urls, directory, fileName, overWrite, net.respond)
    ensures net.tried == old(net.tried) + Attempted(urls, net.respond)
  {
    var target := Join(directory, fileName);
    if fs.IsFile(target) && overWrite {
      fs.Rename(target, target + ".bak");
    }
    var k := 0;
    while k < |urls|
      invariant k <= |urls|
      invariant forall j :: 0 <= j < k ==> net.respond(urls[j]).None?
      invariant fs.files == BackedUp(old(fs.files), target, overWrite)
      invariant net.tried == old(net.tried) + urls[..k]
    {
      var body := net.Open(urls[k]);
      if body.Some? {
        fs.Write(Join(directory, fileName), body.value);
        FirstOpenFound(urls, net.respond, k);
        assert urls[..k] + [urls[k]] == urls[..k + 1];
        return true;
      }
      k := k + 1;
    }
    FirstOpenNone(urls, net.respond);
    assert urls[..k] == urls;
    return false;
  }
}
