# coverlovin, modelled in Dafny

coverlovin walks a music directory tree and finds at most one album per directory from the tags of its `.mp3` and `.m4a` files. For each album it searches Google Images by artist and album. It downloads the first image URL that opens as the directory's cover file.

This project models the four parts of `coverlovin/coverlovin.py` that carry that logic:

- **`process_dir`** (module `DirWalk`). This is a recursive, post-order walk over a tree of `Listing`s. A directory is missing, unreadable, or listed with file and subdirectory entries.
  - The results list is a class `AlbumList` whose method appends to it.
  - `ProcessDir` keeps the source's loops: split the entries, sort, recurse, check for cover files, read tags in sorted order.
  - `ProcessDir` is proved to append exactly what the specification function `Aggregate` gives.
- **`dl_cover`** (module `Download`).
  - The disk is a class `FileSystem` holding a map from paths to bytes. It offers `isfile`, `rename` and write.
  - The network is a class `Network` over a per-URL oracle. It also records every URL opened.
  - `DlCover` keeps the source's loop with its early return. It is proved against `AfterDlCover` and `Attempted`.
- **`sanitise_for_url` and `get_img_urls`** (module `Query`). Each keeps its `+=` loops and is proved against a function of its inputs.
  - The search service is a class over an oracle from requests to outcomes. It records the requests sent.
  - `urllib.quote` is an oracle on single words, which may raise.
- **`main`** (module `Orchestrate`) first applies the checks of `parse_args_opts` (module `Options`): a failed check ends the run with status 2 before anything is searched or written. It then runs the walk followed by the download loop.

Supporting modules:
- `PyStr`: the Python string operations the code relies on. These are `sort` (code-point order), `split` on one character, `join` with one character (`JoinWith`), `s[:-1]` (`DropLast`), `replace` of one character by another (`Replace`), and `str` of an integer with its inverse.
- `PosixPath`: `os.path.join` and the extension part of `os.path.splitext`.
- `Wrappers`: an `Option` type.

The tag library is an oracle from (format, full path) to a read error or optional artist and album. The disk seen by the walk (a `Listing` snapshot) and the disk written by the downloads (a path map) are separate inputs.

## Model

| member | source | states |
|---|---|---|
| DirWalk.ProcessDir | coverlovin/coverlovin.py:120-190 | The walk appends to the shared result list exactly the records `Aggregate` specifies and leaves the earlier records unchanged. A missing or unreadable directory appends nothing. |
| DirWalk.AlbumList.Append | coverlovin/coverlovin.py:187 | Appending adds the record at the end and changes nothing else. |
| DirWalk.SplitEntries | coverlovin/coverlovin.py:134-139 | The listing loop collects the joined paths of the subdirectory entries and the names of the other entries, both in listing order. |
| DirWalk.ProcessSubdirs | coverlovin/coverlovin.py:150-151 | Recursing into the sorted subdirectory paths, one after another with the same list, appends their records in that order. |
| DirWalk.HasCoverFile | coverlovin/coverlovin.py:155-158 | The cover loop reports true exactly when some configured cover name is among the directory's files. |
| DirWalk.FindAlbumDetails | coverlovin/coverlovin.py:159-190 | The file loop returns the record of the first file that yields a non-empty artist or album, or none. |
| DirWalk.AggregateWithin | coverlovin/coverlovin.py:150-151 | The walk of a directory yields records only for it and the directories below it. Its own record, if any, comes last (post-order). |
| DirWalk.AggregateDistinct | coverlovin/coverlovin.py:150-188 | No two records of a walk name the same directory, given unique names per directory. |
| DirWalk.SkipWhenCoverPresent | coverlovin/coverlovin.py:155-158 | A directory holding a file named like a cover contributes no record of its own, only its subdirectories' records. |
| DirWalk.RecordWhenNoCover | coverlovin/coverlovin.py:159-190 | Any other directory adds, after its subdirectories' records, the record of its first usable file in sorted order. |
| DirWalk.CoverPresentIff | coverlovin/coverlovin.py:134-139 | The cover check fires exactly when some non-directory entry bears a cover name. |
| DirWalk.CoverPresentSorted | coverlovin/coverlovin.py:148 | Sorting the file names does not change the outcome of the cover check. |
| DirWalk.AggregateListingOrder | coverlovin/coverlovin.py:147-148 | Two listings of a directory holding the same entries in different orders give the same records. Sorting the subdirectory paths and the file names makes the walk independent of the order `os.listdir` returns. |
| DirWalk.FirstTagsIsFirstUsable | coverlovin/coverlovin.py:185-188 | First match wins: a usable file with no usable file before it is the one that gives the tags. |
| DirWalk.FirstTagsHasSource | coverlovin/coverlovin.py:159-188 | Tags found come from some usable file, and every file before it was passed over. |
| DirWalk.FirstTagsNone | coverlovin/coverlovin.py:170-172 | No tags exactly when no file is a readable audio file with a non-empty artist or album. This covers files whose tag read raises. |
| DirWalk.FormatMp3 | coverlovin/coverlovin.py:163-169 | A file is read as MP3 exactly when its name ends in `.mp3` after something other than dots. |
| DirWalk.FormatM4a | coverlovin/coverlovin.py:163-167 | A file is read as MP4 exactly when its name ends in `.m4a` after something other than dots. |
| DirWalk.FileNamesMembers | coverlovin/coverlovin.py:138-139 | A name is among the file names exactly when some non-directory entry has it. |
| DirWalk.SubdirPathsMembers | coverlovin/coverlovin.py:135-137 | A path is among the subdirectory paths exactly when it is the joined path of some subdirectory entry. |
| DirWalk.SubdirPathsDistinct | coverlovin/coverlovin.py:135-137 | Distinct entry names give distinct subdirectory paths. |
| DirWalk.Resolve | coverlovin/coverlovin.py:151 | The entry that a subdirectory path names is a subdirectory entry whose joined path is that path. When none is found, no subdirectory entry has that path. |
| PyStr.SortStringsSpec | coverlovin/coverlovin.py:147-148 | `sort` yields a permutation of its input in code-point order. |
| PyStr.SortedPermutationsEqual | coverlovin/coverlovin.py:147-148 | Two sorted permutations of one list are equal, so the sorted order does not depend on the listing order. |
| PyStr.JoinSplit | coverlovin/coverlovin.py:37 | Joining the parts of `split` with the separator gives back the string. |
| PyStr.SplitJoin | coverlovin/coverlovin.py:228 | Splitting a join of separator-free parts gives back the parts. |
| PyStr.IntToStrRoundTrip | coverlovin/coverlovin.py:98 | `str(n)` parses back to `n`. |
| PosixPath.JoinLayout | coverlovin/coverlovin.py:135 | Joining a name to a directory keeps the directory as a prefix and adds at most one character. The result ends in the name with a separator right before it. An empty directory gives the name alone. |
| PosixPath.JoinInjective | coverlovin/coverlovin.py:135 | Different entry names of one directory give different paths. |
| PosixPath.ChildWithin | coverlovin/coverlovin.py:151 | A path at or below a subdirectory's path is strictly below the parent directory. |
| PosixPath.ExtensionOfName | coverlovin/coverlovin.py:163 | `splitext` gives a dotted extension exactly when the name ends in it and something other than a dot precedes it. |
| Download.DlCover | coverlovin/coverlovin.py:50-79 | The result is true exactly when some URL opens. The disk afterwards is `AfterDlCover`. The URLs opened are those of `Attempted`, in list order. |
| Download.FileSystem.Rename | coverlovin/coverlovin.py:57 | The file moves to the new path and the old path is gone. |
| Download.FileSystem.Write | coverlovin/coverlovin.py:71-74 | The path then holds the written body. Every other path keeps its contents. |
| Download.Network.Open | coverlovin/coverlovin.py:64 | The body returned is the responder's answer for the URL, and the URL is appended to the list of URLs opened. |
| Download.FirstOpenFound | coverlovin/coverlovin.py:59-76 | A URL that opens, after URLs that all fail, is the one downloaded. |
| Download.FirstOpenNone | coverlovin/coverlovin.py:59-79 | Nothing is downloaded exactly when no URL opens. This includes the empty list. |
| Download.FirstOpenSome | coverlovin/coverlovin.py:59-76 | The URL downloaded opens, and every URL before it fails. |
| Download.AttemptedPrefix | coverlovin/coverlovin.py:59-76 | The URLs opened are a prefix of the list. All but the last fail, the last opens unless every URL fails, and no URL after the first that opens is tried. |
| Download.DlCoverWritesFirstBody | coverlovin/coverlovin.py:69-76 | On success the cover path holds the body of the first URL that opens, after the backup step. |
| Download.DlCoverFailureOnlyRenames | coverlovin/coverlovin.py:55-79 | When no URL opens, the cover is not written and the backup rename is the only change. An existing cover leaves its path only when overwrite is on, and then survives at `.bak`. |
| Download.DlCoverNoRenameWithoutOverwrite | coverlovin/coverlovin.py:55-57 | Without overwrite nothing is renamed: the disk changes at most at the cover path. |
| Download.DlCoverFrame | coverlovin/coverlovin.py:53-76 | Paths other than the cover and its backup are untouched. |
| Download.DlCoverKeepsBackup | coverlovin/coverlovin.py:55-57 | With overwrite on, an existing cover is kept at the `.bak` path whatever the download does. |
| Query.SanitiseForUrl | coverlovin/coverlovin.py:30-48 | The loop's result is `Sanitised`: empty for None, otherwise the quoted space-separated words joined by single `+`, with words whose quoting raises left out. |
| Query.SanitisedEmpty | coverlovin/coverlovin.py:33-35 | `sanitise_for_url(None)` and `sanitise_for_url("")` are both empty. |
| Query.SanitisedSplitsBack | coverlovin/coverlovin.py:37-46 | When every word quotes to something free of `+`, the result splits on `+` into exactly the quoted words, one per word, in order. |
| Query.SanitisedPlain | coverlovin/coverlovin.py:37-46 | For words that quoting leaves alone, sanitising replaces each space by `+`. |
| Query.QuotedWordsTotal | coverlovin/coverlovin.py:39-42 | When every word quotes, there is one quoted word per word, in order. |
| Query.QuotedWordsDropOnly | coverlovin/coverlovin.py:39-44 | There is at most one quoted word per word, and none when every word's quoting raises. |
| Query.QuotedWordsDrop | coverlovin/coverlovin.py:40-44 | A word whose quoting raises is dropped, never replaced: the result is the quoted words before it followed by those after it. |
| Query.QuotedWordsKeep | coverlovin/coverlovin.py:40-42 | A word that quotes stands for exactly its quoted form, between the quoted words before it and those after it. |
| Query.QuotedWordsConcat | coverlovin/coverlovin.py:39-44 | Words are quoted independently: quoting a concatenation gives the quoted words of each half, in order. |
| Query.BuildRequestUrl | coverlovin/coverlovin.py:88-98 | The URL-building loops produce `RequestUrl`. |
| Query.RequestUrlLayout | coverlovin/coverlovin.py:88-98 | With search words, the URL is the endpoint with `?v=1.0&q=`, then the sanitised words joined by `+`, then `&as_filetype=`, `&imgsz=` and `&rsz=` with their values, in that order. |
| Query.RequestUrlNoTerms | coverlovin/coverlovin.py:90-94 | With no search words, dropping the last character removes the `=` of `q=`. |
| Query.RequestUrlFields | coverlovin/coverlovin.py:90-98 | When no value holds an `&`, the query splits on `&` into its five fields, and the result count reads back from the last one. |
| Query.GetImgUrls | coverlovin/coverlovin.py:81-118 | Exactly one request is sent, with the built URL and the given referer. The result is the answer's image URLs in order, and empty when opening or parsing fails or there are no results. |
| Query.SanitiseTerms | coverlovin/coverlovin.py:88 | Each search term is sanitised in turn. The result is `SanitisedAll` of the terms, one word per term and in the same order. |
| Query.AppendTerms | coverlovin/coverlovin.py:92-93 | The URL grows by each word followed by a `+`, in order. The result is the start followed by `Terminated` of the words. |
| Query.CollectUrls | coverlovin/coverlovin.py:114-116 | The result loop returns the answer's URLs unchanged and in order. |
| Query.SearchService.Send | coverlovin/coverlovin.py:99-109 | Sending records the request and returns the service's answer to it. |
| Options.NameMatchesImageIff | coverlovin/coverlovin.py:228-234 | The cover name passes exactly when it is the image format itself without a dot, or when it ends in a dot followed by the format and the format has no dot. |
| Options.CheckOptionsAccepts | coverlovin/coverlovin.py:210-241 | Settings result exactly when a directory argument is given and is a directory, the size is allowed and the name matches the format. They then carry the options unchanged, the debug flag included. |
| Options.DefaultsAccepted | coverlovin/coverlovin.py:199-241 | The default options pass every check except the directory check. |
| Orchestrate.CoverFilesSkip | coverlovin/coverlovin.py:264-267 | With overwrite on, no directory is skipped. With it off, exactly those holding the cover name are skipped. |
| Orchestrate.OverwriteRecordsEveryAlbum | coverlovin/coverlovin.py:264-269 | With overwrite on, every directory with usable tags yields its record, whether it has a cover or not. |
| Orchestrate.EmptyUrlListStillRenames | coverlovin/coverlovin.py:274-279 | For any album whose search finds nothing, with overwrite on and a cover present: `dl_cover` on the empty list would still move the cover aside. Behind the guard, the disk stays unchanged and no URL is opened. |
| Orchestrate.NothingFoundNothingChanged | coverlovin/coverlovin.py:271-281 | When no album's search finds anything, the download loop leaves the disk unchanged and opens no URL. |
| Orchestrate.DownloadAll | coverlovin/coverlovin.py:271-281 | One search per album in walk order. A download is made only when URLs were found. The disk and the URLs opened are as `Downloaded` and `Fetched` specify. |
| Orchestrate.DownloadOne | coverlovin/coverlovin.py:272-279 | One search is sent for the album. The disk becomes `AlbumDownload` and the URLs opened grow by `AlbumFetch`, so a download happens only when URLs were found. |
| Orchestrate.DownloadedFrame | coverlovin/coverlovin.py:271-279 | Paths that are not an album's cover or backup path are untouched by the downloads. |
| Orchestrate.SearchesReferer | coverlovin/coverlovin.py:273 | There is one search per album, each sent with the referer passed down. |
| Orchestrate.RunAsWritten | coverlovin/coverlovin.py:245-283 | `main` as written. When the option checks fail, the status is 2 and nothing is sent, opened or written. Otherwise it walks with the cover names chosen by overwrite, then runs the download loop with every search sent with the default referer, and returns 0. |
| Orchestrate.RefererIgnored | coverlovin/coverlovin.py:273 | As written, the requests do not depend on `--referer`: every search carries the default referer. |
| Orchestrate.RefererIgnoredExample | coverlovin/coverlovin.py:203 | With `--referer https://example.org/`, the search still carries a different referer. |
| Orchestrate.Run | coverlovin/coverlovin.py:245-283 | `main` with the `--referer` option passed on to every search; otherwise as written, status 2 on a failed check included. |
| Orchestrate.RefererHonoured | coverlovin/coverlovin.py:238 | Corrected: every search carries the `--referer` option. |

## Left out

- Logging (the handler setup and every `log` call), including the debug level switch: these produce output only.
- HTTP and JSON: `urllib2.Request`, `urlopen`, `simplejson.load` and the response shape `responseData`/`results`/`url` are folded into one search outcome per request. A truthy answer without that shape, which raises, is not modelled.
- The mutagen readers `EasyID3`/`EasyMP4` are an oracle. Their `KeyError` when a tag key is missing (outside the `try`) is not modelled. A tag object that is empty (falsy, lines 176 and 179) gives no artist or album, and the file is passed over. An empty per-key list, which would raise at `[0]`, is not modelled.
- The tag reader is a pure oracle, so the model does not record which files were read. It does not show that the files after the first usable one are never opened. The model proves only that they do not affect the record.
- The directory test in the option checks and the listing the walk starts from are independent inputs.
- UTF-8 `encode`/`decode` and the `unicode(...)` conversions in `main`: strings are code-point sequences throughout.
- The behaviour of `urllib.quote` is an oracle on single words, which either returns a string or raises.
- The mutable default `results=[]` of `process_dir`: `main` starts from a fresh `AlbumList`, so the aliasing across calls is not represented.
- `OptionParser`, `sys.argv` handling, `print_help` and `sys.exit(2)`: only the checks are modelled; `CheckOptions` gives `None` where the program exits, and `Run`/`RunAsWritten` then return status 2. The count arrives already converted to an integer.
- `fileTypeOpts` is declared in `parse_args_opts` but never used; the model has no check on the image format for that reason.
- DirWalk.AggregateListingOrder: it reorders the entries of one directory. Reordering the listings of several directories of the tree at once is not stated as a single lemma.
- Symbolic links and directory cycles: a `Listing` is a finite tree.
- In `dl_cover`, a directory at the cover path, and errors from `open`, `write` or `read` of the body: the disk is a map of regular files and a body that opens is read whole.
- Timeouts of `urlopen` are part of the network oracle's failure outcome.
- The walk's snapshot of the disk and the download's map of files are independent inputs; the model does not relate a cover written by one run to the listing of another.
- Changes to a directory between `os.path.exists`, `os.listdir` and `os.path.isdir` are not modelled; each directory has one listing.

## Findings

| source | as written | input that shows it | evidently intended | confidence | as-written member | corrected member |
|---|---|---|---|---|---|---|
| coverlovin/coverlovin.py:273 | `main` parses `--referer` into `parameters['referer']` (lines 203, 238, 256) but calls `get_img_urls` without it, so every search is sent with the default referer | `coverlovin.py <dir> --referer https://example.org/` with any album found | pass `referer=referer` to `get_img_urls`, so each search carries the chosen referer | not executed | Orchestrate.RefererIgnoredExample | Orchestrate.RefererHonoured |
