/**
  The checks `parse_args_opts` makes on the command line before anything
  runs: a music directory must be given and exist, the image size must be
  one the search accepts, and the cover file name must end in the image
  format. A failed check ends the program with status 2.
 */
module Options {
  import opened Wrappers
  import opened PyStr
  import opened PosixPath
  import Query

  /** The image sizes the search accepts. */
  const SizeChoices: seq<string> := ["small", "medium", "large"]

  /** The options as the option parser hands them over, the count already read as an integer. */
  datatype RawOptions = RawOptions(size: string, image: string, name: string, referer: string,
                                   count: int, overwrite: bool, debug: bool)

  /** The settings the rest of the program runs with. */
  datatype Parameters = Parameters(musicDir: string, fileSize: string, fileType: string, fileName: string,
                                   referer: string, resultCount: int, overWrite: bool, debug: bool)

  /** The option defaults. */
  function Defaults(): RawOptions
  {
    RawOptions("medium", "jpg", "cover.jpg", Query.DefaultReferer, 8, false, false)
  }

  /** The size is one of the accepted image sizes. */
  predicate ValidSize(size: string)
  {
    size in SizeChoices
  }

  /** What follows the last `.` of the cover name (all of it when it has none) is the image format. */
  predicate NameMatchesImage(name: string, image: string)
  {
    var parts := Split(name, '.');
    parts[|parts| - 1] == image
  }

  /** The settings, or None where `parse_args_opts` exits with status 2. */
  function CheckOptions(argv: seq<string>, isDir: string -> bool, opts: RawOptions): Option<Parameters>
  {
    if |argv| < 2 then None
    else if !isDir(argv[1]) then None
    else if !ValidSize(opts.size) then None
    else if !NameMatchesImage(opts.name, opts.image) then None
    else Some(Parameters(argv[1], opts.size, opts.image, opts.name, opts.referer, opts.count, opts.overwrite, opts.debug))
  }

  /**
    The cover name matches the format exactly when it is the format itself
    and has no dot, or it ends in a dot followed by the format and the format
    has no dot: `cover.jpg` and `a.b.jpg` match `jpg`; `cover.jpeg`, and
    `cover.jpg` against `b.jpg`, do not.
   */
  lemma NameMatchesImageIff(name: string, image: string)
    ensures NameMatchesImage(name, image) <==>
      (name == image && '.' !in name) ||
      ('.' !in image && |name| > |image| && name[|name| - |image| - 1] == '.' && name[|name| - |image|..] == image)
  {
    if '.' !in name {
      SplitLastNoSep(name, '.');
    } else {
      var k := RFind(name, '.').value;
      SplitLast(name, '.', k);
      var d := |name| - |image| - 1;
      if '.' !in image && |name| > |image| && name[d] == '.' && name[d + 1..] == image {
        RFindLast(name, '.', d);
      }
    }
  }

  /**
    The settings come through exactly when a directory argument is given and
    is a directory, the size is accepted and the name matches the format;
    they then carry the options unchanged.
   */
  lemma CheckOptionsAccepts(argv: seq<string>, isDir: string -> bool, opts: RawOptions)
    ensures CheckOptions(argv, isDir, opts).Some? <==>
      |argv| >= 2 && isDir(argv[1]) && opts.size in SizeChoices && NameMatchesImage(opts.name, opts.image)
    ensures CheckOptions(argv, isDir, opts).Some? ==>
      var p := CheckOptions(argv, isDir, opts).value;
      p.musicDir == argv[1] && p.fileSize == opts.size && p.fileType == opts.image && p.fileName == opts.name &&
      p.referer == opts.referer && p.resultCount == opts.count && p.overWrite == opts.overwrite &&
      p.debug == opts.debug
  {
  }

  /** The defaults pass every check but the directory one. */
  lemma DefaultsAccepted(argv: seq<string>, isDir: string -> bool)
    requires |argv| >= 2 && isDir(argv[1])
    ensures CheckOptions(argv, isDir, Defaults()).Some?
    ensures CheckOptions(argv, isDir, Defaults()).value.referer == Query.DefaultReferer
  {
    DefaultNameMatches();
  }

  /** The default cover name matches the default format. */
  lemma DefaultNameMatches()
    ensures NameMatchesImage("cover.jpg", "jpg")
  {
    NameMatchesImageIff("cover.jpg", "jpg");
    assert "cover.jpg"[5] == '.' && "cover.jpg"[6..] == "jpg";
  }
}
