/**
 * One media entry of the catalog: a file path that no other entry may claim,
 * the format named by the path's extension, a title, a language and a
 * publishing studio (all lower-cased), a validity flag that records whether
 * the file existed when last checked, and free-form string metadata.
 *
 * The process-wide list of claimed paths is an explicit PathRegistry object.
 * The file system is an oracle `fileExists` handed to each operation that
 * looks at it, standing for the file system at the moment of the call.
 */
module Movies {
  import opened Wrappers
  import opened Ascii

  datatype Format = MP4 | MOV | WMV | AVI | FLV | MKV

  /** The formats in declaration order, the order in which they are tried. */
  const Formats: seq<Format> := [MP4, MOV, WMV, AVI, FLV, MKV]

  /** The name of a format constant. */
  function Name(f: Format): (r: string)
    ensures |r| == 3 && IsUpperCase(r)
  {
    match f
    case MP4 => "MP4"
    case MOV => "MOV"
    case WMV => "WMV"
    case AVI => "AVI"
    case FLV => "FLV"
    case MKV => "MKV"
  }

  /** The format whose name is ext, if there is one. */
  function FormatNamed(ext: string): (r: Option<Format>)
    ensures r.Some? ==> Name(r.value) == ext
    ensures r.None? ==> forall f: Format :: Name(f) != ext
  {
    if ext == "MP4" then Some(MP4)
    else if ext == "MOV" then Some(MOV)
    else if ext == "WMV" then Some(WMV)
    else if ext == "AVI" then Some(AVI)
    else if ext == "FLV" then Some(FLV)
    else if ext == "MKV" then Some(MKV)
    else None
  }

  /** The last three characters of a path, upper-cased. */
  function Extension(path: string): (r: string)
    requires |path| >= 3
    ensures |r| == 3 && IsUpperCase(r)
  {
    ToUpper(path[|path| - 3..])
  }

  /** The format a path names: the format whose name is the path's upper-cased extension. */
  function FormatOf(path: string): (r: Option<Format>)
    ensures r.Some? <==> |path| >= 3 && exists f: Format :: Name(f) == Extension(path)
    ensures r.Some? ==> Name(r.value) == Extension(path)
  {
    if |path| < 3 then None else FormatNamed(Extension(path))
  }

  /**
   * Tries the formats in order and stops at the first whose name is ext.
   * When none matches, f is meaningless.
   */
  method MatchFormat(ext: string) returns (found: bool, f: Format)
    ensures found <==> FormatNamed(ext).Some?
    ensures found ==> FormatNamed(ext) == Some(f)
  {
    found, f := false, MP4;
    var i := 0;
    while i < |Formats|
      invariant 0 <= i <= |Formats|
      invariant !found
      invariant forall j :: 0 <= j < i ==> Name(Formats[j]) != ext
    {
      if Name(Formats[i]) == ext {
        found, f := true, Formats[i];
        break;
      }
      i := i + 1;
    }
    if !found {
      forall g: Format ensures Name(g) != ext {
        FormatListed(g);
      }
    } else {
      NamedFormat(f);
    }
  }

  /** Every format is one of Formats. */
  lemma FormatListed(f: Format)
    ensures f in Formats
  {
    match f
    case MP4 => assert Formats[0] == f;
    case MOV => assert Formats[1] == f;
    case WMV => assert Formats[2] == f;
    case AVI => assert Formats[3] == f;
    case FLV => assert Formats[4] == f;
    case MKV => assert Formats[5] == f;
  }

  /** A format's name names that format and no other. */
  lemma NamedFormat(f: Format)
    ensures FormatNamed(Name(f)) == Some(f)
  {
  }

  /** Format detection does not depend on the case of the path's letters. */
  lemma FormatIgnoresCase(p: string, q: string)
    requires |p| == |q|
    requires forall i :: 0 <= i < |p| ==> LowerChar(p[i]) == LowerChar(q[i])
    ensures FormatOf(p) == FormatOf(q)
  {
    if |p| >= 3 {
      ToUpperIgnoresCase(p[|p| - 3..], q[|q| - 3..]);
    }
  }

  /** A mixed-case extension names its format. */
  lemma MixedCaseExtension()
    ensures FormatOf("part1.mP4") == Some(MP4)
    ensures FormatOf("movie3.FlV") == Some(FLV)
  {
    assert Extension("part1.mP4") == "MP4";
    assert Extension("movie3.FlV") == "FLV";
  }

  /** An extension outside the six formats names none. */
  lemma UnsupportedExtension()
    ensures FormatOf("notes.TXT") == None
    ensures FormatOf("mp4") == Some(MP4)
    ensures FormatOf("4") == None
  {
    assert Extension("notes.TXT") == "TXT";
    assert Extension("mp4") == "MP4";
  }

  datatype MovieError =
    | PathTooShort   // the path has fewer than three characters, so it has no extension to read
    | InvalidFormat  // the extension names none of the six formats
    | DuplicatePath  // another movie has already claimed the path

  /** The paths already claimed by a movie, oldest first. */
  class PathRegistry {
    var paths: seq<string>

    constructor ()
      ensures paths == []
    {
      paths := [];
    }

    /** Whether some claimed path is the same path as p; paths are compared as strings. */
    method Claims(p: string) returns (claimed: bool)
      ensures claimed <==> p in paths
    {
      claimed := false;
      var i := 0;
      while i < |paths|
        invariant 0 <= i <= |paths|
        invariant p !in paths[..i]
      {
        if paths[i] == p {
          claimed := true;
          return;
        }
        i := i + 1;
      }
      assert paths[..i] == paths;
    }
  }

  class Movie {
    var validity: bool
    const format: Format
    const path: string
    const title: string
    const language: string
    const publishingStudio: string
    var customInfo: map<string, string>

    /** What every movie satisfies: its path names its format, and its texts are lower-case. */
    ghost predicate Valid() {
      && FormatOf(path) == Some(format)
      && IsLowerCase(title)
      && IsLowerCase(language)
      && IsLowerCase(publishingStudio)
    }

    /**
     * Creates a movie for mPath, claiming the path in registry. Fails, leaving
     * the registry as it was, when the path is too short to have an extension,
     * when its extension names no format, or when the path is already claimed.
     */
    static method Create(registry: PathRegistry, fileExists: string -> bool,
                         mPath: string, mTitle: string, mLanguage: string, mStudio: string)
      returns (r: Result<Movie, MovieError>)
      modifies registry
      ensures |mPath| < 3 ==> r == Failure(PathTooShort)
      ensures |mPath| >= 3 && FormatOf(mPath).None? ==> r == Failure(InvalidFormat)
      ensures FormatOf(mPath).Some? && mPath in old(registry.paths) ==> r == Failure(DuplicatePath)
      ensures r.Success? <==> FormatOf(mPath).Some? && mPath !in old(registry.paths)
      ensures r.Failure? ==> registry.paths == old(registry.paths)
      ensures r.Success? ==>
        && fresh(r.value)
        && r.value.Valid()
        && registry.paths == old(registry.paths) + [mPath]
        && r.value.path == mPath
        && Some(r.value.format) == FormatOf(mPath)
        && r.value.title == ToLower(mTitle)
        && r.value.language == ToLower(mLanguage)
        && r.value.publishingStudio == ToLower(mStudio)
        && r.value.customInfo == map[]
        && r.value.validity == fileExists(mPath)
    {
      if |mPath| < 3 {
        return Failure(PathTooShort);
      }
      var found, f := MatchFormat(Extension(mPath));
      if !found {
        return Failure(InvalidFormat);
      }
      var claimed := registry.Claims(mPath);
      if claimed {
        return Failure(DuplicatePath);
      }
      registry.paths := registry.paths + [mPath];
      var m := new Movie.Init(fileExists, mPath, f, mTitle, mLanguage, mStudio);
      return Success(m);
    }

    /** The field initialisation of a movie whose path has passed the checks of Create. */
    constructor Init(fileExists: string -> bool, mPath: string, f: Format,
                     mTitle: string, mLanguage: string, mStudio: string)
      requires FormatOf(mPath) == Some(f)
      ensures Valid()
      ensures path == mPath && format == f
      ensures title == ToLower(mTitle)
      ensures language == ToLower(mLanguage)
      ensures publishingStudio == ToLower(mStudio)
      ensures customInfo == map[]
      ensures validity == fileExists(mPath)
    {
      format := f;
      path := mPath;
      validity := fileExists(mPath);
      title := ToLower(mTitle);
      language := ToLower(mLanguage);
      publishingStudio := ToLower(mStudio);
      customInfo := map[];
    }

    /**
     * A copy of toCopy with the same path, texts, validity and metadata and the
     * format recomputed from the path. The path is not claimed again.
     */
    constructor Copy(toCopy: Movie)
      requires toCopy.Valid()
      ensures Valid()
      ensures validity == toCopy.validity
      ensures path == toCopy.path && format == toCopy.format
      ensures title == toCopy.title
      ensures language == toCopy.language
      ensures publishingStudio == toCopy.publishingStudio
      ensures customInfo == toCopy.customInfo
    {
      validity := toCopy.validity;
      path := toCopy.path;
      var found, f := MatchFormat(Extension(toCopy.path));
      format := f;
      title := toCopy.title;
      language := toCopy.language;
      publishingStudio := toCopy.publishingStudio;
      customInfo := toCopy.customInfo;
    }

    /** Records whether the file at this movie's path exists now. */
    method UpdateValidity(fileExists: string -> bool)
      modifies this`validity
      ensures validity == fileExists(path)
    {
      validity := fileExists(path);
    }

    /** The validity as of the last check. */
    function GetValidity(): (r: bool)
      reads this`validity
      ensures r == validity
    {
      validity
    }

    /** The title, language and studio, lower-case in a well-formed movie. */
    function GetTitle(): (r: string)
      ensures r == title
      ensures Valid() ==> IsLowerCase(r)
    {
      title
    }

    function GetLanguage(): (r: string)
      ensures r == language
      ensures Valid() ==> IsLowerCase(r)
    {
      language
    }

    function GetPublishingStudio(): (r: string)
      ensures r == publishingStudio
      ensures Valid() ==> IsLowerCase(r)
    {
      publishingStudio
    }

    /** Adds the pair (key, value), replacing any earlier value of key. */
    method UpdateCustomInfo(key: string, value: string)
      modifies this`customInfo
      ensures customInfo == old(customInfo)[key := value]
    {
      customInfo := customInfo[key := value];
    }

    /**
     * Removes key. When key is absent nothing changes and found is false; it
     * stands for the "does not exist" message the catalog prints.
     */
    method RemoveCustomInfo(key: string) returns (found: bool)
      modifies this`customInfo
      ensures found == (key in old(customInfo))
      ensures customInfo == old(customInfo) - {key}
      ensures !found ==> customInfo == old(customInfo)
    {
      if key in customInfo {
        customInfo := customInfo - {key};
        found := true;
      } else {
        found := false;
      }
    }

    /** A copy of the metadata; a map is a value, so later changes on either side do not reach the other. */
    function GetCustomInfo(): (r: map<string, string>)
      reads this`customInfo
      ensures r.Keys == customInfo.Keys
      ensures forall k :: k in r ==> r[k] == customInfo[k]
    {
      customInfo
    }
  }
}
