/**
 * Client-side uses of the catalog, each on registries of its own: what a
 * caller observes when it claims a path twice, builds and shrinks a
 * watchlist, renames one, or edits the copies it is handed.
 */
module Scenarios {
  import opened Wrappers
  import opened Ascii
  import opened Tallies
  import opened Movies
  import opened Watchlists

  /** A second movie on a path already claimed is refused, and the path stays claimed once. */
  method SamePathTwice(fileExists: string -> bool)
    returns (first: Result<Movie, MovieError>, second: Result<Movie, MovieError>, claimed: seq<string>)
    ensures first.Success? && first.value.format == MP4
    ensures second == Failure(DuplicatePath)
    ensures claimed == ["/a.mp4"]
  {
    var paths := new PathRegistry();
    assert Extension("/a.mp4") == "MP4";
    first := Movie.Create(paths, fileExists, "/a.mp4", "A", "en", "S1");
    second := Movie.Create(paths, fileExists, "/a.mp4", "Again", "fr", "S2");
    claimed := paths.paths;
  }

  /** The formats of the paths of ExtensionCases. */
  lemma ExtensionFormats()
    ensures FormatOf("/x.mp4") == Some(MP4)
    ensures FormatOf("/y.MP4") == Some(MP4)
  {
    assert Extension("/x.mp4") == "MP4";
    assert Extension("/y.MP4") == "MP4";
  }

  /** Extensions are read without regard to case; one outside the six formats is refused. */
  method ExtensionCases(fileExists: string -> bool)
    returns (lower: Result<Movie, MovieError>, upper: Result<Movie, MovieError>,
             text: Result<Movie, MovieError>, short: Result<Movie, MovieError>)
    ensures lower.Success? && lower.value.format == MP4
    ensures upper.Success? && upper.value.format == MP4
    ensures text == Failure(InvalidFormat)
    ensures short == Failure(PathTooShort)
  {
    var paths := new PathRegistry();
    ExtensionFormats();
    UnsupportedExtension();
    lower := Movie.Create(paths, fileExists, "/x.mp4", "X", "en", "S");
    upper := Movie.Create(paths, fileExists, "/y.MP4", "Y", "en", "S");
    text := Movie.Create(paths, fileExists, "notes.TXT", "N", "en", "S");
    short := Movie.Create(paths, fileExists, "mp", "M", "en", "S");
  }

  /** Two fresh movies with distinct paths in English, from studios S1 and S2. */
  method TwoMovies(paths: PathRegistry, fileExists: string -> bool) returns (a: Movie, b: Movie)
    requires paths.paths == []
    modifies paths
    ensures a != b && a.Valid() && b.Valid() && fresh(a) && fresh(b)
    ensures a.path == "/a.mp4" && a.language == "en" && a.publishingStudio == "s1"
    ensures b.path == "/b.wmv" && b.language == "en" && b.publishingStudio == "s2"
    ensures a.customInfo == map[] && b.customInfo == map[]
  {
    assert Extension("/a.mp4") == "MP4";
    assert Extension("/b.wmv") == "WMV";
    assert ToLower("en") == "en" && ToLower("S1") == "s1" && ToLower("S2") == "s2";
    var ra := Movie.Create(paths, fileExists, "/a.mp4", "A", "en", "S1");
    var rb := Movie.Create(paths, fileExists, "/b.wmv", "B", "en", "S2");
    a, b := ra.value, rb.value;
  }

  /** The slots [a, b] of two distinct movies: both occupied, both scanned, both listed, in order. */
  lemma PairSlots(s: seq<Movie?>, a: Movie, b: Movie, fileExists: string -> bool)
    requires s == [a, b] && a != b
    ensures NonNullCount(s) == 2
    ensures s[..NonNullCount(s)] == s
    ensures Listed(s) == [a, b]
    ensures ValidSlots(s, fileExists) ==
      (if fileExists(a.path) then 1 else 0) + (if fileExists(b.path) then 1 else 0)
  {
    assert s[..1] == [a];
    assert [a][..0] == [];
    assert Listed([a]) == [a];
    assert ValidSlots([a], fileExists) == if fileExists(a.path) then 1 else 0;
  }

  /** The tallies of A and B: English twice, S1 and S2 once each. */
  lemma PairTallies(a: Movie, b: Movie)
    requires a.language == "en" && a.publishingStudio == "s1"
    requires b.language == "en" && b.publishingStudio == "s2"
    ensures TallyOf(Languages([a, b])) == map["en" := 2]
    ensures TallyOf(Studios([a, b])) == map["s1" := 1, "s2" := 1]
  {
    assert Languages([a, b]) == ["en", "en"];
    assert Studios([a, b]) == ["s1", "s2"];
    assert ["en", "en"][1..] == ["en"];
    assert ["s1", "s2"][1..] == ["s2"];
  }

  /** Watchlist "w1" built from the slots [A, B]. */
  method BuildW1(names: NameRegistry, fileExists: string -> bool) returns (w: Watchlist)
    requires names.names == []
    modifies names
    ensures names.names == ["w1"]
    ensures fresh(w) && w.Valid() && w.name == "w1"
    ensures w.languageCounts == map["en" := 2]
    ensures w.studioCounts == map["s1" := 1, "s2" := 1]
    ensures |w.movies| == 2 && w.movies[0].language == "en" && w.movies[0].publishingStudio == "s1"
    ensures w.movies[0].customInfo == map[]
    ensures w.validCount == (if fileExists("/a.mp4") then 1 else 0) + (if fileExists("/b.wmv") then 1 else 0)
  {
    var paths := new PathRegistry();
    var a, b := TwoMovies(paths, fileExists);
    var slots := new Movie?[2][a, b];
    assert slots[..] == [a, b];
    assert Slots(slots) == {a, b};
    PairSlots(slots[..], a, b, fileExists);
    PairTallies(a, b);
    var r := Watchlist.Create(names, fileExists, Some("w1"), slots);
    w := r.value;
  }

  /** Uncounting A from the tallies of "w1". */
  lemma DropA()
    ensures Drop(map["en" := 2], "en") == map["en" := 1]
    ensures Drop(map["s1" := 1, "s2" := 1], "s1") == map["s2" := 1]
  {
    assert map["s1" := 1, "s2" := 1] - {"s1"} == map["s2" := 1];
  }

  /**
   * Watchlist "w1" of A and B has one language and two studios; its valid
   * count is the number of the two files that exist. Removing its first
   * movie, A, leaves one English movie from S2.
   */
  method BuildAndShrink(fileExists: string -> bool)
    returns (languages: seq<string>, studios: seq<string>, valid: int,
             removed: bool, languageCounts: map<string, int>, studioCounts: map<string, int>)
    ensures |languages| == 1 && languages[0] == "en"
    ensures |studios| == 2 && (forall x :: x in studios <==> x == "s1" || x == "s2")
    ensures valid == (if fileExists("/a.mp4") then 1 else 0) + (if fileExists("/b.wmv") then 1 else 0)
    ensures removed
    ensures languageCounts == map["en" := 1]
    ensures studioCounts == map["s2" := 1]
  {
    var names := new NameRegistry();
    var w := BuildW1(names, fileExists);
    languages, studios := KeysOfW1(w);
    valid := w.GetValidCount();
    removed, languageCounts, studioCounts := RemoveA(w);
  }

  /** The languages and the studios of "w1". */
  method KeysOfW1(w: Watchlist) returns (languages: seq<string>, studios: seq<string>)
    requires w.languageCounts == map["en" := 2]
    requires w.studioCounts == map["s1" := 1, "s2" := 1]
    ensures |languages| == 1 && languages[0] == "en"
    ensures |studios| == 2 && (forall x :: x in studios <==> x == "s1" || x == "s2")
  {
    var la := w.GetLanguages();
    var sa := w.GetStudios();
    languages, studios := la[..], sa[..];
    assert languages[0] in w.languageCounts;
  }

  /** Removing A, the first movie of "w1", uncounts English once and S1 entirely. */
  method RemoveA(w: Watchlist) returns (removed: bool, languageCounts: map<string, int>, studioCounts: map<string, int>)
    requires w.Valid() && w.movies != []
    requires w.movies[0].language == "en" && w.movies[0].publishingStudio == "s1"
    requires w.languageCounts == map["en" := 2]
    requires w.studioCounts == map["s1" := 1, "s2" := 1]
    modifies w
    ensures removed
    ensures languageCounts == map["en" := 1]
    ensures studioCounts == map["s2" := 1]
  {
    DropA();
    removed := w.RemoveFirst();
    languageCounts, studioCounts := w.languageCounts, w.studioCounts;
  }

  /** An array of one slot holding a fresh movie, every file existing. */
  method OneSlot(path: string) returns (slots: array<Movie?>, m: Movie)
    requires FormatOf(path).Some?
    ensures fresh(slots) && fresh(m)
    ensures slots[..] == [m] && Slots(slots) == {m} && SlotsValid(slots)
    ensures NonNullCount(slots[..]) == 1
    ensures m.validity && m.path == path
  {
    var paths := new PathRegistry();
    var r := Movie.Create(paths, _ => true, path, "T", "en", "S");
    m := r.value;
    slots := new Movie?[1][m];
    assert slots[..] == [m];
    assert Slots(slots) == {m};
    assert [m][..0] == [];
  }

  /**
   * The old name of a renamed watchlist stays reserved: a new watchlist
   * cannot take "w1" after "w1" has been renamed to "w2".
   */
  method RenamedAwayStaysReserved(fileExists: string -> bool)
    returns (renamed: Outcome<WatchlistError>, second: Result<Watchlist, WatchlistError>)
    ensures renamed == Pass
    ensures second == Failure(DuplicateName)
  {
    var names := new NameRegistry();
    var w := BuildW1(names, fileExists);
    renamed := w.Rename(names, "w2");
    ExtensionFormats();
    var slots, m := OneSlot("/x.mp4");
    second := Watchlist.Create(names, fileExists, Some("w1"), slots);
  }

  /**
   * Rename as written does not reserve the new name: after "w1" is renamed
   * to "w2", a second watchlist can be created under "w2", and two
   * watchlists then share a name.
   */
  method RenameLeavesNewNameFree(fileExists: string -> bool)
    returns (first: Watchlist, second: Result<Watchlist, WatchlistError>)
    ensures first.name == "w2"
    ensures second.Success? && second.value.name == "w2" && second.value != first
  {
    var names := new NameRegistry();
    first := BuildW1(names, fileExists);
    var renamed := first.Rename(names, "w2");
    ExtensionFormats();
    var slots, m := OneSlot("/x.mp4");
    second := Watchlist.Create(names, fileExists, Some("w2"), slots);
  }

  /** RenameReserving reserves the new name, so the second "w2" is refused. */
  method RenameReservingKeepsNamesUnique(fileExists: string -> bool)
    returns (renamed: Outcome<WatchlistError>, second: Result<Watchlist, WatchlistError>)
    ensures renamed == Pass
    ensures second == Failure(DuplicateName)
  {
    var names := new NameRegistry();
    var first := BuildW1(names, fileExists);
    renamed := first.RenameReserving(names, "w2");
    ExtensionFormats();
    var slots, m := OneSlot("/x.mp4");
    second := Watchlist.Create(names, fileExists, Some("w2"), slots);
  }

  /** Two slots holding the same fresh movie, whose file exists. */
  method TwinSlots() returns (slots: array<Movie?>, m: Movie)
    ensures fresh(slots) && fresh(m)
    ensures slots[..] == [m, m] && Slots(slots) == {m} && SlotsValid(slots)
    ensures NonNullCount(slots[..]) == 2
    ensures Listed(slots[..][..NonNullCount(slots[..])]) == [m]
    ensures ValidSlots(slots[..][..NonNullCount(slots[..])], _ => true) == 2
  {
    ExtensionFormats();
    var one;
    one, m := OneSlot("/x.mp4");
    slots := new Movie?[2][m, m];
    assert slots[..] == [m, m];
    assert Slots(slots) == {m};
    DuplicateSlotCountedTwice(m, _ => true);
    assert [m, m][..1] == [m] && [m][..0] == [];
    assert slots[..][..NonNullCount(slots[..])] == [m, m];
  }

  /**
   * A movie in two slots, its file existing: Create lists it once but counts
   * it twice, so once it is removed the empty watchlist still counts one
   * valid movie.
   */
  method DuplicateSlot() returns (listed: int, counted: int, afterRemoval: int)
    ensures listed == 1 && counted == 2 && afterRemoval == 1
  {
    var slots, m := TwinSlots();
    var names := new NameRegistry();
    var r := Watchlist.Create(names, _ => true, Some("w"), slots);
    var w := r.value;
    listed := |w.movies|;
    counted := w.GetValidCount();
    var removed := w.RemoveFirst();
    afterRemoval := w.GetValidCount();
  }

  /** CreateScanningAll counts the movie of two slots once and ends at zero once it is removed. */
  method DuplicateSlotScanningAll() returns (counted: int, afterRemoval: int)
    ensures counted == 1 && afterRemoval == 0
  {
    var slots, m := TwinSlots();
    var names := new NameRegistry();
    var r := Watchlist.CreateScanningAll(names, _ => true, Some("w"), slots);
    var w := r.value;
    assert w.movies == [m];
    assert ValidMovies([m], _ => true) == 1 by {
      assert [m][..0] == [];
    }
    counted := w.GetValidCount();
    var removed := w.RemoveFirst();
    afterRemoval := w.GetValidCount();
  }

  /** An empty slot followed by a slot holding a fresh movie. */
  method GapThenMovie() returns (slots: array<Movie?>, m: Movie)
    ensures fresh(slots) && fresh(m)
    ensures slots[..] == [null, m] && Slots(slots) == {m} && SlotsValid(slots)
    ensures NonNullCount(slots[..]) == 1
    ensures Listed(slots[..][..NonNullCount(slots[..])]) == []
    ensures Listed(slots[..]) == [m]
  {
    ExtensionFormats();
    var one;
    one, m := OneSlot("/x.mp4");
    slots := new Movie?[2][null, m];
    assert slots[..] == [null, m];
    assert Slots(slots) == {m};
    MovieAfterEmptySlotSkipped(m);
  }

  /**
   * A movie behind an empty slot: Create scans only the first slot, so the
   * watchlist it builds is empty and RemoveFirst has nothing to remove.
   */
  method MovieBehindEmptySlot() returns (listed: seq<Movie>, removed: bool)
    ensures listed == [] && !removed
  {
    var slots, m := GapThenMovie();
    var names := new NameRegistry();
    var r := Watchlist.Create(names, _ => true, Some("w"), slots);
    var w := r.value;
    listed := w.movies;
    removed := w.RemoveFirst();
  }

  /** CreateScanningAll lists the movie behind the empty slot. */
  method MovieBehindEmptySlotScanningAll() returns (listed: seq<Movie>, removed: bool)
    ensures |listed| == 1 && removed
  {
    var slots, m := GapThenMovie();
    var names := new NameRegistry();
    var r := Watchlist.CreateScanningAll(names, _ => true, Some("w"), slots);
    var w := r.value;
    listed := w.movies;
    removed := w.RemoveFirst();
  }

  /**
   * The copies AccessAll hands out are movies of their own: metadata set on
   * a copy does not reach the movie in the watchlist.
   */
  method CopiesAreIndependent(fileExists: string -> bool)
    returns (original: map<string, string>, copied: map<string, string>)
    ensures original == map[]
    ensures copied == map["note" := "seen"]
  {
    var names := new NameRegistry();
    var w := BuildW1(names, fileExists);
    var copies := w.AccessAll();
    var c := copies[0];
    c.UpdateCustomInfo("note", "seen");
    original := w.movies[0].GetCustomInfo();
    copied := c.GetCustomInfo();
  }
}
