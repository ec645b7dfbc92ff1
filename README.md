# Movie catalog entities in Dafny

This project models the entity layer of a small movie catalog, written in Java:

- **Movie** (`src/Movie.java`) is one media entry. It has a file path that no other movie may claim. It has a format read from the last three characters of the path (MP4, MOV, WMV, AVI, FLV or MKV, in any letter case). Its title, language and publishing studio are lower-cased when it is created. It also has a validity flag telling whether the file existed when last checked, and a string-to-string map of custom information.
- **Watchlist** (`src/Watchlist.java`) is a named, ordered list of distinct movies. It knows:
  - the number of occupied slots whose movie was valid when it was built (a movie in two slots counts twice), decremented on removal;
  - a tally of the languages of its movies;
  - a tally of their studios.

  No name may be given at creation to two watchlists.

Both Java classes keep process-wide lists in static fields: the claimed paths and the names ever given to a watchlist. Here they are explicit objects, `Movies.PathRegistry` and `Watchlists.NameRegistry`, handed to the operations that read or extend them. A Java constructor that throws becomes a static `Create` method returning a `Result`. On each failure the model covers, it changes nothing (a null text, which the model does not cover, would leave a path claimed; see "Left out"). On success it returns the fresh object, whose fields a Dafny constructor (`Init`, `Empty`) sets.

The model is imperative where the source is:

- The watchlist and the movie are classes whose methods update their fields in place.
- The loops of the source keep their form as `while` loops with invariants: format matching, the path scan, counting the occupied slots, building a watchlist, copying it out.
- Each method is proved against specification functions. `Tallies.TallyOf` is the tally of a sequence of keys; `Watchlists.Listed` is the movies listed from a sequence of slots. Lemmas about those functions carry the properties the source promises: every tally value is positive, the values add up to the list length, and removal deletes a key whose count was one.

Modules:

- `Wrappers`: `Option`, `Result`, `Outcome`.
- `Ascii`: case mapping.
- `Tallies`: occurrence counts and their sums.
- `Movies`: formats, the path registry, `Movie`.
- `Watchlists`: the name registry, `Watchlist`.
- `Scenarios`: client code that exercises both classes, including the example runs behind the findings below.

## Behaviour of the code that the model keeps

Where the code does less than its own documentation promises, the model does what the code does; "## Findings" pairs each case with a corrected member.

- The construction loop runs to the number of occupied slots, not to the array length (`src/Watchlist.java:66`). The constructor Javadoc (`src/Watchlist.java:26-36`) says the movies of the array are stored.
- The validity of a movie is refreshed and counted for every scanned occupied slot, including a slot whose movie is already listed (`src/Watchlist.java:89-93`). The class comment says a watchlist knows how many valid movies it contains (`src/Watchlist.java:7`).
- `rename` does not reserve the new name (`src/Watchlist.java:108-114`). The class comment says the name of each watchlist is unique (`src/Watchlist.java:6`).

## Model

| member | source | states |
|---|---|---|
| Ascii.ToLower | src/Movie.java:89-91 | the result has the input's length, contains no upper-case letter, and maps each character by the ASCII lower-case mapping |
| Ascii.ToUpper | src/Movie.java:50 | the result has the input's length, contains no lower-case letter, and maps each character by the ASCII upper-case mapping |
| Ascii.LowerCaseFixed | src/Movie.java:89-91 | lower-casing a string that has no upper-case letter returns it unchanged |
| Ascii.ToLowerIdempotent | src/Movie.java:89-91 | lower-casing twice gives the same string as lower-casing once |
| Ascii.ToUpperIgnoresCase | src/Movie.java:34-35 | two strings that differ only in letter case have the same upper-case form |
| Movies.Name | src/Movie.java:16 | the name of each of the six formats, as `Format.name()` gives it at line 57: three characters, none lower-case, so it is comparable with an upper-cased extension |
| Movies.FormatNamed | src/Movie.java:16 | a format is returned exactly when the string is the name of one of the six formats, and then it is that format |
| Movies.Extension | src/Movie.java:50 | the extension is three characters long and contains no lower-case letter |
| Movies.FormatOf | src/Movie.java:50-62 | a path names a format exactly when it has at least three characters and its upper-cased extension is a format's name, and then it names that format |
| Movies.MatchFormat | src/Movie.java:53-62 | the loop over the six formats finds one exactly when the extension is a format name, and the one it finds has that name |
| Movies.FormatListed | src/Movie.java:16 | every format is among the six formats the loop tries |
| Movies.NamedFormat | src/Movie.java:57 | a format's name identifies that format and no other |
| Movies.FormatIgnoresCase | src/Movie.java:34-35 | two paths that differ only in letter case name the same format, or both name none |
| Movies.MixedCaseExtension | src/Client.java:9-11 | the mixed-case extensions "mP4" and "FlV" name MP4 and FLV |
| Movies.UnsupportedExtension | src/Movie.java:63-66 | "TXT" names no format; a three-character path is its own extension; a one-character path names none |
| Movies.PathRegistry.constructor | src/Movie.java:27 | the process-wide list of claimed paths starts empty |
| Movies.PathRegistry.Claims | src/Movie.java:69-75 | the scan of the claimed paths reports a clash exactly when the path is already claimed |
| Movies.Movie.Valid | src/Movie.java:50-91 | what every movie built by the constructor satisfies: its path names its format, and its title, language and studio have no upper-case letter |
| Movies.Movie.Create | src/Movie.java:44-99 | fails with PathTooShort, InvalidFormat or DuplicatePath in those cases and then leaves the registry unchanged; succeeds exactly when the path names a format and is unclaimed; on success it appends the path to the registry and returns a fresh well-formed movie with that path and format, the lower-cased texts, empty custom information, and validity equal to whether the file exists |
| Movies.Movie.Init | src/Movie.java:77-94 | the fields are set as the constructor sets them, and the movie is well formed |
| Movies.Movie.Copy | src/Movie.java:109-125 | the copy has the source's validity, path, texts and custom information, and a format recomputed from the path that equals the source's; the path registry is not involved |
| Movies.Movie.UpdateValidity | src/Movie.java:133-136 | the validity becomes whether the file at the path exists, and no other field changes |
| Movies.Movie.GetValidity | src/Movie.java:143-145 | returns the validity as of the last check |
| Movies.Movie.GetTitle | src/Movie.java:152-154 | returns the title, which has no upper-case letter in a well-formed movie |
| Movies.Movie.GetLanguage | src/Movie.java:161-163 | returns the language, which has no upper-case letter in a well-formed movie |
| Movies.Movie.GetPublishingStudio | src/Movie.java:170-172 | returns the studio, which has no upper-case letter in a well-formed movie |
| Movies.Movie.UpdateCustomInfo | src/Movie.java:181-183 | the custom information becomes the old one with key mapped to value (insert or overwrite) |
| Movies.Movie.RemoveCustomInfo | src/Movie.java:188-195 | reports whether the key was present; the custom information loses exactly that key, and is unchanged when the key was absent |
| Movies.Movie.GetCustomInfo | src/Movie.java:204-207 | returns a map with the same keys and values as the custom information, a value not shared with the movie |
| Tallies.TallyOf | src/Watchlist.java:32-35 | the reference tally of a sequence of keys: each key that occurs, mapped to its number of occurrences; the maps of a watchlist are proved equal to it |
| Tallies.Bump | src/Watchlist.java:72-79 | counting a key once more adds the key to the key set and keeps every other key |
| Tallies.Drop | src/Watchlist.java:184-201 | counting a present key once less keeps the key set within the old one |
| Tallies.CountPositive | src/Watchlist.java:33-35 | a key's count is positive exactly when it occurs |
| Tallies.CountAppend | src/Watchlist.java:33-35 | appending a key adds one to its count and leaves the other counts alone |
| Tallies.TallyKeys | src/Watchlist.java:8 | the keys of a tally are exactly the elements counted, each value is at least 1, and each value is the key's count |
| Tallies.TallyAppend | src/Watchlist.java:71-87 | the tally of a sequence with one more key is the old tally bumped at that key |
| Tallies.TallyPrepend | src/Watchlist.java:184-201 | the tally of a sequence with a key in front is the tally of the rest bumped at that key |
| Tallies.DropBump | src/Watchlist.java:184-201 | on a tally with positive values, dropping a key undoes bumping it |
| Tallies.TallyRemoveHead | src/Watchlist.java:184-201 | the head's key is in the tally, and removing the head drops the tally at it, deleting the key when its count was 1 |
| Tallies.SumOverRemove | src/Watchlist.java:20-21 | the sum over a key set is one key's value plus the sum over the others |
| Tallies.SumOverAgree | src/Watchlist.java:20-21 | the sum over a key set depends only on the values at those keys |
| Tallies.SumBump | src/Watchlist.java:71-87 | counting one key once more raises the sum of the values by one |
| Tallies.TallySum | src/Watchlist.java:20-21 | the values of a tally add up to the length of the counted sequence |
| Watchlists.NameRegistry.constructor | src/Watchlist.java:24 | the process-wide list of names given to watchlists starts empty |
| Watchlists.Listed | src/Watchlist.java:66-70 | the reference listing of a sequence of slots: each movie of an occupied slot, once, in the order of its first slot; Create and Fill are proved equal to it |
| Watchlists.ValidSlots | src/Watchlist.java:89-93 | the reference valid count: the number of occupied slots whose movie's file exists, a movie counted once per slot |
| Watchlists.NonNullCount | src/Watchlist.java:47-52 | the number of occupied slots is at most the number of slots |
| Watchlists.CountMovies | src/Watchlist.java:47-52 | the counting loop returns the number of occupied slots of the array |
| Watchlists.NoMovieMeansEmpty | src/Watchlist.java:53-55 | the count of occupied slots is zero exactly when every slot is empty |
| Watchlists.ListedNonEmpty | src/Watchlist.java:66-70 | slots with an occupied slot list at least one movie |
| Watchlists.ListedInSlotOrder | src/Watchlist.java:66-70 | listed movies keep the order of their first slots: a movie listed earlier than another occupies a slot before every slot of the later one |
| Watchlists.ListedMovies | src/Watchlist.java:66-70 | the listed movies are distinct and are exactly the movies in the slots |
| Watchlists.ListedMember | src/Watchlist.java:66-70 | every listed movie occupies one of the slots |
| Watchlists.AllSlotsListed | src/Watchlist.java:66-70 | the movie of every occupied slot is listed when every slot is scanned |
| Watchlists.MovieAfterEmptySlotSkipped | src/Watchlist.java:66 | with slots [empty, m], only one slot is scanned, so nothing is listed; scanning both would list m |
| Watchlists.DuplicateSlotCountedTwice | src/Watchlist.java:89-93 | with slots [m, m] and m's file present, m is listed once but counted valid twice, while counting listed movies gives one |
| Watchlists.Watchlist.Valid | src/Watchlist.java:5-21 | the watchlist invariant: the movies are distinct and well formed, and each tally map equals the tally of the movies' languages (studios), so every key counts the movies carrying it |
| Watchlists.Watchlist.TalliesAddUp | src/Watchlist.java:20-21 | in a well-formed watchlist both tallies have only positive values, and each tally's values add up to the number of movies |
| Watchlists.Watchlist.TallyKeysAreFields | src/Watchlist.java:8 | the keys of the language (studio) tally are exactly the languages (studios) of the listed movies |
| Watchlists.Watchlist.Empty | src/Watchlist.java:60-64 | a watchlist with the given name, no movies, empty tallies and a zero count, which is well formed |
| Watchlists.Watchlist.Append | src/Watchlist.java:68-87 | appends an unlisted movie at the end, bumps both tallies at its language and studio, and keeps the watchlist well formed |
| Watchlists.Watchlist.Create | src/Watchlist.java:40-100 | fails with NullInput, EmptyInput or DuplicateName in those cases, leaving the registry and every movie's validity unchanged; succeeds exactly otherwise. On success: the registry gains the name; the fresh, well-formed watchlist lists the distinct movies of the first NonNullCount slots in first-slot order; validCount is the number of scanned occupied slots whose file exists; those movies' validity is refreshed and every other movie's is left alone |
| Watchlists.Watchlist.Fill | src/Watchlist.java:65-95 | the construction loop over the first n slots lists their distinct movies, counts valid slots, refreshes the scanned movies and leaves the rest alone |
| Watchlists.Watchlist.AdmitSlot | src/Watchlist.java:67-93 | one slot lists its movie if it is occupied and not yet listed, refreshes the movie's validity, reports whether it is now valid, and changes no other movie |
| Watchlists.Watchlist.CreateScanningAll | src/Watchlist.java:26-36 | the same checks and registry update as Create; it scans every slot, so every movie of the array is listed and the list is non-empty; validCount is the number of listed movies whose file exists |
| Watchlists.Watchlist.FillOnce | src/Watchlist.java:26-36 | the loop over every slot lists the distinct movies, refreshes every movie's validity and counts each listed movie once |
| Watchlists.Watchlist.Rename | src/Watchlist.java:108-114 | fails with DuplicateName and keeps the name when the new name is in the registry; otherwise it takes the new name; the registry is never changed and the watchlist stays well formed |
| Watchlists.Watchlist.RenameReserving | src/Watchlist.java:102-107 | like Rename, but a successful rename also appends the new name to the registry, so the old and the new name are both reserved; the watchlist stays well formed |
| Watchlists.Watchlist.GetLanguages | src/Watchlist.java:121-135 | a fresh array of distinct strings whose length is the number of languages and whose elements are exactly the languages counted |
| Watchlists.Watchlist.GetStudios | src/Watchlist.java:141-153 | a fresh array of distinct strings whose length is the number of studios and whose elements are exactly the studios counted |
| Watchlists.Watchlist.RemoveFirst | src/Watchlist.java:167-207 | on an empty list it returns false and changes nothing. Otherwise it returns true and drops the head. validCount goes down by one exactly when the head's validity is set. Both tallies drop the head's key, deleting it when its count was 1. The watchlist stays well formed |
| Watchlists.Watchlist.AccessAll | src/Watchlist.java:217-226 | returns as many distinct fresh movies as are listed, each a well-formed copy agreeing on every field with the movie at the same position |
| Watchlists.Watchlist.GetValidCount | src/Watchlist.java:233-235 | returns the stored valid count |
| Watchlists.AppendTallies | src/Watchlist.java:71-87 | appending a movie bumps the language tally at its language and the studio tally at its studio |
| Watchlists.RemoveHeadTallies | src/Watchlist.java:184-201 | removing the first movie drops the language tally at its language and the studio tally at its studio, both keys being present |
| Watchlists.FieldKeys | src/Watchlist.java:8 | the keys of the two tallies of a list are its languages and its studios |
| Watchlists.LanguageKeys | src/Watchlist.java:121-122 | the keys of the language tally are exactly the languages of the movies |
| Watchlists.StudioKeys | src/Watchlist.java:141-142 | the keys of the studio tally are exactly the studios of the movies |
| Watchlists.KeyArray | src/Watchlist.java:122-131 | the loop over the key set fills a fresh array of the key count with distinct elements that are exactly the keys |
| Scenarios.SamePathTwice | src/Movie.java:69-75 | a second movie on a claimed path fails with DuplicatePath, and the path is claimed once |
| Scenarios.ExtensionFormats | src/Movie.java:50-62 | "/x.mp4" and "/y.MP4" both name MP4 |
| Scenarios.ExtensionCases | src/Movie.java:50-66 | lower- and upper-case "mp4" extensions are accepted as MP4, "TXT" is refused with InvalidFormat, and a two-character path with PathTooShort |
| Scenarios.TwoMovies | src/Movie.java:44-99 | two movies on "/a.mp4" and "/b.wmv" are created, both in "en", from "s1" and "s2" |
| Scenarios.PairSlots | src/Watchlist.java:47-70 | slots [a, b] with a and b distinct: both are occupied, both are scanned, and both are listed in order |
| Scenarios.PairTallies | src/Watchlist.java:71-87 | the tallies of A and B: "en" counted twice, "s1" and "s2" once each |
| Scenarios.BuildW1 | src/Watchlist.java:40-100 | watchlist "w1" of [A, B] reserves "w1" and has those tallies; its valid count is the number of the two files that exist |
| Scenarios.DropA | src/Watchlist.java:184-201 | dropping A's language and studio leaves {"en": 1} and {"s2": 1} |
| Scenarios.BuildAndShrink | src/Watchlist.java:121-207 | "w1" has languages {"en"} and studios {"s1", "s2"}; after RemoveFirst the tallies are {"en": 1} and {"s2": 1} |
| Scenarios.KeysOfW1 | src/Watchlist.java:121-153 | the language array of "w1" is ["en"] and its studio array holds exactly "s1" and "s2" |
| Scenarios.RemoveA | src/Watchlist.java:167-207 | removing A from "w1" answers true and leaves the tallies {"en": 1} and {"s2": 1} |
| Scenarios.OneSlot | src/Movie.java:44-99 | a one-slot array holding a fresh valid movie on the given path |
| Scenarios.RenamedAwayStaysReserved | src/Watchlist.java:57-61 | after "w1" is renamed to "w2", a new watchlist named "w1" fails with DuplicateName |
| Scenarios.RenameLeavesNewNameFree | src/Watchlist.java:108-114 | after "w1" is renamed to "w2", a second watchlist can be created as "w2", so two watchlists share the name |
| Scenarios.RenameReservingKeepsNamesUnique | src/Watchlist.java:6 | with RenameReserving, the second "w2" fails with DuplicateName |
| Scenarios.TwinSlots | src/Watchlist.java:66-93 | slots [m, m] list m once and count two valid slots |
| Scenarios.DuplicateSlot | src/Watchlist.java:89-93 | with slots [m, m], Create lists one movie and counts two valid ones, and after RemoveFirst the empty watchlist still counts one |
| Scenarios.DuplicateSlotScanningAll | src/Watchlist.java:7 | CreateScanningAll on [m, m] counts one valid movie, and zero after RemoveFirst |
| Scenarios.GapThenMovie | src/Watchlist.java:66 | slots [empty, m]: one slot is occupied, the scanned prefix lists nothing, and scanning all lists m |
| Scenarios.MovieBehindEmptySlot | src/Watchlist.java:66 | Create on [empty, m] builds an empty watchlist, on which RemoveFirst answers false |
| Scenarios.MovieBehindEmptySlotScanningAll | src/Watchlist.java:26-36 | CreateScanningAll on [empty, m] lists m, and RemoveFirst then answers true |
| Scenarios.CopiesAreIndependent | src/Watchlist.java:210-216 | setting custom information on a copy that AccessAll handed out leaves the original's custom information empty |

## Left out

- File existence (`File.exists`, `src/Movie.java:85-86` and `133-136`) is file-system I/O.
  - It is an oracle parameter `fileExists: string -> bool`, passed to every operation that consults it.
  - It stands for the file system at the moment of that call.
  - Errors and delays of the file system are not modelled.
- Movies.PathRegistry.Claims compares paths by string equality, not by `File.compareTo` (`src/Movie.java:72`).
  - `File.compareTo` compares the normalised pathnames as strings, ignoring letter case on Windows only; it does not resolve relative paths.
  - What string equality loses is that normalisation: paths differing in letter case on Windows, in doubled or trailing separators, or in '/' against '\\' on Windows, are one path to the source and two paths here.
- Lower- and upper-casing map only the ASCII letters. `String.toLowerCase`/`toUpperCase` depend on Unicode and on the default locale; the Turkish dotted and dotless i are an example.
- A path shorter than three characters makes `substring` throw in the source (`src/Movie.java:50`). Here it is the error `PathTooShort`.
- Null strings are not modelled: Dafny strings are never null.
  - A null path makes the source's movie constructor throw at `src/Movie.java:50`, before anything changes.
  - A null title, language or studio throws at `src/Movie.java:89-91`, after `src/Movie.java:82` has claimed the path. In the source that failed creation leaves the path claimed; Movies.Movie.Create's "registry unchanged on failure" holds only because this case is not modelled.
  - Watchlists.Watchlist.Rename: `rename(null)` succeeds in the source, because the registry's `contains(null)` is false (`src/Watchlist.java:110-113`), and the name becomes null. `newName` is a `string` here, so a null name cannot be expressed.
  - A null watchlist name given to the constructor is `None`.
  - A null array is a null `array?`.
  - An empty slot is a null `Movie?`.
- `src/Library.java` is not part of this model. `Library.addMovie` and `Library.addWatchlist` (`src/Movie.java:97`, `src/Watchlist.java:99`) only insert into a set, and are left out.
- `src/Client.java` is a demo driver with hard-coded local paths. It is not part of this model. Its mixed-case extensions appear in `Movies.MixedCaseExtension`.
- The console message of `removeCustomInfo` for a missing key (`src/Movie.java:193`) is the `false` result of `Movies.Movie.RemoveCustomInfo`.
- The iteration order of `HashMap` key sets is unspecified. The arrays of GetLanguages and GetStudios are therefore specified as sets: their length, no duplicates, and exact membership.
- `validCount` and the tally values are Java `int`s; their 32-bit wrap-around is not modelled. It would take more than 2^31 movies in one watchlist.
- The copy constructor leaves `format` null when the path names no format. Movies.Movie.Copy requires a well-formed source, and every movie built by Create is one, so that case is not modelled.
- A watchlist's well-formedness (`Watchlist.Valid`) and a movie's (`Movie.Valid`) are stated at each call, because Dafny has no class invariants.
  - Every constructor and method here establishes or preserves them.
  - Movie's path, format and texts are never reassigned in the source, and are `const` here.
- A deep copy of a Java `HashMap` is a map value here, so the independence that `getCustomInfo` and the copy constructor promise holds by construction. `Scenarios.CopiesAreIndependent` shows the case across objects.

## Findings

| source | as written | input that shows it | evidently intended | confidence | as-written member | corrected member |
|---|---|---|---|---|---|---|
| src/Watchlist.java:66 | the construction loop runs while `i < movieCount`, the number of occupied slots | slots `[null, m]`: `movieCount` is 1, only slot 0 is scanned, and the watchlist is built empty although m was passed | scan every slot, `i < arrayMovie.length` | high, not executed | Watchlists.MovieAfterEmptySlotSkipped | Watchlists.Watchlist.CreateScanningAll (corrects this row and the next together) |
| src/Watchlist.java:89-93 | validity is refreshed and `vCount` incremented for every occupied slot, including a slot whose movie is already listed | slots `[m, m]` with m's file present: one movie is listed but `validCount` is 2, and after `removeFirst` the empty watchlist still reports 1 | count each listed movie once ("Watchlist knows how many valid movies it contains", line 7) | medium, not executed | Watchlists.DuplicateSlotCountedTwice | Watchlists.Watchlist.CreateScanningAll (corrects this row and the previous together) |
| src/Watchlist.java:110-113 | `rename` checks the new name against the registry but does not add it | create "w1", rename it to "w2", then create another watchlist "w2": it succeeds, and two watchlists are named "w2" | reserve the new name too ("The name of each watchlist is unique", line 6) | high, not executed | Scenarios.RenameLeavesNewNameFree | Watchlists.Watchlist.RenameReserving |
