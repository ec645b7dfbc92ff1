/**
 * A named watchlist: an ordered list of distinct movies, the number of valid
 * movies counted when it was built, and two tallies, of the languages and of
 * the studios of its movies. Names are checked against a process-wide list
 * of the names ever given to a watchlist at creation, an explicit
 * NameRegistry object here.
 */
module Watchlists {
  import opened Wrappers
  import opened Tallies
  import opened Movies

  datatype WatchlistError =
    | NullInput      // the name or the array of movies is absent
    | EmptyInput     // every slot of the array is empty
    | DuplicateName  // the name is in the registry

  /** The names given to watchlists at creation, oldest first. */
  class NameRegistry {
    var names: seq<string>

    constructor ()
      ensures names == []
    {
      names := [];
    }
  }

  /** The languages of ms, in order. */
  function Languages(ms: seq<Movie>): seq<string> {
    seq(|ms|, i requires 0 <= i < |ms| => ms[i].language)
  }

  /** The publishing studios of ms, in order. */
  function Studios(ms: seq<Movie>): seq<string> {
    seq(|ms|, i requires 0 <= i < |ms| => ms[i].publishingStudio)
  }

  /** The number of occupied slots. */
  function NonNullCount(slots: seq<Movie?>): (n: nat)
    ensures n <= |slots|
  {
    if slots == [] then 0
    else NonNullCount(slots[..|slots| - 1]) + (if slots[|slots| - 1] != null then 1 else 0)
  }

  /** The movies of the occupied slots, each once, in the order of their first slot. */
  function Listed(slots: seq<Movie?>): seq<Movie> {
    if slots == [] then []
    else
      var rest, last := Listed(slots[..|slots| - 1]), slots[|slots| - 1];
      if last == null || last in rest then rest else rest + [last]
  }

  /** The number of occupied slots whose movie's file exists, a movie counted once per slot. */
  function ValidSlots(slots: seq<Movie?>, fileExists: string -> bool): nat {
    if slots == [] then 0
    else
      var last := slots[|slots| - 1];
      ValidSlots(slots[..|slots| - 1], fileExists) + (if last != null && fileExists(last.path) then 1 else 0)
  }

  /** The number of movies of ms whose file exists. */
  function ValidMovies(ms: seq<Movie>, fileExists: string -> bool): nat {
    if ms == [] then 0
    else ValidMovies(ms[..|ms| - 1], fileExists) + (if fileExists(ms[|ms| - 1].path) then 1 else 0)
  }

  /** The movies of the slots of a, as a set. */
  ghost function Slots(a: array?<Movie?>): set<Movie>
    reads a
  {
    if a == null then {} else set m: Movie | m in a[..]
  }

  /** Every movie in a slot of a is a well-formed movie. */
  ghost predicate SlotsValid(a: array?<Movie?>)
    reads a
  {
    forall m :: m in Slots(a) ==> m.Valid()
  }

  /** A slice has no occupied slot exactly when every slot in it is empty. */
  lemma {:induction false} NoMovieMeansEmpty(slots: seq<Movie?>)
    ensures NonNullCount(slots) == 0 <==> forall i :: 0 <= i < |slots| ==> slots[i] == null
  {
    if slots != [] {
      NoMovieMeansEmpty(slots[..|slots| - 1]);
      assert forall i :: 0 <= i < |slots| - 1 ==> slots[..|slots| - 1][i] == slots[i];
    }
  }

  /** A slice with an occupied slot lists at least one movie. */
  lemma {:induction false} ListedNonEmpty(slots: seq<Movie?>)
    requires NonNullCount(slots) > 0
    ensures Listed(slots) != []
  {
    var init := slots[..|slots| - 1];
    if slots[|slots| - 1] == null {
      ListedNonEmpty(init);
    }
  }

  /**
   * The listing keeps the order of first occurrence: every slot holding a
   * later listed movie comes after some slot holding an earlier one.
   */
  lemma {:induction false} ListedInSlotOrder(slots: seq<Movie?>, i: nat, j: nat, p: nat)
    requires i < j < |Listed(slots)|
    requires p < |slots| && slots[p] == Listed(slots)[j]
    ensures Listed(slots)[i] in slots[..p]
  {
    var init, last := slots[..|slots| - 1], slots[|slots| - 1];
    var rest := Listed(init);
    ListedMovies(init);
    if p < |init| {
      assert slots[..p] == init[..p];
      if j < |rest| {
        ListedInSlotOrder(init, i, j, p);
      } else {
        assert false;
      }
    } else {
      assert slots[..p] == init;
      assert i < |rest| && Listed(slots)[i] == rest[i] && rest[i] in rest;
      ListedMember(init, rest[i]);
    }
  }

  /**
   * Create scans only the first NonNullCount(a[..]) slots of a. A movie
   * behind an empty slot is then never listed, although every occupied slot
   * is listed when all slots are scanned.
   */
  lemma MovieAfterEmptySlotSkipped(m: Movie)
    ensures NonNullCount([null, m]) == 1
    ensures Listed([null, m][..NonNullCount([null, m])]) == []
    ensures Listed([null, m]) == [m]
  {
    assert [null, m][..1] == [null];
    assert [null, m][..1][..0] == [];
  }

  /**
   * Create counts a valid movie once per slot that holds it, so a movie in
   * two slots is counted twice though it is listed once.
   */
  lemma DuplicateSlotCountedTwice(m: Movie, fileExists: string -> bool)
    requires fileExists(m.path)
    ensures Listed([m, m]) == [m]
    ensures ValidSlots([m, m], fileExists) == 2
    ensures ValidMovies(Listed([m, m]), fileExists) == 1
  {
    assert [m, m][..1] == [m];
    assert [m][..0] == [];
    assert Listed([m]) == [m];
    assert ValidSlots([m], fileExists) == 1;
    assert ValidMovies([m], fileExists) == 1;
  }

  /** Every occupied slot is listed when all the slots are scanned. */
  lemma AllSlotsListed(slots: seq<Movie?>)
    ensures forall i :: 0 <= i < |slots| && slots[i] != null ==> slots[i] in Listed(slots)
  {
    ListedMovies(slots);
  }

  /** The listed movies are distinct, and they are exactly the movies in the slots. */
  lemma {:induction false} ListedMovies(slots: seq<Movie?>)
    ensures Distinct(Listed(slots))
    ensures forall m: Movie :: m in Listed(slots) <==> m in slots
  {
    if slots != [] {
      var init := slots[..|slots| - 1];
      ListedMovies(init);
      assert slots == init + [slots[|slots| - 1]];
    }
  }

  /** Every listed movie occupies a slot. */
  lemma ListedMember(slots: seq<Movie?>, m: Movie)
    requires m in Listed(slots)
    ensures m in slots
  {
    ListedMovies(slots);
  }

  class Watchlist {
    var name: string
    var movies: seq<Movie>
    var validCount: int
    var studioCounts: map<string, int>
    var languageCounts: map<string, int>

    /**
     * The movies are distinct and well formed, and each tally maps a language
     * (studio) to the number of movies with it.
     */
    ghost predicate Valid()
      reads this
    {
      && Distinct(movies)
      && (forall m :: m in movies ==> m.Valid())
      && languageCounts == TallyOf(Languages(movies))
      && studioCounts == TallyOf(Studios(movies))
    }

    /** The tallies count every list entry once: their values are positive and add up to the length. */
    lemma TalliesAddUp()
      requires Valid()
      ensures Positive(languageCounts) && Positive(studioCounts)
      ensures Sum(languageCounts) == |movies|
      ensures Sum(studioCounts) == |movies|
    {
      TallyKeys(Languages(movies));
      TallyKeys(Studios(movies));
      TallySum(Languages(movies));
      TallySum(Studios(movies));
    }

    /** The keys of the tallies are the languages and the studios of the movies. */
    lemma TallyKeysAreFields()
      requires Valid()
      ensures languageCounts.Keys == set m | m in movies :: m.language
      ensures studioCounts.Keys == set m | m in movies :: m.publishingStudio
    {
      FieldKeys(movies);
    }

    /** A watchlist named wName with no movies, before its movies are added. */
    constructor Empty(wName: string)
      ensures Valid()
      ensures name == wName && movies == [] && validCount == 0
      ensures languageCounts == map[] && studioCounts == map[]
    {
      name := wName;
      movies := [];
      validCount := 0;
      studioCounts := map[];
      languageCounts := map[];
    }

    /** Adds a movie not yet listed at the end, counting its language and its studio. */
    method Append(m: Movie)
      requires Valid() && m.Valid() && m !in movies
      modifies this
      ensures Valid()
      ensures movies == old(movies) + [m]
      ensures languageCounts == Bump(old(languageCounts), m.language)
      ensures studioCounts == Bump(old(studioCounts), m.publishingStudio)
      ensures name == old(name) && validCount == old(validCount)
    {
      ghost var before := movies;
      movies := movies + [m];
      languageCounts := Bump(languageCounts, m.GetLanguage());
      studioCounts := Bump(studioCounts, m.GetPublishingStudio());
      AppendTallies(before, m);
    }

    /**
     * Builds the watchlist named wName from the first NonNullCount(a[..])
     * slots of a (not from all of them), refreshing the validity of the movie
     * of every occupied slot scanned and counting it once per slot.
     */
    static method Create(registry: NameRegistry, fileExists: string -> bool,
                         wName: Option<string>, arrayMovie: array?<Movie?>)
      returns (r: Result<Watchlist, WatchlistError>)
      requires SlotsValid(arrayMovie)
      modifies registry, Slots(arrayMovie)`validity
      ensures wName.None? || arrayMovie == null ==> r == Failure(NullInput)
      ensures (wName.Some? && arrayMovie != null && NonNullCount(arrayMovie[..]) == 0) ==>
                r == Failure(EmptyInput)
      ensures (wName.Some? && arrayMovie != null && NonNullCount(arrayMovie[..]) > 0 &&
               wName.value in old(registry.names)) ==> r == Failure(DuplicateName)
      ensures r.Success? <==> (wName.Some? && arrayMovie != null &&
                               NonNullCount(arrayMovie[..]) > 0 && wName.value !in old(registry.names))
      ensures r.Failure? ==> registry.names == old(registry.names)
      ensures r.Failure? ==> forall m :: m in Slots(arrayMovie) ==> m.validity == old(m.validity)
      ensures r.Success? ==> (
        && arrayMovie != null && wName.Some?
        && var w, scanned := r.value, arrayMovie[..NonNullCount(arrayMovie[..])];
        && fresh(w)
        && w.Valid()
        && w.name == wName.value
        && registry.names == old(registry.names) + [wName.value]
        && w.movies == Listed(scanned)
        && w.validCount == ValidSlots(scanned, fileExists)
        && (forall m: Movie :: m in scanned ==> m.validity == fileExists(m.path))
        && (forall m :: m in Slots(arrayMovie) && m !in scanned ==> m.validity == old(m.validity)))
    {
      if wName.None? || arrayMovie == null {
        return Failure(NullInput);
      }
      var movieCount := CountMovies(arrayMovie);
      if movieCount == 0 {
        return Failure(EmptyInput);
      }
      var nm := wName.value;
      if nm in registry.names {
        return Failure(DuplicateName);
      }
      registry.names := registry.names + [nm];
      var w := new Watchlist.Empty(nm);
      var vCount := w.Fill(arrayMovie, movieCount, fileExists);
      w.validCount := vCount;
      return Success(w);
    }

    /**
     * The loop of Create: scans the first n slots of arrayMovie, appends each
     * movie not yet listed, refreshes the validity of the movie of every
     * occupied slot and counts the slots whose movie is then valid.
     */
    method Fill(arrayMovie: array<Movie?>, n: nat, fileExists: string -> bool) returns (vCount: nat)
      requires Valid() && movies == []
      requires n <= arrayMovie.Length && SlotsValid(arrayMovie)
      modifies this, Slots(arrayMovie)`validity
      ensures Valid() && name == old(name) && validCount == old(validCount)
      ensures movies == Listed(arrayMovie[..n])
      ensures vCount == ValidSlots(arrayMovie[..n], fileExists)
      ensures forall m: Movie :: m in arrayMovie[..n] ==> m.validity == fileExists(m.path)
      ensures forall m :: m in Slots(arrayMovie) && m !in arrayMovie[..n] ==> m.validity == old(m.validity)
    {
      vCount := 0;
      var i := 0;
      while i < n
        invariant 0 <= i <= n
        invariant Valid() && name == old(name) && validCount == old(validCount)
        invariant movies == Listed(arrayMovie[..i])
        invariant vCount == ValidSlots(arrayMovie[..i], fileExists)
        invariant forall m: Movie :: m in arrayMovie[..i] ==> m.validity == fileExists(m.path)
        invariant forall m :: m in Slots(arrayMovie) && m !in arrayMovie[..i] ==> m.validity == old(m.validity)
      {
        assert arrayMovie[..i + 1] == arrayMovie[..i] + [arrayMovie[i]];
        var added, valid := AdmitSlot(arrayMovie, i, fileExists);
        if valid {
          vCount := vCount + 1;
        }
        i := i + 1;
      }
    }

    /**
     * One round of the loop of Create, on slot i: lists the slot's movie
     * unless the slot is empty or the movie is listed already, then refreshes
     * the movie's validity whether or not it was listed.
     */
    method AdmitSlot(arrayMovie: array<Movie?>, i: nat, fileExists: string -> bool) returns (added: bool, valid: bool)
      requires i < arrayMovie.Length && SlotsValid(arrayMovie)
      requires Valid() && movies == Listed(arrayMovie[..i])
      modifies this, Slots(arrayMovie)`validity
      ensures Valid() && name == old(name) && validCount == old(validCount)
      ensures movies == Listed(arrayMovie[..i + 1])
      ensures added == (arrayMovie[i] != null && arrayMovie[i] !in old(movies))
      ensures movies == if added then old(movies) + [arrayMovie[i]] else old(movies)
      ensures valid == (arrayMovie[i] != null && fileExists(arrayMovie[i].path))
      ensures arrayMovie[i] != null ==> arrayMovie[i].validity == fileExists(arrayMovie[i].path)
      ensures forall m :: m in Slots(arrayMovie) && m != arrayMovie[i] ==> m.validity == old(m.validity)
    {
      assert arrayMovie[..i + 1][..i] == arrayMovie[..i];
      var m := arrayMovie[i];
      added, valid := false, false;
      if m != null {
        assert m in Slots(arrayMovie);
        if m !in movies {
          Append(m);
          added := true;
        }
        m.UpdateValidity(fileExists);
        valid := m.GetValidity();
      }
    }

    /**
     * Create as its class comment describes it: every slot of arrayMovie is
     * scanned, and the valid count counts each listed movie once. The checks
     * and the registry update are those of Create.
     */
    static method CreateScanningAll(registry: NameRegistry, fileExists: string -> bool,
                                    wName: Option<string>, arrayMovie: array?<Movie?>)
      returns (r: Result<Watchlist, WatchlistError>)
      requires SlotsValid(arrayMovie)
      modifies registry, Slots(arrayMovie)`validity
      ensures wName.None? || arrayMovie == null ==> r == Failure(NullInput)
      ensures (wName.Some? && arrayMovie != null && NonNullCount(arrayMovie[..]) == 0) ==>
                r == Failure(EmptyInput)
      ensures (wName.Some? && arrayMovie != null && NonNullCount(arrayMovie[..]) > 0 &&
               wName.value in old(registry.names)) ==> r == Failure(DuplicateName)
      ensures r.Success? <==> (wName.Some? && arrayMovie != null &&
                               NonNullCount(arrayMovie[..]) > 0 && wName.value !in old(registry.names))
      ensures r.Failure? ==> registry.names == old(registry.names)
      ensures r.Failure? ==> forall m :: m in Slots(arrayMovie) ==> m.validity == old(m.validity)
      ensures r.Success? ==> (
        && arrayMovie != null && wName.Some?
        && var w := r.value;
        && fresh(w)
        && w.Valid()
        && w.name == wName.value
        && registry.names == old(registry.names) + [wName.value]
        && w.movies == Listed(arrayMovie[..])
        && (forall m :: m in Slots(arrayMovie) ==> m in w.movies)
        && w.movies != []
        && w.validCount == ValidMovies(w.movies, fileExists)
        && (forall m :: m in Slots(arrayMovie) ==> m.validity == fileExists(m.path)))
    {
      if wName.None? || arrayMovie == null {
        return Failure(NullInput);
      }
      var movieCount := CountMovies(arrayMovie);
      if movieCount == 0 {
        return Failure(EmptyInput);
      }
      var nm := wName.value;
      if nm in registry.names {
        return Failure(DuplicateName);
      }
      registry.names := registry.names + [nm];
      var w := new Watchlist.Empty(nm);
      var vCount := w.FillOnce(arrayMovie, fileExists);
      w.validCount := vCount;
      ListedMovies(arrayMovie[..]);
      ListedNonEmpty(arrayMovie[..]);
      return Success(w);
    }

    /**
     * The loop of CreateScanningAll: scans every slot, lists each movie once,
     * refreshes every movie's validity and counts the listed movies that are valid.
     */
    method FillOnce(arrayMovie: array<Movie?>, fileExists: string -> bool) returns (vCount: nat)
      requires Valid() && movies == []
      requires SlotsValid(arrayMovie)
      modifies this, Slots(arrayMovie)`validity
      ensures Valid() && name == old(name) && validCount == old(validCount)
      ensures movies == Listed(arrayMovie[..])
      ensures vCount == ValidMovies(movies, fileExists)
      ensures forall m: Movie :: m in arrayMovie[..] ==> m.validity == fileExists(m.path)
    {
      vCount := 0;
      var i := 0;
      while i < arrayMovie.Length
        invariant 0 <= i <= arrayMovie.Length
        invariant Valid() && name == old(name) && validCount == old(validCount)
        invariant movies == Listed(arrayMovie[..i])
        invariant vCount == ValidMovies(movies, fileExists)
        invariant forall m: Movie :: m in arrayMovie[..i] ==> m.validity == fileExists(m.path)
      {
        assert arrayMovie[..i + 1] == arrayMovie[..i] + [arrayMovie[i]];
        var added, valid := AdmitSlot(arrayMovie, i, fileExists);
        if added && valid {
          vCount := vCount + 1;
        }
        i := i + 1;
      }
      assert arrayMovie[..i] == arrayMovie[..];
    }

    /** Gives the watchlist the name newName unless newName is in the registry; the registry is left as it is. */
    method Rename(registry: NameRegistry, newName: string) returns (r: Outcome<WatchlistError>)
      requires Valid()
      modifies this`name
      ensures Valid()
      ensures newName in registry.names ==> r == Fail(DuplicateName) && name == old(name)
      ensures newName !in registry.names ==> r == Pass && name == newName
    {
      if newName in registry.names {
        return Fail(DuplicateName);
      }
      name := newName;
      return Pass;
    }

    /**
     * Rename as the uniqueness of names requires it: the new name is also
     * reserved in the registry, so no later watchlist can take it.
     */
    method RenameReserving(registry: NameRegistry, newName: string) returns (r: Outcome<WatchlistError>)
      requires Valid()
      modifies this`name, registry
      ensures Valid()
      ensures newName in old(registry.names) ==>
        r == Fail(DuplicateName) && name == old(name) && registry.names == old(registry.names)
      ensures newName !in old(registry.names) ==>
        r == Pass && name == newName && registry.names == old(registry.names) + [newName]
      ensures old(name) in old(registry.names) ==> name in registry.names
    {
      if newName in registry.names {
        return Fail(DuplicateName);
      }
      name := newName;
      registry.names := registry.names + [newName];
      return Pass;
    }

    /** The languages of the movies, each once, in no particular order. */
    method GetLanguages() returns (a: array<string>)
      ensures fresh(a)
      ensures a.Length == |languageCounts|
      ensures Distinct(a[..])
      ensures forall x :: x in a[..] <==> x in languageCounts
    {
      a := KeyArray(languageCounts);
    }

    /** The publishing studios of the movies, each once, in no particular order. */
    method GetStudios() returns (a: array<string>)
      ensures fresh(a)
      ensures a.Length == |studioCounts|
      ensures Distinct(a[..])
      ensures forall x :: x in a[..] <==> x in studioCounts
    {
      a := KeyArray(studioCounts);
    }

    /**
     * Removes the first movie and uncounts it: from the valid count when its
     * validity is set, and from both tallies. Answers false and changes
     * nothing when there is no movie.
     */
    method RemoveFirst() returns (removed: bool)
      requires Valid()
      modifies this
      ensures Valid()
      ensures removed <==> old(movies) != []
      ensures name == old(name)
      ensures !removed ==>
        movies == old(movies) && validCount == old(validCount) &&
        languageCounts == old(languageCounts) && studioCounts == old(studioCounts)
      ensures removed ==>
        old(movies[0].language) in old(languageCounts) &&
        old(movies[0].publishingStudio) in old(studioCounts)
      ensures removed ==>
        && movies == old(movies[1..])
        && validCount == old(validCount) - (if old(movies[0].validity) then 1 else 0)
        && languageCounts == Drop(old(languageCounts), old(movies[0].language))
        && studioCounts == Drop(old(studioCounts), old(movies[0].publishingStudio))
    {
      if |movies| == 0 {
        return false;
      }
      var toRemove := movies[0];
      if toRemove.GetValidity() {
        validCount := validCount - 1;
      }
      var rStudio := toRemove.GetPublishingStudio();
      var rLanguage := toRemove.GetLanguage();
      RemoveHeadTallies(movies);
      studioCounts := Drop(studioCounts, rStudio);
      languageCounts := Drop(languageCounts, rLanguage);
      movies := movies[1..];
      return true;
    }

    /** Fresh copies of the movies, in list order. */
    method AccessAll() returns (copies: seq<Movie>)
      requires Valid()
      ensures |copies| == |movies|
      ensures Distinct(copies)
      ensures forall i :: 0 <= i < |copies| ==> fresh(copies[i]) && Mirrors(copies[i], movies[i])
    {
      copies := [];
      var i := 0;
      while i < |movies|
        invariant 0 <= i <= |movies|
        invariant |copies| == i
        invariant Distinct(copies)
        invariant forall j :: 0 <= j < i ==> fresh(copies[j]) && Mirrors(copies[j], movies[j])
      {
        var c := new Movie.Copy(movies[i]);
        copies := copies + [c];
        i := i + 1;
      }
    }

    /** The valid count as of construction and the removals since. */
    function GetValidCount(): (r: int)
      reads this`validCount
      ensures r == validCount
    {
      validCount
    }
  }

  /** Appending m bumps the language tally at m's language and the studio tally at m's studio. */
  lemma AppendTallies(ms: seq<Movie>, m: Movie)
    ensures TallyOf(Languages(ms + [m])) == Bump(TallyOf(Languages(ms)), m.language)
    ensures TallyOf(Studios(ms + [m])) == Bump(TallyOf(Studios(ms)), m.publishingStudio)
  {
    assert Languages(ms + [m]) == Languages(ms) + [m.language];
    assert Studios(ms + [m]) == Studios(ms) + [m.publishingStudio];
    TallyAppend(Languages(ms), m.language);
    TallyAppend(Studios(ms), m.publishingStudio);
  }

  /** Removing the first movie drops the language tally at its language and the studio tally at its studio. */
  lemma RemoveHeadTallies(ms: seq<Movie>)
    requires ms != []
    ensures ms[0].language in TallyOf(Languages(ms))
    ensures ms[0].publishingStudio in TallyOf(Studios(ms))
    ensures TallyOf(Languages(ms[1..])) == Drop(TallyOf(Languages(ms)), ms[0].language)
    ensures TallyOf(Studios(ms[1..])) == Drop(TallyOf(Studios(ms)), ms[0].publishingStudio)
  {
    assert Languages(ms)[1..] == Languages(ms[1..]);
    assert Studios(ms)[1..] == Studios(ms[1..]);
    TallyRemoveHead(Languages(ms));
    TallyRemoveHead(Studios(ms));
  }

  /** The keys of the tallies of ms are the languages and the studios of ms. */
  lemma FieldKeys(ms: seq<Movie>)
    ensures TallyOf(Languages(ms)).Keys == set m | m in ms :: m.language
    ensures TallyOf(Studios(ms)).Keys == set m | m in ms :: m.publishingStudio
  {
    LanguageKeys(ms);
    StudioKeys(ms);
  }

  /** The keys of the language tally of ms are the languages of ms. */
  lemma LanguageKeys(ms: seq<Movie>)
    ensures TallyOf(Languages(ms)).Keys == set m | m in ms :: m.language
  {
    var ls := Languages(ms);
    TallyKeys(ls);
    forall x | x in ls ensures x in set m | m in ms :: m.language {
      var i :| 0 <= i < |ls| && ls[i] == x;
      assert ms[i] in ms;
    }
    forall m | m in ms ensures m.language in ls {
      var i :| 0 <= i < |ms| && ms[i] == m;
      assert ls[i] == m.language;
    }
  }

  /** The keys of the studio tally of ms are the studios of ms. */
  lemma StudioKeys(ms: seq<Movie>)
    ensures TallyOf(Studios(ms)).Keys == set m | m in ms :: m.publishingStudio
  {
    var ss := Studios(ms);
    TallyKeys(ss);
    forall x | x in ss ensures x in set m | m in ms :: m.publishingStudio {
      var i :| 0 <= i < |ss| && ss[i] == x;
      assert ms[i] in ms;
    }
    forall m | m in ms ensures m.publishingStudio in ss {
      var i :| 0 <= i < |ms| && ms[i] == m;
      assert ss[i] == m.publishingStudio;
    }
  }

  /** c is a well-formed movie that agrees with m on every field. */
  ghost predicate Mirrors(c: Movie, m: Movie)
    reads c, m
  {
    && c.Valid()
    && c.path == m.path && c.format == m.format
    && c.title == m.title && c.language == m.language && c.publishingStudio == m.publishingStudio
    && c.validity == m.validity && c.customInfo == m.customInfo
  }

  /** The number of occupied slots of a. */
  method CountMovies(a: array<Movie?>) returns (n: nat)
    ensures n == NonNullCount(a[..])
  {
    n := 0;
    var i := 0;
    while i < a.Length
      invariant 0 <= i <= a.Length
      invariant n == NonNullCount(a[..i])
    {
      assert a[..i + 1][..i] == a[..i];
      if a[i] != null {
        n := n + 1;
      }
      i := i + 1;
    }
    assert a[..i] == a[..];
  }

  /** The keys of m in an array, each once, in no particular order. */
  method KeyArray(m: map<string, int>) returns (a: array<string>)
    ensures fresh(a)
    ensures a.Length == |m|
    ensures Distinct(a[..])
    ensures forall x :: x in a[..] <==> x in m
  {
    var keys := m.Keys;
    assert |keys| == |m|;
    a := new string[|keys|];
    var remaining := keys;
    var count := 0;
    while remaining != {}
      invariant remaining <= keys
      invariant count + |remaining| == |keys|
      invariant Distinct(a[..count])
      invariant forall x :: x in a[..count] <==> x in keys - remaining
      decreases |remaining|
    {
      var k :| k in remaining;
      assert k !in a[..count];
      a[count] := k;
      assert a[..count + 1] == a[..count] + [k];
      remaining := remaining - {k};
      count := count + 1;
    }
    assert a[..count] == a[..];
  }
}
