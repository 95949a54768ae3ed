/**
 * The browse page component: its pending sidebar filters, the handlers the
 * sidebar calls, the Search and Reset buttons, and the two effects that
 * read the URL. Navigation is not performed here: the handlers return the
 * address they would push.
 */
module BrowsePage {
  import opened Options
  import opened Strings
  import opened SearchParams
  import opened Filters
  import opened FilterCodec

  /**
   * The states the sidebar keeps its filters in when it starts from `{}`:
   * a present title or year is not empty, and a present genre list is not
   * empty and holds non-empty genre names without commas.
   */
  predicate SidebarState(f: Filters)
  {
    && (f.title.Some? ==> f.title.value != "")
    && (f.minYear.Some? ==> f.minYear.value != "")
    && (f.maxYear.Some? ==> f.maxYear.value != "")
    && (f.genres.Some? ==>
          var gs := f.genres.value;
          gs != [] && forall i :: 0 <= i < |gs| ==> gs[i] != "" && ',' !in gs[i])
  }

  /** What a user can do in the sidebar. */
  datatype SidebarEvent =
    | EditTitle(text: string)
    | EditMinYear(text: string)
    | EditMaxYear(text: string)
    | ClickStar(rating: int)
    | ClearRating
    | CheckGenre(genre: string, checked: bool)
    | ClearGenres
    | Reset

  /** The sidebar offers five stars and one checkbox per genre of the fixed list. */
  predicate Offered(e: SidebarEvent)
  {
    match e
    case ClickStar(rating) => 1 <= rating <= 5
    case CheckGenre(genre, _) => genre in GENRES
    case _ => true
  }

  /** The pending filters after one sidebar event. */
  function Step(f: Filters, e: SidebarEvent): Filters
  {
    match e
    case EditTitle(text) => SetFilter(f, Title, Str(text))
    case EditMinYear(text) => SetFilter(f, MinYear, Str(text))
    case EditMaxYear(text) => SetFilter(f, MaxYear, Str(text))
    case ClickStar(rating) => RatingClick(f, rating)
    case ClearRating => SetFilter(f, MinRating, Undefined)
    case CheckGenre(genre, checked) => GenreChange(f, genre, checked)
    case ClearGenres => SetFilter(f, Genres, StrList([]))
    case Reset => NoFilters
  }

  /** The pending filters after a sequence of sidebar events. */
  function Run(f: Filters, events: seq<SidebarEvent>): Filters
    decreases |events|
  {
    if events == [] then f else Run(Step(f, events[0]), events[1..])
  }

  lemma GenreNamesAreListable()
    ensures forall g :: g in GENRES ==> g != "" && ',' !in g
  {
  }

  /** A sidebar state is one the URL can carry. */
  lemma SidebarStateIsEncodable(f: Filters)
    requires SidebarState(f)
    ensures Encodable(f)
  {
    if f.genres.Some? {
      assert f.genres.value[0] != "";
    }
  }

  /** Checking or unchecking an offered genre keeps the filters in a sidebar state. */
  lemma GenreChangeKeepsSidebarState(f: Filters, genre: string, checked: bool)
    requires SidebarState(f)
    requires genre in GENRES
    ensures SidebarState(GenreChange(f, genre, checked))
  {
    GenreNamesAreListable();
    var current := CurrentGenres(f);
    if checked {
      var gs := current + [genre];
      forall i | 0 <= i < |gs| ensures gs[i] != "" && ',' !in gs[i] {
        if i < |current| {
          assert gs[i] == f.genres.value[i];
        }
      }
    } else {
      var rest := RemoveGenre(current, genre);
      forall i | 0 <= i < |rest| ensures rest[i] != "" && ',' !in rest[i] {
        assert multiset(rest)[rest[i]] > 0;
        assert rest[i] in current;
      }
    }
  }

  /** Every event the sidebar offers keeps the filters in a sidebar state. */
  lemma StepKeepsSidebarState(f: Filters, e: SidebarEvent)
    requires SidebarState(f)
    requires Offered(e)
    ensures SidebarState(Step(f, e))
  {
    match e
    case CheckGenre(genre, checked) =>
      GenreChangeKeepsSidebarState(f, genre, checked);
    case _ =>
  }

  /** Any sequence of offered events keeps the filters in a sidebar state. */
  lemma {:induction false} RunKeepsSidebarState(f: Filters, events: seq<SidebarEvent>)
    requires SidebarState(f)
    requires forall i :: 0 <= i < |events| ==> Offered(events[i])
    ensures SidebarState(Run(f, events))
    decreases |events|
  {
    if events != [] {
      StepKeepsSidebarState(f, events[0]);
      RunKeepsSidebarState(Step(f, events[0]), events[1..]);
    }
  }

  /**
   * Every filter state the sidebar can reach from `{}` survives a search:
   * encoding it into the address and decoding that address's parameters
   * gives it back.
   */
  lemma ReachableStatesRoundTrip(events: seq<SidebarEvent>, c: FormCodec)
    requires forall i :: 0 <= i < |events| ==> Offered(events[i])
    requires ValidCodec(c)
    ensures Decode(SearchParamsOf(Target(EncodeParams(Run(NoFilters, events)), c), c))
         == Ok(Run(NoFilters, events))
  {
    RunKeepsSidebarState(NoFilters, events);
    SidebarStateIsEncodable(Run(NoFilters, events));
    UrlRoundTrip(Run(NoFilters, events), c);
  }

  /** The rating's Clear button and the genres' Clear All button delete their key and change nothing else. */
  lemma ClearingDeletesKeys(f: Filters)
    ensures Step(f, ClearRating) == f.(minRating := None)
    ensures Step(f, ClearGenres) == f.(genres := None)
  {
    ValueOfDetermines(Step(f, ClearRating), f.(minRating := None));
    ValueOfDetermines(Step(f, ClearGenres), f.(genres := None));
  }

  /** Reset navigates to the same address as a search with no filters set. */
  lemma ResetTargetIsEmptySearch(c: FormCodec)
    ensures Target(EncodeParams(NoFilters), c) == "/browse"
  {
    EncodeParamsEmpty(NoFilters);
    TargetIsBare([], c);
  }

  /** The component's state that the filter logic reads and writes. */
  class BrowsePage {
    /** Filters selected in the sidebar but not yet applied. */
    var pendingFilters: Filters

    constructor()
      ensures pendingFilters == NoFilters
    {
      pendingFilters := NoFilters;
    }

    /**
     * The effect that refills the sidebar whenever the URL changes. A
     * rating that is not a decimal integer numeral leaves the state alone
     * and is reported.
     */
    method SyncWithUrl(searchParams: Params) returns (ok: bool)
      modifies this
      ensures ok == Decode(searchParams).Ok?
      ensures ok ==> pendingFilters == Decode(searchParams).value
      ensures !ok ==> pendingFilters == old(pendingFilters)
    {
      var newFilters := NoFilters;
      var titleParam := Get(searchParams, Name(Title));
      var minYearParam := Get(searchParams, Name(MinYear));
      var maxYearParam := Get(searchParams, Name(MaxYear));
      var minRatingParam := Get(searchParams, Name(MinRating));
      var genresParam := Get(searchParams, Name(Genres));

      if titleParam.Some? && titleParam.value != "" {
        newFilters := newFilters.(title := titleParam);
      }
      if minYearParam.Some? && minYearParam.value != "" {
        newFilters := newFilters.(minYear := minYearParam);
      }
      if maxYearParam.Some? && maxYearParam.value != "" {
        newFilters := newFilters.(maxYear := maxYearParam);
      }
      if minRatingParam.Some? && minRatingParam.value != "" {
        var rating := ParseNumber(minRatingParam.value);
        if rating.None? {
          return false;
        }
        newFilters := newFilters.(minRating := rating);
      }
      if genresParam.Some? && genresParam.value != "" {
        newFilters := newFilters.(genres := Some(Split(genresParam.value, ',')));
      }
      pendingFilters := newFilters;
      ok := true;
    }

    /** The variables of the `BrowseMovies` query the page sends for the current URL. */
    method FetchVariables(searchParams: Params) returns (vars: Result<QueryVariables, DecodeError>)
      ensures vars == BrowseVariables(searchParams)
    {
      var queryVariables := QueryVariables(None, None, None, None, None);
      var title := Get(searchParams, Name(Title));
      var minYear := Get(searchParams, Name(MinYear));
      var maxYear := Get(searchParams, Name(MaxYear));
      var minRating := Get(searchParams, Name(MinRating));
      var genres := Get(searchParams, Name(Genres));

      if title.Some? && title.value != "" {
        queryVariables := queryVariables.(partialTitle := title);
      }
      if minYear.Some? && minYear.value != "" {
        queryVariables := queryVariables.(minDate := Some(minYear.value + "-01-01"));
      }
      if maxYear.Some? && maxYear.value != "" {
        queryVariables := queryVariables.(maxDate := Some(maxYear.value + "-12-31"));
      }
      if minRating.Some? && minRating.value != "" {
        var stars := ParseNumber(minRating.value);
        if stars.None? {
          return Err(NotANumeral(minRating.value));
        }
        queryVariables := queryVariables.(minRating := Some(stars.value * 2));
      }
      if genres.Some? && genres.value != "" {
        queryVariables := queryVariables.(genres := Some(Split(genres.value, ',')));
      }
      vars := Ok(queryVariables);
    }

    /** Sets one pending filter; an empty value deletes the key. */
    method UpdatePendingFilter(key: Key, value: Value)
      requires Fits(key, value)
      modifies this
      ensures pendingFilters == SetFilter(old(pendingFilters), key, value)
    {
      var newFilters := pendingFilters;
      if IsEmptyValue(value) {
        newFilters := Delete(newFilters, key);
      } else {
        newFilters := Assign(newFilters, key, value);
      }
      pendingFilters := newFilters;
    }

    /**
     * The Search button: writes each set filter into fresh URL parameters
     * and returns the address to navigate to.
     */
    method HandleApplyFilters(c: FormCodec) returns (target: string)
      ensures target == Target(EncodeParams(pendingFilters), c)
    {
      var entries := Entries(pendingFilters);
      var params: Params := [];
      var i := 0;
      while i < |entries|
        invariant 0 <= i <= |entries|
        invariant params == ApplyEntries(entries[..i])
      {
        var (key, value) := entries[i];
        if value != Undefined && value != Null && value != Str("") {
          if key == Genres && value.StrList? && |value.items| > 0 {
            params := Set(params, Name(key), Join(value.items, ','));
          } else if key != Genres {
            params := Set(params, Name(key), Stringify(value));
          }
        }
        assert entries[..i + 1][..i] == entries[..i];
        i := i + 1;
      }
      assert entries[..i] == entries;
      var queryString := Serialize(params, c);
      target := "/browse" + (if queryString != "" then "?" + queryString else "");
    }

    /** A genre checkbox changed. */
    method HandleGenreChange(genre: string, checked: bool)
      modifies this
      ensures pendingFilters == GenreChange(old(pendingFilters), genre, checked)
    {
      var currentGenres := CurrentGenres(pendingFilters);
      if checked {
        UpdatePendingFilter(Genres, StrList(currentGenres + [genre]));
      } else {
        UpdatePendingFilter(Genres, StrList(RemoveGenre(currentGenres, genre)));
      }
    }

    /** A star of the rating selector was clicked. */
    method HandleRatingClick(rating: int)
      modifies this
      ensures pendingFilters == RatingClick(old(pendingFilters), rating)
    {
      if pendingFilters.minRating == Some(rating) {
        UpdatePendingFilter(MinRating, Undefined);
      } else {
        UpdatePendingFilter(MinRating, Num(rating));
      }
    }

    /** The Reset button: clears every pending filter and returns the bare browse address. */
    method HandleResetFilters() returns (target: string)
      modifies this
      ensures pendingFilters == NoFilters
      ensures target == "/browse"
    {
      pendingFilters := NoFilters;
      target := "/browse";
    }

    /**
     * A search followed by the URL-sync effect it triggers: the sidebar
     * ends where it started, with the address holding its filters.
     */
    method SearchAndSync(c: FormCodec) returns (target: string)
      requires Encodable(pendingFilters)
      requires ValidCodec(c)
      modifies this
      ensures pendingFilters == old(pendingFilters)
      ensures target == Target(EncodeParams(pendingFilters), c)
    {
      target := HandleApplyFilters(c);
      UrlRoundTrip(pendingFilters, c);
      var ok := SyncWithUrl(SearchParamsOf(target, c));
    }
  }
}
