/**
 * The URL form of the browse filters: the encoder run by the Search button,
 * the decoder the page runs on every URL change to refill the sidebar, and
 * the decoder that turns the same URL into the variables of the
 * `BrowseMovies` query.
 */
module FilterCodec {
  import opened Options
  import opened Strings
  import opened SearchParams
  import opened Filters

  /** `String(value)`. */
  function Stringify(v: Value): string
  {
    match v
    case Undefined => "undefined"
    case Null => "null"
    case Str(s) => s
    case Num(n) => NumberString(n)
    case StrList(items) => Join(items, ',')
  }

  /**
   * What one step of the Search button's loop writes for the entry `(k, v)`,
   * or None when it writes nothing: `undefined`, `null` and `""` are skipped,
   * `genres` is written comma-joined and only when non-empty, and every other
   * key through `String`.
   */
  function Written(k: Key, v: Value): Option<string>
  {
    if v == Undefined || v == Null || v == Str("") then None
    else if k == Genres then (if v.StrList? && |v.items| > 0 then Some(Join(v.items, ',')) else None)
    else Some(Stringify(v))
  }

  /** The present keys of `f` among `ks`, with their values, in the order of `ks`. */
  function EntriesOf(f: Filters, ks: seq<Key>): seq<(Key, Value)>
  {
    if ks == [] then []
    else
      var k := ks[|ks| - 1];
      EntriesOf(f, ks[..|ks| - 1]) + (if ValueOf(f, k) == Undefined then [] else [(k, ValueOf(f, k))])
  }

  /** `Object.entries(filters)`. */
  function Entries(f: Filters): seq<(Key, Value)>
  {
    EntriesOf(f, FILTER_KEYS)
  }

  /** The value of the last entry with key `k`, `undefined` if there is none. */
  function Lookup(es: seq<(Key, Value)>, k: Key): Value
  {
    if es == [] then Undefined
    else if es[|es| - 1].0 == k then es[|es| - 1].1
    else Lookup(es[..|es| - 1], k)
  }

  predicate DistinctKeys(es: seq<(Key, Value)>)
  {
    forall i, j :: 0 <= i < j < |es| ==> es[i].0 != es[j].0
  }

  /** One step of the loop: `params.set(key, …)` when the entry is written. */
  function ApplyEntry(ps: Params, e: (Key, Value)): Params
  {
    match Written(e.0, e.1)
    case None => ps
    case Some(s) => Set(ps, Name(e.0), s)
  }

  /** The parameters after the loop has visited the entries `es`, starting from none. */
  function ApplyEntries(es: seq<(Key, Value)>): Params
  {
    if es == [] then [] else ApplyEntry(ApplyEntries(es[..|es| - 1]), es[|es| - 1])
  }

  /** The URL parameters the Search button builds from `f`. */
  function EncodeParams(f: Filters): Params
  {
    ApplyEntries(Entries(f))
  }

  /** The address the Search button navigates to: `/browse`, with `?` and the query only when there is one. */
  function Target(ps: Params, c: FormCodec): string
  {
    var query := Serialize(ps, c);
    "/browse" + (if query != "" then "?" + query else "")
  }

  lemma NameInjective(k: Key, k': Key)
    ensures Name(k) == Name(k') ==> k == k'
  {
    if k != k' && |Name(k)| == |Name(k')| {
      assert Name(k)[1] != Name(k')[1];
    }
  }

  lemma {:induction false} LookupAbsent(es: seq<(Key, Value)>, k: Key)
    requires forall i :: 0 <= i < |es| ==> es[i].0 != k
    ensures Lookup(es, k) == Undefined
  {
    if es != [] {
      LookupAbsent(es[..|es| - 1], k);
    }
  }

  /** `Object.entries` lists each present key once, with its value, and nothing else. */
  lemma {:induction false} EntriesOfFacts(f: Filters, ks: seq<Key>)
    requires forall i, j :: 0 <= i < j < |ks| ==> ks[i] != ks[j]
    ensures DistinctKeys(EntriesOf(f, ks))
    ensures forall e :: e in EntriesOf(f, ks) ==> e.0 in ks
    ensures forall k :: Lookup(EntriesOf(f, ks), k) == if k in ks then ValueOf(f, k) else Undefined
  {
    if ks != [] {
      var k := ks[|ks| - 1];
      var front := ks[..|ks| - 1];
      var prefix := EntriesOf(f, front);
      EntriesOfFacts(f, front);
      assert forall k' :: k' in ks <==> k' in front || k' == k;
      assert k !in front;
      if ValueOf(f, k) != Undefined {
        var es := prefix + [(k, ValueOf(f, k))];
        assert es[..|es| - 1] == prefix;
        forall i, j | 0 <= i < j < |es| ensures es[i].0 != es[j].0 {
          if j == |prefix| {
            assert es[i] in prefix;
          }
        }
      } else {
        assert prefix + [] == prefix;
      }
    }
  }

  /** The empty record has no entries. */
  lemma {:induction false} NoEntries(f: Filters, ks: seq<Key>)
    requires f == NoFilters
    ensures EntriesOf(f, ks) == []
  {
    if ks != [] {
      NoEntries(f, ks[..|ks| - 1]);
    }
  }

  /** The loop writes each key at most once, and what `get` then reads is what the entry's step wrote. */
  lemma {:induction false} ApplyEntriesFacts(es: seq<(Key, Value)>)
    requires DistinctKeys(es)
    ensures UniqueNames(ApplyEntries(es))
    ensures forall k :: Get(ApplyEntries(es), Name(k)) == Written(k, Lookup(es, k))
  {
    if es != [] {
      var front := es[..|es| - 1];
      var e := es[|es| - 1];
      ApplyEntriesFacts(front);
      var ps := ApplyEntries(front);
      LookupAbsent(front, e.0);
      match Written(e.0, e.1)
      case None =>
      case Some(s) =>
        SetKeepsNamesUnique(ps, Name(e.0), s);
        forall k | k != e.0 ensures Name(k) != Name(e.0) {
          NameInjective(k, e.0);
        }
    }
  }

  /** What `get` reads from the encoded parameters: exactly what the loop writes for that key of `f`. */
  lemma EncodeParamsFacts(f: Filters)
    ensures UniqueNames(EncodeParams(f))
    ensures forall k :: Get(EncodeParams(f), Name(k)) == Written(k, ValueOf(f, k))
  {
    EntriesOfFacts(f, FILTER_KEYS);
    ApplyEntriesFacts(Entries(f));
    forall k ensures k in FILTER_KEYS {
      match k
      case Title => assert FILTER_KEYS[0] == Title;
      case MinYear => assert FILTER_KEYS[1] == MinYear;
      case MaxYear => assert FILTER_KEYS[2] == MaxYear;
      case MinRating => assert FILTER_KEYS[3] == MinRating;
      case Genres => assert FILTER_KEYS[4] == Genres;
    }
  }

  datatype DecodeError = NotANumeral(text: string)

  /** The `if (param)` guard: a parameter counts when it is present and not empty. */
  function Present(p: Option<string>): Option<string>
  {
    if p.Some? && p.value != "" then p else None
  }

  /**
   * The states the URL can carry: a present title or year is not empty,
   * and a present genre list is not empty, is not the one-element list
   * `[""]`, and has no genre containing a comma.
   */
  predicate Encodable(f: Filters)
  {
    && (f.title.Some? ==> f.title.value != "")
    && (f.minYear.Some? ==> f.minYear.value != "")
    && (f.maxYear.Some? ==> f.maxYear.value != "")
    && (f.genres.Some? ==>
          var gs := f.genres.value;
          gs != [] && gs != [""] && forall i :: 0 <= i < |gs| ==> ',' !in gs[i])
  }

  /**
   * The sidebar's sync from the URL: a field is set only when its
   * parameter is present and non-empty; genres are split on `,` and the
   * rating is read as a number. A rating that is not a decimal integer
   * numeral is an error here. Whatever is decoded can be encoded again.
   */
  function Decode(ps: Params): (r: Result<Filters, DecodeError>)
    ensures r.Err? <==>
      Present(Get(ps, Name(MinRating))).Some? && ParseNumber(Get(ps, Name(MinRating)).value).None?
    ensures r.Ok? ==> Encodable(r.value)
  {
    var rating := Present(Get(ps, Name(MinRating)));
    if rating.Some? && ParseNumber(rating.value).None? then Err(NotANumeral(rating.value))
    else
      var genres := Present(Get(ps, Name(Genres)));
      JoinSplit(genres.GetOr(""), ',');
      Ok(Filters(
        Present(Get(ps, Name(Title))),
        Present(Get(ps, Name(MinYear))),
        Present(Get(ps, Name(MaxYear))),
        if rating.Some? then ParseNumber(rating.value) else None,
        if genres.Some? then Some(Split(genres.value, ',')) else None))
  }

  /**
   * What each field of a successful decode holds: the title and the years
   * are their parameters when present and not empty; the rating is the
   * number its parameter reads as; the genre list, joined back with
   * commas, is its parameter.
   */
  lemma DecodeFields(ps: Params)
    requires Decode(ps).Ok?
    ensures var f := Decode(ps).value;
      && f.title == Present(Get(ps, Name(Title)))
      && f.minYear == Present(Get(ps, Name(MinYear)))
      && f.maxYear == Present(Get(ps, Name(MaxYear)))
      && (f.minRating.Some? <==> Present(Get(ps, Name(MinRating))).Some?)
      && (f.minRating.Some? ==> ParseNumber(Get(ps, Name(MinRating)).value) == f.minRating)
      && (f.genres.Some? <==> Present(Get(ps, Name(Genres))).Some?)
      && (f.genres.Some? ==> Join(f.genres.value, ',') == Get(ps, Name(Genres)).value)
  {
    var genres := Present(Get(ps, Name(Genres)));
    if genres.Some? {
      JoinSplit(genres.value, ',');
    }
  }

  /** Decoding parameters that carry what the loop writes for each key of `f` gives back `f`. */
  lemma DecodeWritten(ps: Params, f: Filters)
    requires Encodable(f)
    requires forall k :: Get(ps, Name(k)) == Written(k, ValueOf(f, k))
    ensures Decode(ps) == Ok(f)
  {
    var rating := Present(Get(ps, Name(MinRating)));
    assert rating.Some? == f.minRating.Some? && (rating.Some? ==> ParseNumber(rating.value) == f.minRating) by {
      assert Get(ps, Name(MinRating)) == Written(MinRating, ValueOf(f, MinRating));
      if f.minRating.Some? {
        NumberRoundTrip(f.minRating.value);
      }
    }
    var d := Decode(ps);
    assert d.Ok?;
    assert d.value.title == f.title by {
      assert Get(ps, Name(Title)) == Written(Title, ValueOf(f, Title));
    }
    assert d.value.minYear == f.minYear by {
      assert Get(ps, Name(MinYear)) == Written(MinYear, ValueOf(f, MinYear));
    }
    assert d.value.maxYear == f.maxYear by {
      assert Get(ps, Name(MaxYear)) == Written(MaxYear, ValueOf(f, MaxYear));
    }
    assert d.value.minRating == f.minRating;
    assert d.value.genres == f.genres by {
      assert Get(ps, Name(Genres)) == Written(Genres, ValueOf(f, Genres));
      if f.genres.Some? {
        JoinIsEmpty(f.genres.value, ',');
        SplitJoin(f.genres.value, ',');
      }
    }
  }

  /** Decoding the encoded parameters gives back the record exactly when the record is one the URL can carry. */
  lemma DecodeEncode(f: Filters)
    ensures Decode(EncodeParams(f)) == Ok(f) <==> Encodable(f)
  {
    if Encodable(f) {
      EncodeParamsFacts(f);
      DecodeWritten(EncodeParams(f), f);
    }
  }

  /** The encoder writes nothing exactly for the empty record, among the records the URL can carry. */
  lemma EncodeParamsEmpty(f: Filters)
    requires Encodable(f)
    ensures EncodeParams(f) == [] <==> f == NoFilters
  {
    EncodeParamsFacts(f);
    if f == NoFilters {
      NoEntries(f, FILTER_KEYS);
    } else {
      var k :| ValueOf(f, k) != Undefined;
      if k == Genres {
        JoinIsEmpty(f.genres.value, ',');
      }
      assert Get(EncodeParams(f), Name(k)).Some?;
    }
  }

  /** The Search button navigates to the bare `/browse` exactly when it writes no parameter. */
  lemma TargetIsBare(ps: Params, c: FormCodec)
    ensures Target(ps, c) == "/browse" <==> ps == []
  {
    SerializeIsEmpty(ps, c);
  }

  /** The query of the address the Search button navigates to is the serialised parameters. */
  lemma QueryOfTarget(ps: Params, c: FormCodec)
    requires '#' !in Serialize(ps, c)
    ensures QueryOf(Target(ps, c)) == Serialize(ps, c)
  {
    var query := Serialize(ps, c);
    QueryAfterPath("/browse", query);
    if query == "" {
      assert Target(ps, c) == "/browse";
    } else {
      assert Target(ps, c) == "/browse" + "?" + query;
    }
  }

  /** A valid codec never puts a `#` into the serialised parameters. */
  lemma SerializeHasNoHash(ps: Params, c: FormCodec)
    requires ValidCodec(c)
    ensures '#' !in Serialize(ps, c)
  {
    var pieces := Pieces(ps, c);
    forall i | 0 <= i < |pieces| ensures '#' !in pieces[i] {
      PieceAt(ps, c, i);
    }
    JoinAvoids(pieces, '&', '#');
  }

  /** Loading the address the Search button navigates to gives back the parameters it wrote. */
  lemma TargetRoundTrip(ps: Params, c: FormCodec)
    requires ValidCodec(c)
    ensures SearchParamsOf(Target(ps, c), c) == ps
  {
    SerializeHasNoHash(ps, c);
    QueryOfTarget(ps, c);
    SerializeRoundTrip(ps, c);
  }

  /**
   * Searching and then loading the address searched gives back the same
   * filters: encode, serialise, navigate, parse the query, decode.
   */
  lemma UrlRoundTrip(f: Filters, c: FormCodec)
    requires Encodable(f)
    requires ValidCodec(c)
    ensures Decode(SearchParamsOf(Target(EncodeParams(f), c), c)) == Ok(f)
  {
    TargetRoundTrip(EncodeParams(f), c);
    DecodeEncode(f);
  }

  /** The variables of the `BrowseMovies` query. */
  datatype QueryVariables = QueryVariables(
    partialTitle: Option<string>,
    minDate: Option<string>,
    maxDate: Option<string>,
    minRating: Option<int>,
    genres: Option<seq<string>>)

  /**
   * The query variables the page builds from the URL: each only when its
   * parameter is present and non-empty. They agree with the sidebar's
   * decoding of the same URL: the title is the partial title, a minimum
   * year becomes the first of January of that year, a maximum year the
   * thirty-first of December, the star rating is doubled onto the
   * ten-point scale, and the genres are the same list.
   */
  function BrowseVariables(ps: Params): (r: Result<QueryVariables, DecodeError>)
    ensures r.Ok? <==> Decode(ps).Ok?
    ensures r.Ok? ==>
      var f, v := Decode(ps).value, r.value;
      && v.partialTitle == f.title
      && (v.minDate.Some? <==> f.minYear.Some?)
      && (f.minYear.Some? ==> v.minDate.value == f.minYear.value + "-01-01")
      && (v.maxDate.Some? <==> f.maxYear.Some?)
      && (f.maxYear.Some? ==> v.maxDate.value == f.maxYear.value + "-12-31")
      && (v.minRating.Some? <==> f.minRating.Some?)
      && (f.minRating.Some? ==> v.minRating.value == 2 * f.minRating.value)
      && v.genres == f.genres
  {
    var title := Present(Get(ps, Name(Title)));
    var minYear := Present(Get(ps, Name(MinYear)));
    var maxYear := Present(Get(ps, Name(MaxYear)));
    var rating := Present(Get(ps, Name(MinRating)));
    var genres := Present(Get(ps, Name(Genres)));
    if rating.Some? && ParseNumber(rating.value).None? then Err(NotANumeral(rating.value))
    else
      Ok(QueryVariables(
        title,
        if minYear.Some? then Some(minYear.value + "-01-01") else None,
        if maxYear.Some? then Some(maxYear.value + "-12-31") else None,
        if rating.Some? then Some(ParseNumber(rating.value).value * 2) else None,
        if genres.Some? then Some(Split(genres.value, ',')) else None))
  }

  /**
   * The query the page sends after a search from `f`: every filter carried
   * over, and a rating of 1 to 5 stars sent as 2 to 10.
   */
  lemma SearchedVariables(f: Filters)
    requires Encodable(f)
    ensures BrowseVariables(EncodeParams(f)) == Ok(QueryVariables(
      f.title,
      if f.minYear.Some? then Some(f.minYear.value + "-01-01") else None,
      if f.maxYear.Some? then Some(f.maxYear.value + "-12-31") else None,
      if f.minRating.Some? then Some(2 * f.minRating.value) else None,
      f.genres))
    ensures f.minRating.Some? && 1 <= f.minRating.value <= 5 ==>
      var v := BrowseVariables(EncodeParams(f)).value;
      v.minRating.Some? && 2 <= v.minRating.value <= 10
  {
    DecodeEncode(f);
  }
}
