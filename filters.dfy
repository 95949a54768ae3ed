/**
 * The sidebar filter state of the browse page and the edits the sidebar
 * makes to it: setting or deleting one key, checking or unchecking a genre,
 * toggling the minimum star rating, and the highlight of the five stars.
 */
module Filters {
  import opened Options

  /** The genres the sidebar offers as checkboxes. */
  const GENRES: seq<string> := [
    "Action", "Adventure", "Comedy", "Drama", "Thriller", "Sci-Fi",
    "Horror", "Rom-Com", "Mystery", "Western", "Animation", "Musical"
  ]

  /** The keys of the `Filters` record, in declaration order. */
  datatype Key = Title | MinYear | MaxYear | MinRating | Genres

  const FILTER_KEYS: seq<Key> := [Title, MinYear, MaxYear, MinRating, Genres]

  /** The property name of a key, which is also the name of its URL parameter. */
  function Name(k: Key): string
  {
    match k
    case Title => "title"
    case MinYear => "minYear"
    case MaxYear => "maxYear"
    case MinRating => "minRating"
    case Genres => "genres"
  }

  /** The JavaScript values a filter edit passes: `undefined`, `null`, a string, a number, or an array of strings. */
  datatype Value = Undefined | Null | Str(s: string) | Num(n: int) | StrList(items: seq<string>)

  /** Every key is present or absent; a present key holds a value of its declared type. */
  datatype Filters = Filters(
    title: Option<string>,
    minYear: Option<string>,
    maxYear: Option<string>,
    minRating: Option<int>,
    genres: Option<seq<string>>)

  /** The empty record `{}`: the initial state and the state after a reset. */
  const NoFilters := Filters(None, None, None, None, None)

  /** Reading a key: `undefined` when it is absent. */
  function ValueOf(f: Filters, k: Key): Value
  {
    match k
    case Title => if f.title.Some? then Str(f.title.value) else Undefined
    case MinYear => if f.minYear.Some? then Str(f.minYear.value) else Undefined
    case MaxYear => if f.maxYear.Some? then Str(f.maxYear.value) else Undefined
    case MinRating => if f.minRating.Some? then Num(f.minRating.value) else Undefined
    case Genres => if f.genres.Some? then StrList(f.genres.value) else Undefined
  }

  /** A record is determined by what its five keys read. */
  lemma ValueOfDetermines(f: Filters, g: Filters)
    requires forall k :: ValueOf(f, k) == ValueOf(g, k)
    ensures f == g
  {
    assert ValueOf(f, Title) == ValueOf(g, Title);
    assert ValueOf(f, MinYear) == ValueOf(g, MinYear);
    assert ValueOf(f, MaxYear) == ValueOf(g, MaxYear);
    assert ValueOf(f, MinRating) == ValueOf(g, MinRating);
    assert ValueOf(f, Genres) == ValueOf(g, Genres);
  }

  /** The value has the type the `Filters` interface declares for the key, or is `undefined`/`null`. */
  predicate Fits(k: Key, v: Value)
  {
    match v
    case Undefined => true
    case Null => true
    case Str(_) => k == Title || k == MinYear || k == MaxYear
    case Num(_) => k == MinRating
    case StrList(_) => k == Genres
  }

  /** The values an edit treats as "no filter": `""`, `null`, `undefined` and the empty array. */
  predicate IsEmptyValue(v: Value)
  {
    v == Str("") || v == Null || v == Undefined || v == StrList([])
  }

  /** `delete newFilters[key]`. */
  function Delete(f: Filters, k: Key): Filters
  {
    match k
    case Title => f.(title := None)
    case MinYear => f.(minYear := None)
    case MaxYear => f.(maxYear := None)
    case MinRating => f.(minRating := None)
    case Genres => f.(genres := None)
  }

  /** `newFilters[key] = value`. */
  function Assign(f: Filters, k: Key, v: Value): Filters
    requires Fits(k, v) && v != Undefined && v != Null
  {
    match k
    case Title => f.(title := Some(v.s))
    case MinYear => f.(minYear := Some(v.s))
    case MaxYear => f.(maxYear := Some(v.s))
    case MinRating => f.(minRating := Some(v.n))
    case Genres => f.(genres := Some(v.items))
  }

  /**
   * The record `updatePendingFilter(key, value)` produces from `f`: an empty
   * value deletes the key, any other value is stored as given, and no other
   * key changes.
   */
  function SetFilter(f: Filters, key: Key, value: Value): (r: Filters)
    requires Fits(key, value)
    ensures ValueOf(r, key) == if IsEmptyValue(value) then Undefined else value
    ensures forall k :: k != key ==> ValueOf(r, k) == ValueOf(f, k)
  {
    if IsEmptyValue(value) then Delete(f, key) else Assign(f, key, value)
  }

  /** `pendingFilters.genres || []`. */
  function CurrentGenres(f: Filters): seq<string>
  {
    f.genres.GetOr([])
  }

  /** `genres.filter((g) => g !== genre)`: every occurrence of `genre` goes, the rest keep their order. */
  function RemoveGenre(genres: seq<string>, genre: string): (r: seq<string>)
    ensures multiset(r) == multiset(genres)[genre := 0]
    ensures |r| <= |genres|
  {
    if genres == [] then []
    else
      assert genres == [genres[0]] + genres[1..];
      (if genres[0] == genre then [] else [genres[0]]) + RemoveGenre(genres[1..], genre)
  }

  /** On one genre, the filter keeps it exactly when it is not the removed one. */
  lemma RemoveGenreSingle(g: string, genre: string)
    ensures RemoveGenre([g], genre) == if g == genre then [] else [g]
  {
    assert [g][1..] == [];
  }

  /**
   * The filter works piece by piece: filtering a concatenation filters
   * each part and keeps them in order. With `RemoveGenreSingle` this
   * fixes the result on every list.
   */
  lemma {:induction false} RemoveGenreAppend(a: seq<string>, b: seq<string>, genre: string)
    ensures RemoveGenre(a + b, genre) == RemoveGenre(a, genre) + RemoveGenre(b, genre)
  {
    if a == [] {
      assert a + b == b;
    } else {
      assert (a + b)[1..] == a[1..] + b;
      RemoveGenreAppend(a[1..], b, genre);
    }
  }

  /**
   * A genre checkbox change: checking appends the genre to the end of the
   * list (an already present genre is not de-duplicated); unchecking removes
   * every occurrence, and an emptied list deletes the key. Nothing else changes.
   */
  function GenreChange(f: Filters, genre: string, checked: bool): (r: Filters)
    ensures checked ==> r.genres == Some(CurrentGenres(f) + [genre])
    ensures !checked ==>
      var rest := RemoveGenre(CurrentGenres(f), genre);
      r.genres == if rest == [] then None else Some(rest)
    ensures r.(genres := f.genres) == f
  {
    var current := CurrentGenres(f);
    if checked then SetFilter(f, Genres, StrList(current + [genre]))
    else SetFilter(f, Genres, StrList(RemoveGenre(current, genre)))
  }

  /**
   * A click on star `rating`: clicking the selected rating clears it,
   * clicking any other selects it. Nothing else changes.
   */
  function RatingClick(f: Filters, rating: int): (r: Filters)
    ensures r.minRating == if f.minRating == Some(rating) then None else Some(rating)
    ensures r.(minRating := f.minRating) == f
  {
    if f.minRating == Some(rating) then SetFilter(f, MinRating, Undefined)
    else SetFilter(f, MinRating, Num(rating))
  }

  /** Two clicks on the same star give back the record without a rating, or unchanged if that star was selected. */
  lemma RatingClickTwice(f: Filters, rating: int)
    ensures RatingClick(RatingClick(f, rating), rating)
         == if f.minRating == Some(rating) then f else f.(minRating := None)
  {
  }

  /** Star `star` is highlighted when a rating is selected and the star is not above it. */
  predicate StarLit(f: Filters, star: int)
  {
    f.minRating.Some? && star <= f.minRating.value
  }

  /** The highlights of stars 1 to `n`, in order. */
  function Highlights(f: Filters, n: nat): (lit: seq<bool>)
    ensures |lit| == n
  {
    if n == 0 then [] else Highlights(f, n - 1) + [StarLit(f, n)]
  }

  /** The highlights of the five stars of the rating selector. */
  function StarHighlights(f: Filters): seq<bool>
  {
    Highlights(f, 5)
  }

  function CountLit(lit: seq<bool>): nat
  {
    if lit == [] then 0 else CountLit(lit[..|lit| - 1]) + (if lit[|lit| - 1] then 1 else 0)
  }

  /** Of stars 1 to `n`, exactly `min(r, n)` are lit (none when `r < 1`), and they come first. */
  lemma {:induction false} HighlightsPrefix(f: Filters, n: nat)
    ensures CountLit(Highlights(f, n)) ==
      match f.minRating
      case None => 0
      case Some(r) => if r < 0 then 0 else if r < n then r else n
    ensures forall i, j :: 0 <= i <= j < n && Highlights(f, n)[j] ==> Highlights(f, n)[i]
  {
    if n > 0 {
      HighlightsPrefix(f, n - 1);
      var lit := Highlights(f, n);
      assert lit[..n - 1] == Highlights(f, n - 1);
      forall i, j | 0 <= i <= j < n && lit[j] ensures lit[i] {
        if j < n - 1 {
          assert lit[j] == Highlights(f, n - 1)[j];
          assert lit[i] == Highlights(f, n - 1)[i];
        } else if i < n - 1 {
          assert lit[i] == Highlights(f, n - 1)[i];
          HighlightAt(f, n - 1, i);
        }
      }
    }
  }

  lemma {:induction false} HighlightAt(f: Filters, n: nat, i: nat)
    requires i < n
    ensures Highlights(f, n)[i] == StarLit(f, i + 1)
  {
    if i < n - 1 {
      HighlightAt(f, n - 1, i);
    }
  }

  /** With star rating `r` in 1..5 selected exactly the first `r` stars are lit; with none selected, none is. */
  lemma StarsLit(f: Filters)
    ensures f.minRating.None? ==> CountLit(StarHighlights(f)) == 0
    ensures f.minRating.Some? && 1 <= f.minRating.value <= 5 ==>
      CountLit(StarHighlights(f)) == f.minRating.value &&
      forall i :: 0 <= i < 5 ==> (StarHighlights(f)[i] <==> i < f.minRating.value)
  {
    HighlightsPrefix(f, 5);
    forall i | 0 <= i < 5 ensures StarHighlights(f)[i] == StarLit(f, i + 1) {
      HighlightAt(f, 5, i);
    }
  }
}
