/**
 * The first, self-contained version of the application (`movies.py`): the
 * catalog is a module-level dict from title to rating that the menu actions
 * change in place, and titles typed by the user are matched
 * case-insensitively against it. Here that dict is the field of a
 * `Catalog` object; what the user types arrives as method arguments.
 */
module Movies {
  import opened Wrappers
  import opened Dicts
  import opened Text
  import opened Selection

  /** Title to rating, in insertion order. */
  type Ratings = Dict<string, real>

  /** How a changing action ends: normally, or with the ValueError `float()` raised on the typed rating. */
  datatype Outcome = Done | ValueError(text: string)

  /** The ten movies the dict literal starts with, in its order. */
  function Initial(): (movies: Ratings) {
    var d := Put(Empty(), "The Shawshank Redemption", 9.5);
    var d := Put(d, "Pulp Fiction", 8.8);
    var d := Put(d, "The Room", 3.6);
    var d := Put(d, "The Godfather", 9.2);
    var d := Put(d, "The Godfather: Part II", 9.0);
    var d := Put(d, "The Dark Knight", 9.0);
    var d := Put(d, "12 Angry Men", 8.9);
    var d := Put(d, "Everything Everywhere All At Once", 8.9);
    var d := Put(d, "Forrest Gump", 8.8);
    Put(d, "Star Wars: Episode V", 8.7)
  }

  /** `query.lower() == movie_key.lower()` */
  function SameTitle(query: string): string -> bool {
    title => Lower(title) == Lower(query)
  }

  /** A rating as the key it is compared by. */
  function Identity(rating: real): (r: real) {
    rating
  }

  /** The rating of a title, for ordering titles by it. */
  function RatingIn(d: Ratings): string -> real {
    title => if title in d.table then d.table[title] else 0.0
  }

  /**
   * The dict `get_sorted_list_by_rtg` builds: the same entries, titles in
   * non-increasing rating order. Sorting the items by rating and sorting the
   * titles by their rating give the same order, the titles being distinct.
   */
  function SortedByRating(d: Ratings): (r: Ratings)
    ensures r.table == d.table
    ensures multiset(r.keys) == multiset(d.keys)
    ensures NonIncreasing(r.keys, RatingIn(d))
  {
    var keys := SortDesc(d.keys, RatingIn(d));
    SortDistinct(d.keys, RatingIn(d));
    assert forall k :: k in keys <==> k in multiset(d.keys);
    Entries(keys, d.table)
  }

  /** Titles with equal ratings keep the order they had in the catalog. */
  lemma SortedTiesInOrder(d: Ratings, rating: real)
    ensures KeepIf(SortedByRating(d).keys, HasKey(RatingIn(d), rating)) == KeepIf(d.keys, HasKey(RatingIn(d), rating))
  {
    SortStable(d.keys, RatingIn(d), rating);
  }

  class Catalog {
    var movies: Ratings
    /** `float(text)`: the number the text denotes, or `None` where `float` raises ValueError. */
    const toFloat: string -> Option<real>

    constructor (toFloat: string -> Option<real>)
      ensures movies == Initial() && this.toFloat == toFloat
    {
      movies := Initial();
      this.toFloat := toFloat;
    }

    /** `find_db_movie`: the first title, in dict order, equal to the query up to case; `(False, "")` when there is none. */
    method FindDbMovie(query: string) returns (found: bool, key: string)
      ensures match FirstFrom(movies.keys, 0, SameTitle(query))
        case Some(i) => found && key == movies.keys[i]
        case None => !found && key == ""
    {
      var i := 0;
      while i < |movies.keys|
        invariant i <= |movies.keys|
        invariant FirstFrom(movies.keys, 0, SameTitle(query)) == FirstFrom(movies.keys, i, SameTitle(query))
      {
        if Lower(query) == Lower(movies.keys[i]) {
          return true, movies.keys[i];
        }
        i := i + 1;
      }
      return false, "";
    }

    /** `add_movie`: sets the rating of `name`, inserting or overwriting; a rating `float` rejects changes nothing. */
    method AddMovie(name: string, ratingText: string) returns (outcome: Outcome)
      modifies this`movies
      ensures toFloat(ratingText).None? ==> outcome == ValueError(ratingText) && movies == old(movies)
      ensures toFloat(ratingText).Some? ==>
        outcome == Done && movies == Put(old(movies), name, toFloat(ratingText).value)
    {
      var rating := toFloat(ratingText);
      if rating.None? {
        return ValueError(ratingText);
      }
      movies := Put(movies, name, rating.value);
      outcome := Done;
    }

    /** `delete_movie`: removes the title `find_db_movie` finds, and nothing when it finds none. */
    method DeleteMovie(query: string)
      modifies this`movies
      ensures match FirstFrom(old(movies).keys, 0, SameTitle(query))
        case Some(i) => movies == Remove(old(movies), old(movies).keys[i])
        case None => movies == old(movies)
    {
      var found, key := FindDbMovie(query);
      if found {
        movies := Remove(movies, key);
      }
    }

    /** `update_movie`: re-rates the title `find_db_movie` finds; no title, or a rating `float` rejects, changes nothing. */
    method UpdateMovie(query: string, ratingText: string) returns (outcome: Outcome)
      modifies this`movies
      ensures match FirstFrom(old(movies).keys, 0, SameTitle(query))
        case None => outcome == Done && movies == old(movies)
        case Some(i) =>
          match toFloat(ratingText)
          case None => outcome == ValueError(ratingText) && movies == old(movies)
          case Some(rating) => outcome == Done && movies == Put(old(movies), old(movies).keys[i], rating)
    {
      var found, key := FindDbMovie(query);
      if found {
        var rating := toFloat(ratingText);
        if rating.None? {
          return ValueError(ratingText);
        }
        movies := Put(movies, key, rating.value);
      }
      outcome := Done;
    }

    /** `search_movie`: the titles containing the query up to case, in dict order, and whether there was any. */
    method SearchMovie(query: string) returns (matches: seq<string>, found: bool)
      ensures matches == KeepIf(movies.keys, Matches(query))
      ensures found <==> |matches| > 0
    {
      var titles := movies.keys;
      matches, found := [], false;
      for i := 0 to |titles|
        invariant matches == KeepIf(titles[..i], Matches(query))
        invariant found <==> |matches| > 0
      {
        var name := titles[i];
        KeepIfNext(titles, i, Matches(query));
        if Matches(query)(name) {
          matches, found := matches + [name], true;
        }
      }
      KeepIfAll(titles, Matches(query));
    }

    /** `get_best_movie`: the entries rated at the maximum, in dict order. */
    method GetBestMovie() returns (best: Ratings)
      ensures best == Select(movies, Top(movies, Identity))
    {
      var d := movies;
      best := Empty();
      for i := 0 to |d.keys|
        invariant best.keys == KeepIf(d.keys[..i], Top(d, Identity))
        invariant best.table == map k | k in best.keys :: d.table[k]
      {
        var name := d.keys[i];
        var rating := d.table[name];
        SelectGrow(d, i, best, Top(d, Identity));
        TopByMax(d, Identity, name);
        if rating >= MaxKey(Items(d), ValueKey(Identity)) {
          best := Put(best, name, rating);
        }
      }
      SelectDone(d, best, Top(d, Identity));
    }

    /** `get_worst_movie`: the entries rated at the minimum, in dict order. */
    method GetWorstMovie() returns (worst: Ratings)
      ensures worst == Select(movies, Bottom(movies, Identity))
    {
      var d := movies;
      worst := Empty();
      for i := 0 to |d.keys|
        invariant worst.keys == KeepIf(d.keys[..i], Bottom(d, Identity))
        invariant worst.table == map k | k in worst.keys :: d.table[k]
      {
        var name := d.keys[i];
        var rating := d.table[name];
        SelectGrow(d, i, worst, Bottom(d, Identity));
        BottomByMin(d, Identity, name);
        if rating <= MinKey(Items(d), ValueKey(Identity)) {
          worst := Put(worst, name, rating);
        }
      }
      SelectDone(d, worst, Bottom(d, Identity));
    }
  }

  /** Deleting a title that `find_db_movie` reports removes that title only; every other entry keeps its rating. */
  lemma DeleteOnlyFound(before: Ratings, query: string)
    ensures match FirstFrom(before.keys, 0, SameTitle(query))
      case Some(i) =>
        var gone := before.keys[i];
        && Lower(gone) == Lower(query)
        && gone !in Remove(before, gone).table
        && forall t :: t != gone ==> (t in Remove(before, gone).table <==> t in before.table)
      case None => forall t :: t in before.table ==> Lower(t) != Lower(query)
  {
    FirstFromFinds(before.keys, 0, SameTitle(query));
    match FirstFrom(before.keys, 0, SameTitle(query))
    case Some(i) =>
    case None =>
      forall t | t in before.table ensures Lower(t) != Lower(query) {
        var k :| 0 <= k < |before.keys| && before.keys[k] == t;
        assert !SameTitle(query)(before.keys[k]);
      }
  }
}
