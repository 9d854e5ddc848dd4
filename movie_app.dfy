/**
 * The decisions of the storage-backed shell (`MovieApp`): which storage
 * call an action issues, if any, given what `list_movies` returned and
 * the lines the user types, and the reports it builds from the listing.
 * The lines are a sequence consumed in order; running out of them is the
 * EOFError `input()` raises. `float()` and `int()` on a typed line are
 * parameters that give `None` where Python raises ValueError.
 */
module MovieApp {
  import opened Wrappers
  import opened Dicts
  import opened Text
  import opened Selection

  /** A listed movie's details: its year as the store keeps it, and its rating. */
  datatype Details<Y> = Details(year: Y, rating: real)

  /** What `list_movies` returns: title to details. */
  type Listing<Y> = Dict<string, Details<Y>>

  /** A call the shell makes on its storage. */
  datatype StorageCall =
    | Add(title: string, year: int, rating: real, poster: string)
    | Delete(title: string)
    | Update(title: string, rating: real)

  /** How an action ends: with a storage call, with a message and no call, or by running out of input. */
  datatype Outcome = Issued(call: StorageCall) | Declined | InputEnded

  /** The name loop accepts a line that is not blank once stripped. */
  function NameGiven(line: string): (accepted: bool) {
    Strip(line) != []
  }

  /** The rating loops accept a line `float` reads as a number from 1 to 10. */
  function RatingGiven(toFloat: string -> Option<real>): string -> bool {
    line => toFloat(line).Some? && 1.0 <= toFloat(line).value <= 10.0
  }

  /** The year loop accepts a line `int` reads. */
  function YearGiven(toInt: string -> Option<int>): string -> bool {
    line => toInt(line).Some?
  }

  function RatingOf<Y>(details: Details<Y>): (rating: real) {
    details.rating
  }

  /**
   * What `add_movie` does with the typed lines: the first line not blank once
   * stripped is the name, declined when already listed; the first line after
   * it that reads as a rating from 1 to 10 is the rating, and the first line
   * after that which reads as a whole number is the year.
   */
  function AddResponse<Y>(movies: Listing<Y>, inputs: seq<string>, toFloat: string -> Option<real>, toInt: string -> Option<int>)
    : (outcome: Outcome)
  {
    match FirstFrom(inputs, 0, NameGiven)
    case None => InputEnded
    case Some(n) =>
      var name := Strip(inputs[n]);
      if name in movies.table then Declined else AddDetails(name, inputs, n + 1, toFloat, toInt)
  }

  /** The rest of `add_movie` once `name` is accepted: the rating, then the year, read from line `from` on. */
  function AddDetails(name: string, inputs: seq<string>, from: nat, toFloat: string -> Option<real>, toInt: string -> Option<int>)
    : (outcome: Outcome)
  {
    match FirstFrom(inputs, from, RatingGiven(toFloat))
    case None => InputEnded
    case Some(r) =>
      match FirstFrom(inputs, r + 1, YearGiven(toInt))
      case None => InputEnded
      case Some(y) => Issued(Add(name, toInt(inputs[y]).value, toFloat(inputs[r]).value, "N/A"))
  }

  /**
   * The guards of `add_movie`: an add is issued only for a name that is not
   * blank, has no whitespace around it and is not listed yet, with a rating
   * from 1 to 10 and the poster "N/A".
   */
  lemma AddGuards<Y>(movies: Listing<Y>, inputs: seq<string>, toFloat: string -> Option<real>, toInt: string -> Option<int>)
    ensures var outcome := AddResponse(movies, inputs, toFloat, toInt);
      outcome.Issued? ==>
        && outcome.call.Add?
        && outcome.call.title != [] && Trimmed(outcome.call.title)
        && outcome.call.title !in movies.table
        && 1.0 <= outcome.call.rating <= 10.0
        && outcome.call.poster == "N/A"
  {
    var outcome := AddResponse(movies, inputs, toFloat, toInt);
    if outcome.Issued? {
      var n := FirstFrom(inputs, 0, NameGiven).value;
      FirstFromFinds(inputs, 0, NameGiven);
      assert NameGiven(inputs[n]);
      var r := FirstFrom(inputs, n + 1, RatingGiven(toFloat)).value;
      FirstFromFinds(inputs, n + 1, RatingGiven(toFloat));
      assert RatingGiven(toFloat)(inputs[r]);
    }
  }

  /**
   * What `update_movie` does with the typed lines: the first is the name,
   * declined unless listed; the first line after it that reads as a rating
   * from 1 to 10 is the new rating.
   */
  function UpdateResponse<Y>(movies: Listing<Y>, inputs: seq<string>, toFloat: string -> Option<real>): (outcome: Outcome) {
    if inputs == [] then InputEnded
    else
      var name := Strip(inputs[0]);
      if name !in movies.table then Declined
      else match FirstFrom(inputs, 1, RatingGiven(toFloat))
        case None => InputEnded
        case Some(r) =>
          Issued(Update(name, toFloat(inputs[r]).value))
  }

  /** The guards of `update_movie`: an update is issued only for a listed name and a rating from 1 to 10. */
  lemma UpdateGuards<Y>(movies: Listing<Y>, inputs: seq<string>, toFloat: string -> Option<real>)
    ensures var outcome := UpdateResponse(movies, inputs, toFloat);
      outcome.Issued? ==>
        && outcome.call.Update?
        && outcome.call.title in movies.table
        && 1.0 <= outcome.call.rating <= 10.0
  {
    if UpdateResponse(movies, inputs, toFloat).Issued? {
      var r := FirstFrom(inputs, 1, RatingGiven(toFloat)).value;
      FirstFromFinds(inputs, 1, RatingGiven(toFloat));
      assert RatingGiven(toFloat)(inputs[r]);
    }
  }

  /** `add_movie`'s name prompt loop and its check against the listing. */
  method AddMovie<Y>(movies: Listing<Y>, inputs: seq<string>, toFloat: string -> Option<real>, toInt: string -> Option<int>)
    returns (outcome: Outcome)
    ensures outcome == AddResponse(movies, inputs, toFloat, toInt)
  {
    var n := NextAccepted(inputs, 0, NameGiven);
    if n == |inputs| {
      return InputEnded;
    }
    var name := Strip(inputs[n]);
    if name in movies.table {
      return Declined;
    }
    outcome := ReadDetails(name, inputs, n + 1, toFloat, toInt);
  }

  /** `add_movie`'s rating and year prompt loops. */
  method ReadDetails(name: string, inputs: seq<string>, from: nat, toFloat: string -> Option<real>, toInt: string -> Option<int>)
    returns (outcome: Outcome)
    requires from <= |inputs|
    ensures outcome == AddDetails(name, inputs, from, toFloat, toInt)
  {
    var r := NextAccepted(inputs, from, RatingGiven(toFloat));
    if r == |inputs| {
      return InputEnded;
    }
    var rating := toFloat(inputs[r]).value;
    var y := NextAccepted(inputs, r + 1, YearGiven(toInt));
    if y == |inputs| {
      return InputEnded;
    }
    var year := toInt(inputs[y]).value;
    outcome := Issued(Add(name, year, rating, "N/A"));
  }

  /**
   * One `while True` prompt loop: reads lines from `from` on until `accept`
   * takes one, and gives its position, or `|inputs|` when the lines run out.
   */
  method NextAccepted(inputs: seq<string>, from: nat, accept: string -> bool) returns (i: nat)
    requires from <= |inputs|
    ensures from <= i <= |inputs|
    ensures i < |inputs| <==> FirstFrom(inputs, from, accept).Some?
    ensures i < |inputs| ==> FirstFrom(inputs, from, accept) == Some(i) && accept(inputs[i])
  {
    i := from;
    while i < |inputs| && !accept(inputs[i])
      invariant from <= i <= |inputs|
      invariant FirstFrom(inputs, from, accept) == FirstFrom(inputs, i, accept)
    {
      i := i + 1;
    }
  }

  /** `delete_movie`: deletes the stripped name when it is listed; otherwise reports it missing. */
  function DeleteMovie<Y>(movies: Listing<Y>, inputs: seq<string>): (outcome: Outcome)
    ensures inputs == [] <==> outcome == InputEnded
    ensures outcome.Issued? <==> inputs != [] && Strip(inputs[0]) in movies.table
    ensures outcome.Issued? ==> outcome.call == Delete(Strip(inputs[0]))
  {
    if inputs == [] then InputEnded
    else
      var name := Strip(inputs[0]);
      if name in movies.table then Issued(Delete(name)) else Declined
  }

  /** `update_movie`'s name check and rating prompt loop. */
  method UpdateMovie<Y>(movies: Listing<Y>, inputs: seq<string>, toFloat: string -> Option<real>)
    returns (outcome: Outcome)
    ensures outcome == UpdateResponse(movies, inputs, toFloat)
  {
    if inputs == [] {
      return InputEnded;
    }
    var name := Strip(inputs[0]);
    if name !in movies.table {
      return Declined;
    }
    var r := NextAccepted(inputs, 1, RatingGiven(toFloat));
    if r == |inputs| {
      return InputEnded;
    }
    outcome := Issued(Update(name, toFloat(inputs[r]).value));
  }

  /** The two lists `movie_stats` prints besides the average and the median. */
  datatype Stats = Stats(best: seq<string>, worst: seq<string>)

  /**
   * `movie_stats`: nothing for an empty listing; otherwise the titles rated
   * at the maximum and at the minimum, in listing order.
   */
  function MovieStats<Y>(movies: Listing<Y>): (r: Option<Stats>)
    ensures r.None? <==> |movies.keys| == 0
    ensures r.Some? ==> forall t :: t in r.value.best <==> Top(movies, RatingOf)(t)
    ensures r.Some? ==> forall t :: t in r.value.worst <==> Bottom(movies, RatingOf)(t)
    ensures r.Some? ==> r.value.best != [] && r.value.worst != []
    ensures r.Some? ==> r.value.best == KeepIf(movies.keys, Top(movies, RatingOf))
    ensures r.Some? ==> r.value.worst == KeepIf(movies.keys, Bottom(movies, RatingOf))
  {
    if |movies.keys| == 0 then None
    else
      var maxRating := MaxKey(Items(movies), ValueKey(RatingOf));
      var minRating := MinKey(Items(movies), ValueKey(RatingOf));
      KeptAtMax(movies, RatingOf);
      KeptAtMin(movies, RatingOf);
      var best := KeepIf(movies.keys, AtValue(movies, RatingOf, maxRating));
      var worst := KeepIf(movies.keys, AtValue(movies, RatingOf, minRating));
      Some(Stats(best, worst))
  }

  /** `search_movie`: the titles containing the query up to case, in listing order, and whether there was any. */
  method SearchMovie<Y>(movies: Listing<Y>, query: string) returns (matches: seq<string>, found: bool)
    ensures matches == KeepIf(movies.keys, Matches(query))
    ensures found <==> |matches| > 0
  {
    var titles := movies.keys;
    matches, found := [], false;
    for i := 0 to |titles|
      invariant matches == KeepIf(titles[..i], Matches(query))
      invariant found <==> |matches| > 0
    {
      var name := titles[i];
      KeepIfNext(titles, i, Matches(query));
      if Matches(query)(name) {
        matches, found := matches + [name], true;
      }
    }
    KeepIfAll(titles, Matches(query));
  }

  /** A title is reported by a search exactly when the query occurs in it, ignoring case. */
  lemma SearchFinds<Y>(movies: Listing<Y>, query: string, title: string)
    ensures title in KeepIf(movies.keys, Matches(query)) <==>
      title in movies.table && exists i :: OccursAt(Lower(title), Lower(query), i)
  {
    ContainsAt(Lower(title), Lower(query));
  }

  /** `sorted_by_rating`: the listing's items, highest rating first, ties in listing order. */
  function SortedByRating<Y(==,!new)>(movies: Listing<Y>): (r: seq<(string, Details<Y>)>)
    ensures multiset(r) == multiset(Items(movies))
    ensures NonIncreasing(r, ValueKey(RatingOf))
  {
    SortDesc(Items(movies), ValueKey(RatingOf))
  }

  /** Items with equal ratings come out in listing order. */
  lemma SortedTiesInOrder<Y(!new)>(movies: Listing<Y>, rating: real)
    ensures KeepIf(SortedByRating(movies), HasKey(ValueKey(RatingOf), rating))
         == KeepIf(Items(movies), HasKey(ValueKey(RatingOf), rating))
  {
    SortStable(Items(movies), ValueKey(RatingOf), rating);
  }
}
