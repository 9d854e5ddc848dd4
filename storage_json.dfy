/**
 * The JSON movie store the application is wired to (`StorageJson` in the
 * `storage` package). Its loader is defensive: a missing file or text that
 * is not valid JSON reads as the empty collection, so no operation fails
 * for those reasons. Every mutation loads, changes the dict and rewrites
 * the whole file.
 */
module JsonStorage {
  import opened Dicts
  import opened JsonFiles

  /** `_load_movies`: the stored object, or `{}` when the file is missing or malformed. */
  function Load<V>(file: JsonFile<V>): (movies: Movies<V>)
    ensures file.Document? ==> movies == file.movies
    ensures !file.Document? ==> movies.keys == [] && movies.table == map[]
  {
    if file.Document? then file.movies else Empty()
  }

  class StorageJson<V> {
    var file: JsonFile<V>

    /** `__init__`: writes `{}` only when there is no file; an existing file, even a malformed one, is left as it is. */
    constructor (existing: JsonFile<V>)
      ensures existing.Missing? ==> file == Document(Empty())
      ensures !existing.Missing? ==> file == existing
    {
      file := if existing.Missing? then Document(Empty()) else existing;
    }

    /** `_save_movies`: the file becomes the JSON text of `movies`. */
    method SaveMovies(movies: Movies<V>)
      modifies this`file
      ensures file == Document(movies)
    {
      file := Document(movies);
    }

    /** `list_movies`: the file as loaded now, nothing cached. */
    method ListMovies() returns (movies: Movies<V>)
      ensures movies == Load(file)
    {
      movies := Load(file);
    }

    /** `add_movie`: inserts or overwrites `title` with `{year, rating}`; the poster is dropped. */
    method AddMovie(title: string, year: V, rating: V, poster: V)
      modifies this`file
      ensures file == Document(Put(Load(old(file)), title, NewDetails(year, rating)))
    {
      var movies := Load(file);
      SaveMovies(Put(movies, title, NewDetails(year, rating)));
    }

    /** `delete_movie`: removes only `title`; an absent title writes nothing. */
    method DeleteMovie(title: string)
      modifies this`file
      ensures title in Load(old(file)).table ==> file == Document(Remove(Load(old(file)), title))
      ensures title !in Load(old(file)).table ==> file == old(file)
    {
      var movies := Load(file);
      if title in movies.table {
        SaveMovies(Remove(movies, title));
      }
    }

    /** `update_movie`: replaces only the rating of `title`; an absent title writes nothing. */
    method UpdateMovie(title: string, rating: V)
      modifies this`file
      ensures title in Load(old(file)).table ==>
        file == Document(Put(Load(old(file)), title, WithRating(Load(old(file)).table[title], rating)))
      ensures title !in Load(old(file)).table ==> file == old(file)
    {
      var movies := Load(file);
      if title in movies.table {
        SaveMovies(Put(movies, title, WithRating(movies.table[title], rating)));
      }
    }
  }

  /**
   * The file `add_movie` leaves lists `title` with exactly `{year, rating}`,
   * and every other title with what it had. On a missing or malformed file
   * the old content is lost: the new file holds that one movie only.
   */
  lemma AddThenList<V>(file: JsonFile<V>, title: string, year: V, rating: V)
    ensures var after := Load(Document(Put(Load(file), title, NewDetails(year, rating))));
      && after.table[title] == NewDetails(year, rating)
      && (forall t :: t != title ==> (t in after.table <==> t in Load(file).table))
      && (forall t :: t != title && t in after.table ==> after.table[t] == Load(file).table[t])
      && (!file.Document? ==> after.keys == [title])
  {
  }

  /** `update_movie` on a present title keeps the year and every other field of its object. */
  lemma UpdateKeepsYear<V>(file: JsonFile<V>, title: string, rating: V)
    requires title in Load(file).table
    ensures var before := Load(file).table[title];
      var after := Load(Document(Put(Load(file), title, WithRating(before, rating)))).table[title];
      && after.table["rating"] == rating
      && (forall f :: f != "rating" ==> (f in after.table <==> f in before.table))
      && (forall f :: f != "rating" && f in before.table ==> after.table[f] == before.table[f])
  {
  }

  /** Deleting twice is deleting once: the second call finds nothing and writes nothing. */
  lemma DeleteIdempotent<V>(file: JsonFile<V>, title: string)
    ensures var once := if title in Load(file).table then Document(Remove(Load(file), title)) else file;
      title !in Load(once).table
  {
  }
}
