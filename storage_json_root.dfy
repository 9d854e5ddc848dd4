/**
 * The older JSON movie store at the top level of the repository
 * (`StorageJson` in `storage_json.py`). Same file format and operations as
 * the packaged one, but its loader has no error handling: a missing file
 * raises FileNotFoundError and text that is not JSON raises
 * JSONDecodeError. Since every mutation loads before it saves, a failed
 * load ends the call before anything is written.
 */
module RootJsonStorage {
  import opened Wrappers
  import opened Dicts
  import opened JsonFiles
  import JsonStorage

  datatype LoadError = FileNotFound | JsonDecodeError

  /** What a mutating call ends with: normally, or with the exception its load raised. */
  datatype Outcome = Done | Failed(error: LoadError)

  /** `_load_movies` without a guard: the stored object, or the exception `json.load` raises. */
  function Load<V>(file: JsonFile<V>): (r: Result<Movies<V>, LoadError>)
    ensures r.Ok? <==> file.Document?
    ensures r.Ok? ==> r.value == file.movies
    ensures file.Missing? ==> r == Err(FileNotFound)
    ensures file.Malformed? ==> r == Err(JsonDecodeError)
  {
    match file
    case Missing => Err(FileNotFound)
    case Malformed => Err(JsonDecodeError)
    case Document(movies) => Ok(movies)
  }

  class StorageJson<V> {
    var file: JsonFile<V>

    /** `__init__`: writes `{}` only when there is no file; an existing file is left as it is. */
    constructor (existing: JsonFile<V>)
      ensures existing.Missing? ==> file == Document(Empty())
      ensures !existing.Missing? ==> file == existing
    {
      file := if existing.Missing? then Document(Empty()) else existing;
    }

    /** `_save_movies`: the file becomes the JSON text of `movies`. */
    method SaveMovies(movies: Movies<V>)
      modifies this`file
      ensures file == Document(movies)
    {
      file := Document(movies);
    }

    /** `list_movies`: the file as loaded now, or the exception the load raised. */
    method ListMovies() returns (r: Result<Movies<V>, LoadError>)
      ensures r == Load(file)
    {
      r := Load(file);
    }

    /** `add_movie`: inserts or overwrites `title` with `{year, rating}`, dropping the poster; a failed load writes nothing. */
    method AddMovie(title: string, year: V, rating: V, poster: V) returns (outcome: Outcome)
      modifies this`file
      ensures match Load(old(file))
        case Err(e) => outcome == Failed(e) && file == old(file)
        case Ok(movies) => outcome == Done && file == Document(Put(movies, title, NewDetails(year, rating)))
    {
      var loaded := Load(file);
      if loaded.Err? {
        return Failed(loaded.error);
      }
      SaveMovies(Put(loaded.value, title, NewDetails(year, rating)));
      outcome := Done;
    }

    /** `delete_movie`: removes only `title`; an absent title or a failed load writes nothing. */
    method DeleteMovie(title: string) returns (outcome: Outcome)
      modifies this`file
      ensures match Load(old(file))
        case Err(e) => outcome == Failed(e) && file == old(file)
        case Ok(movies) =>
          && outcome == Done
          && (title in movies.table ==> file == Document(Remove(movies, title)))
          && (title !in movies.table ==> file == old(file))
    {
      var loaded := Load(file);
      if loaded.Err? {
        return Failed(loaded.error);
      }
      var movies := loaded.value;
      if title in movies.table {
        SaveMovies(Remove(movies, title));
      }
      outcome := Done;
    }

    /** `update_movie`: replaces only the rating of `title`; an absent title or a failed load writes nothing. */
    method UpdateMovie(title: string, rating: V) returns (outcome: Outcome)
      modifies this`file
      ensures match Load(old(file))
        case Err(e) => outcome == Failed(e) && file == old(file)
        case Ok(movies) =>
          && outcome == Done
          && (title in movies.table ==> file == Document(Put(movies, title, WithRating(movies.table[title], rating))))
          && (title !in movies.table ==> file == old(file))
    {
      var loaded := Load(file);
      if loaded.Err? {
        return Failed(loaded.error);
      }
      var movies := loaded.value;
      if title in movies.table {
        SaveMovies(Put(movies, title, WithRating(movies.table[title], rating)));
      }
      outcome := Done;
    }
  }

  /**
   * `list_movies` as written raises on an existing file whose text is not
   * JSON (an empty file, say), and the mutations raise with it, although the
   * comment beside `list_movies` says the load handles that case.
   */
  lemma ListRaisesOnMalformed<V>(file: JsonFile<V>)
    requires file.Malformed?
    ensures Load(file) == Err(JsonDecodeError)
    ensures JsonStorage.Load(file).keys == []
  {
  }

  /**
   * Where this loader succeeds it agrees with the guarded loader of the
   * packaged store; where it raises, the guarded one gives the empty dict.
   */
  lemma GuardedLoadAgrees<V>(file: JsonFile<V>)
    ensures match Load(file)
      case Ok(movies) => JsonStorage.Load(file) == movies
      case Err(_) => JsonStorage.Load(file) == Empty()
  {
  }
}
