/**
 * The CSV movie store (`StorageCsv`): a text file holding one
 * `title,year,rating` line per movie, no header, no quoting. Every
 * operation reads the whole file into a dict, changes the dict, and
 * rewrites the whole file.
 *
 * `float(text)` and `str(rating)` are library code and enter the model as
 * the two functions a store is built with, `toFloat` and `toText`.
 */
module CsvStorage {
  import opened Wrappers
  import opened Dicts
  import opened Text

  /** One stored movie: `year` is the raw text of its field, `rating` what `float` made of the third. */
  datatype Movie<R> = Movie(year: string, rating: R)

  type Movies<R> = Dict<string, Movie<R>>

  /** Why `_load_movies` raises: the file is gone, or `float` rejected the third field of a kept line. */
  datatype LoadError = FileNotFound | ValueError(text: string)

  /** What a mutating call ends with: normally, or with the exception its load raised. */
  datatype Outcome = Done | Failed(error: LoadError)

  /** `line.strip().split(",")` */
  function Fields(line: string): (r: seq<string>) {
    Split(Strip(line), ',')
  }

  /** A line the loader keeps: exactly three fields. */
  predicate IsRow(line: string) {
    |Fields(line)| == 3
  }

  /** The field list of every line, in order. */
  function FieldsOf(lines: seq<string>): (r: seq<seq<string>>)
    ensures |r| == |lines|
    ensures forall i :: 0 <= i < |lines| ==> r[i] == Fields(lines[i])
  {
    seq(|lines|, i requires 0 <= i < |lines| => Fields(lines[i]))
  }

  /**
   * The loader's loop over the lines' field lists, as a left fold: a list
   * of three fields is `movies[title] = {"year": year, "rating": float(rating)}`,
   * any other list is skipped.
   */
  function LoadFields<R>(rows: seq<seq<string>>, toFloat: string -> Option<R>): (r: Result<Movies<R>, LoadError>)
  {
    if rows == [] then Ok(Empty())
    else
      match LoadFields(rows[..|rows| - 1], toFloat)
      case Err(e) => Err(e)
      case Ok(movies) =>
        var parts := rows[|rows| - 1];
        if |parts| != 3 then Ok(movies)
        else
          match toFloat(parts[2])
          case None => Err(ValueError(parts[2]))
          case Some(r) => Ok(Put(movies, parts[0], Movie(parts[1], r)))
  }

  function LoadLines<R>(lines: seq<string>, toFloat: string -> Option<R>): (r: Result<Movies<R>, LoadError>) {
    LoadFields(FieldsOf(lines), toFloat)
  }

  /** `_load_movies` on the file as it stands (`None`: no file). */
  function Load<R>(file: Option<string>, toFloat: string -> Option<R>): (r: Result<Movies<R>, LoadError>) {
    match file
    case None => Err(FileNotFound)
    case Some(text) => LoadLines(ReadLines(text), toFloat)
  }

  /** The line `_save_movies` writes for one entry. */
  function Row<R>(title: string, m: Movie<R>, toText: R -> string): (row: string) {
    title + "," + m.year + "," + toText(m.rating) + "\n"
  }

  function Rows<R>(movies: Movies<R>, toText: R -> string): (rows: seq<string>)
    ensures |rows| == |movies.keys|
  {
    seq(|movies.keys|, i requires 0 <= i < |movies.keys| =>
      Row(movies.keys[i], movies.table[movies.keys[i]], toText))
  }

  /** The whole text `_save_movies` leaves in the file: one row per entry, in dict order. */
  function Serialise<R>(movies: Movies<R>, toText: R -> string): (text: string) {
    Concat(Rows(movies, toText))
  }

  /** Text that stays inside one field of one line: no comma, no newline. */
  predicate Plain(s: string) {
    ',' !in s && '\n' !in s
  }

  /**
   * An entry whose row reads back as itself: title and year plain, the
   * title not starting with whitespace (strip would eat it), and the
   * rating's text plain, not ending in whitespace, and read back by `float`
   * as the same rating.
   */
  ghost predicate RowSafe<R>(title: string, m: Movie<R>, toFloat: string -> Option<R>, toText: R -> string) {
    && Plain(title) && (title == [] || !IsSpace(title[0]))
    && Plain(m.year)
    && Plain(toText(m.rating)) && (toText(m.rating) == [] || !IsSpace(toText(m.rating)[|toText(m.rating)| - 1]))
    && toFloat(toText(m.rating)) == Some(m.rating)
  }

  ghost predicate Storable<R>(movies: Movies<R>, toFloat: string -> Option<R>, toText: R -> string) {
    forall k :: k in movies.table ==> RowSafe(k, movies.table[k], toFloat, toText)
  }

  /**
   * What Python's floats give: `float(str(r)) == r`, and `str(r)` has no
   * comma, no newline and no trailing whitespace.
   */
  ghost predicate FloatCodec<R(!new)>(toFloat: string -> Option<R>, toText: R -> string) {
    forall r :: && toFloat(toText(r)) == Some(r) && Plain(toText(r))
                && (toText(r) == [] || !IsSpace(toText(r)[|toText(r)| - 1]))
  }

  /** The text of a safe row without its `\n`: the three fields joined by commas, trimmed, one line. */
  lemma RowBody<R>(title: string, m: Movie<R>, toFloat: string -> Option<R>, toText: R -> string)
    requires RowSafe(title, m, toFloat, toText)
    ensures Row(title, m, toText) == Join([title, m.year, toText(m.rating)], ',') + "\n"
    ensures Join([title, m.year, toText(m.rating)], ',') != []
    ensures Trimmed(Join([title, m.year, toText(m.rating)], ','))
    ensures '\n' !in Join([title, m.year, toText(m.rating)], ',')
  {
    var t := toText(m.rating);
    var body := title + "," + m.year + "," + t;
    assert Join([title, m.year, t], ',') == title + [','] + Join([m.year, t], ',');
    assert Join([m.year, t], ',') == m.year + [','] + t;
    assert body == Join([title, m.year, t], ',');
    assert body[0] == if title == [] then ',' else title[0];
    assert body[|body| - 1] == if t == [] then ',' else t[|t| - 1];
  }

  /** A safe row splits back into its title, its year and its rating text. */
  lemma RowFields<R>(title: string, m: Movie<R>, toFloat: string -> Option<R>, toText: R -> string)
    requires RowSafe(title, m, toFloat, toText)
    ensures Fields(Row(title, m, toText)) == [title, m.year, toText(m.rating)]
  {
    var parts := [title, m.year, toText(m.rating)];
    RowBody(title, m, toFloat, toText);
    StripLine(Join(parts, ','));
    SplitJoin(parts, ',');
  }

  /** A safe row is one line: its only `\n` is its last character. */
  lemma RowLine<R>(title: string, m: Movie<R>, toFloat: string -> Option<R>, toText: R -> string)
    requires RowSafe(title, m, toFloat, toText)
    ensures var row := Row(title, m, toText);
      |row| > 0 && row[|row| - 1] == '\n' && '\n' !in row[..|row| - 1]
  {
    var body := Join([title, m.year, toText(m.rating)], ',');
    RowBody(title, m, toFloat, toText);
    assert (body + "\n")[..|body + "\n"| - 1] == body;
  }

  lemma PrefixGrow<R>(movies: Movies<R>, n: nat)
    requires 0 < n <= |movies.keys|
    ensures var k := movies.keys[n - 1];
      Put(Prefix(movies, n - 1), k, movies.table[k]) == Prefix(movies, n)
  {
    var k := movies.keys[n - 1];
    var before := Prefix(movies, n - 1);
    assert k !in before.table by {
      forall i | 0 <= i < n - 1 ensures movies.keys[i] != k { }
    }
    assert movies.keys[..n] == movies.keys[..n - 1] + [k];
  }

  /** Loading the first rows of a serialised dict gives its first entries. */
  lemma {:induction false} LoadRowsPrefix<R>(movies: Movies<R>, toFloat: string -> Option<R>, toText: R -> string, n: nat)
    requires Storable(movies, toFloat, toText)
    requires n <= |movies.keys|
    ensures LoadFields(FieldsOf(Rows(movies, toText))[..n], toFloat) == Ok(Prefix(movies, n))
  {
    if n > 0 {
      var rows := FieldsOf(Rows(movies, toText))[..n];
      assert rows[..n - 1] == FieldsOf(Rows(movies, toText))[..n - 1];
      LoadRowsPrefix(movies, toFloat, toText, n - 1);
      var k := movies.keys[n - 1];
      var m := movies.table[k];
      RowFields(k, m, toFloat, toText);
      assert rows[n - 1] == [k, m.year, toText(m.rating)];
      PrefixGrow(movies, n);
    }
  }

  /** Reading the saved text line by line gives back exactly the rows written. */
  lemma ReadSavedRows<R>(movies: Movies<R>, toFloat: string -> Option<R>, toText: R -> string)
    requires Storable(movies, toFloat, toText)
    ensures ReadLines(Serialise(movies, toText)) == Rows(movies, toText)
  {
    var rows := Rows(movies, toText);
    forall i | 0 <= i < |rows|
      ensures |rows[i]| > 0 && rows[i][|rows[i]| - 1] == '\n' && '\n' !in rows[i][..|rows[i]| - 1]
    {
      RowLine(movies.keys[i], movies.table[movies.keys[i]], toFloat, toText);
    }
    ReadLinesConcat(rows);
  }

  /** Loading all the rows of a serialised dict gives the dict. */
  lemma LoadAllRows<R>(movies: Movies<R>, toFloat: string -> Option<R>, toText: R -> string)
    requires Storable(movies, toFloat, toText)
    ensures LoadFields(FieldsOf(Rows(movies, toText)), toFloat) == Ok(movies)
  {
    var rows := FieldsOf(Rows(movies, toText));
    LoadRowsPrefix(movies, toFloat, toText, |rows|);
    assert rows[..|rows|] == rows;
    PrefixAll(movies);
  }

  /** Round trip: saving a storable dict and loading the file gives the same dict back, order included. */
  lemma SaveThenLoad<R>(movies: Movies<R>, toFloat: string -> Option<R>, toText: R -> string)
    requires Storable(movies, toFloat, toText)
    ensures Load(Some(Serialise(movies, toText)), toFloat) == Ok(movies)
  {
    ReadSavedRows(movies, toFloat, toText);
    LoadAllRows(movies, toFloat, toText);
  }

  /** Stripping a line read by `readlines` leaves no `\n` in it. */
  lemma StripOneLine(line: string)
    requires line != [] && '\n' !in line[..|line| - 1]
    ensures '\n' !in Strip(line)
  {
    var s := Strip(line);
    StripSlice(line);
    var i, j :| 0 <= i <= j <= |line| && s == line[i..j] && AllSpace(line[..i]) && AllSpace(line[j..]);
    forall p | 0 <= p < |s| ensures s[p] != '\n' {
      assert s[p] == line[i + p];
      if i + p < |line| - 1 {
        assert line[i + p] == line[..|line| - 1][i + p];
      } else {
        assert p == |s| - 1;
      }
    }
  }

  /** The three comma-separated pieces of a trimmed one-line text. */
  lemma ThreePieces(s: string)
    requires Trimmed(s) && '\n' !in s
    requires |Split(s, ',')| == 3
    ensures var parts := Split(s, ',');
      && (forall i :: 0 <= i < 3 ==> Plain(parts[i]))
      && (parts[0] == [] || !IsSpace(parts[0][0]))
      && (parts[2] == [] || !IsSpace(parts[2][|parts[2]| - 1]))
  {
    var parts := Split(s, ',');
    JoinSplit(s, ',');
    assert Join(parts[1..], ',') == parts[1] + [','] + parts[2] by {
      assert parts[1..][1..] == [parts[2]];
    }
    assert s == parts[0] + [','] + (parts[1] + [','] + parts[2]);
    assert parts[0] == [] || parts[0][0] == s[0];
    assert parts[2] == [] || parts[2][|parts[2]| - 1] == s[|s| - 1];
  }

  /** The fields of one line read by `readlines` are plain; the first starts and the last ends on a non-space. */
  lemma FieldsPlain(line: string)
    requires line != [] && '\n' !in line[..|line| - 1]
    requires IsRow(line)
    ensures forall i :: 0 <= i < 3 ==> Plain(Fields(line)[i])
    ensures Fields(line)[0] == [] || !IsSpace(Fields(line)[0][0])
    ensures Fields(line)[2] == [] || !IsSpace(Fields(line)[2][|Fields(line)[2]| - 1])
  {
    StripOneLine(line);
    ThreePieces(Strip(line));
  }

  /** A field list the loader can keep and write back: the fields plain, the title not starting and the rating not ending in whitespace. */
  ghost predicate SafeFields(parts: seq<string>) {
    |parts| == 3 ==>
      && Plain(parts[0]) && Plain(parts[1]) && Plain(parts[2])
      && (parts[0] == [] || !IsSpace(parts[0][0]))
      && (parts[2] == [] || !IsSpace(parts[2][|parts[2]| - 1]))
  }

  /** Whatever the loader accepts can be written back: its entries are storable. */
  lemma {:induction false} LoadedIsStorable<R(!new)>(rows: seq<seq<string>>, toFloat: string -> Option<R>, toText: R -> string)
    requires FloatCodec(toFloat, toText)
    requires forall i :: 0 <= i < |rows| ==> SafeFields(rows[i])
    requires LoadFields(rows, toFloat).Ok?
    ensures Storable(LoadFields(rows, toFloat).value, toFloat, toText)
  {
    if rows != [] {
      LoadedIsStorable(rows[..|rows| - 1], toFloat, toText);
    }
  }

  /** Every line `readlines` produces splits into safe fields. */
  lemma ReadFieldsSafe(text: string)
    ensures forall i :: 0 <= i < |ReadLines(text)| ==> SafeFields(FieldsOf(ReadLines(text))[i])
  {
    var lines := ReadLines(text);
    forall i | 0 <= i < |lines| ensures SafeFields(FieldsOf(lines)[i]) {
      if IsRow(lines[i]) {
        FieldsPlain(lines[i]);
      }
    }
  }

  /** A kept field list naming `title`. */
  predicate RowFor(parts: seq<string>, title: string) {
    |parts| == 3 && parts[0] == title
  }

  /** Where the last kept line for `title` is, if there is one. */
  function LastRowFor(rows: seq<seq<string>>, title: string): (r: Option<nat>)
    ensures r.Some? ==> r.value < |rows| && RowFor(rows[r.value], title)
    ensures r.Some? ==> forall j :: r.value < j < |rows| ==> !RowFor(rows[j], title)
    ensures r.None? ==> forall j :: 0 <= j < |rows| ==> !RowFor(rows[j], title)
  {
    if rows == [] then None
    else if RowFor(rows[|rows| - 1], title) then Some(|rows| - 1)
    else LastRowFor(rows[..|rows| - 1], title)
  }

  /**
   * What a successful load holds for a title: nothing unless some line with
   * exactly three fields names it; otherwise the year text, unconverted, and
   * the rating `float` made of the LAST such line. Other lines are skipped.
   */
  lemma {:induction false} LoadLookup<R>(rows: seq<seq<string>>, toFloat: string -> Option<R>, title: string)
    requires LoadFields(rows, toFloat).Ok?
    ensures var movies := LoadFields(rows, toFloat).value;
      match LastRowFor(rows, title)
      case None => title !in movies.table
      case Some(i) =>
        && title in movies.table
        && movies.table[title].year == rows[i][1]
        && toFloat(rows[i][2]) == Some(movies.table[title].rating)
  {
    if rows != [] {
      var init := rows[..|rows| - 1];
      LoadLookup(init, toFloat, title);
      if !RowFor(rows[|rows| - 1], title) {
        match LastRowFor(init, title)
        case None =>
        case Some(i) => assert rows[i] == init[i];
      }
    }
  }

  /** Loading fails exactly when some kept line has a rating `float` rejects. */
  lemma {:induction false} LoadFails<R>(rows: seq<seq<string>>, toFloat: string -> Option<R>)
    ensures LoadFields(rows, toFloat).Err? <==>
      exists i :: 0 <= i < |rows| && |rows[i]| == 3 && toFloat(rows[i][2]).None?
  {
    if rows != [] {
      var init := rows[..|rows| - 1];
      LoadFails(init, toFloat);
      if exists i :: 0 <= i < |init| && |init[i]| == 3 && toFloat(init[i][2]).None? {
        var i :| 0 <= i < |init| && |init[i]| == 3 && toFloat(init[i][2]).None?;
        assert rows[i] == init[i];
      }
      if exists i :: 0 <= i < |rows| && |rows[i]| == 3 && toFloat(rows[i][2]).None? {
        var i :| 0 <= i < |rows| && |rows[i]| == 3 && toFloat(rows[i][2]).None?;
        if i < |init| { assert init[i] == rows[i]; }
      }
    }
  }

  /** Once a prefix of the lines fails to load, the whole file fails the same way. */
  lemma {:induction false} LoadErrorSticks<R>(rows: seq<seq<string>>, n: nat, toFloat: string -> Option<R>)
    requires n <= |rows|
    requires LoadFields(rows[..n], toFloat).Err?
    ensures LoadFields(rows, toFloat) == LoadFields(rows[..n], toFloat)
    decreases |rows| - n
  {
    if n < |rows| {
      var longer := rows[..n + 1];
      assert longer[..n] == rows[..n];
      LoadErrorSticks(rows, n + 1, toFloat);
    } else {
      assert rows[..n] == rows;
    }
  }

  /** One more line for the loader: skipped, failing the whole load, or stored under its title. */
  lemma LoadStep<R>(rows: seq<seq<string>>, i: nat, movies: Movies<R>, toFloat: string -> Option<R>)
    requires i < |rows| && LoadFields(rows[..i], toFloat) == Ok(movies)
    ensures |rows[i]| != 3 ==> LoadFields(rows[..i + 1], toFloat) == Ok(movies)
    ensures |rows[i]| == 3 && toFloat(rows[i][2]).None? ==> LoadFields(rows, toFloat) == Err(ValueError(rows[i][2]))
    ensures |rows[i]| == 3 && toFloat(rows[i][2]).Some? ==>
      LoadFields(rows[..i + 1], toFloat) == Ok(Put(movies, rows[i][0], Movie(rows[i][1], toFloat(rows[i][2]).value)))
  {
    assert rows[..i + 1][..i] == rows[..i];
    if |rows[i]| == 3 && toFloat(rows[i][2]).None? {
      LoadErrorSticks(rows, i + 1, toFloat);
    }
  }

  /**
   * The store object. The backing file is the only state: `None` when it
   * does not exist, its text otherwise.
   */
  class StorageCsv<R> {
    var file: Option<string>
    /** `float(text)`: the rating a field denotes, or `None` when `float` raises ValueError. */
    const toFloat: string -> Option<R>
    /** `str(rating)`, as the f-string of `_save_movies` writes it. */
    const toText: R -> string

    /** `__init__`: creates an empty file only when there is none; an existing file is left as it is. */
    constructor (existing: Option<string>, toFloat: string -> Option<R>, toText: R -> string)
      ensures existing.None? ==> file == Some("")
      ensures existing.Some? ==> file == existing
      ensures this.toFloat == toFloat && this.toText == toText
    {
      file := if existing.None? then Some("") else existing;
      this.toFloat := toFloat;
      this.toText := toText;
    }

    /** `_load_movies`: one pass over the lines, keeping those with three fields. */
    method LoadMovies() returns (r: Result<Movies<R>, LoadError>)
      ensures r == Load(file, toFloat)
    {
      if file.None? {
        return Err(FileNotFound);
      }
      var lines := ReadLines(file.value);
      ghost var rows := FieldsOf(lines);
      var movies: Movies<R> := Empty();
      var i := 0;
      while i < |lines|
        invariant i <= |lines|
        invariant LoadFields(rows[..i], toFloat) == Ok(movies)
      {
        var parts := Fields(lines[i]);
        assert parts == rows[i];
        LoadStep(rows, i, movies, toFloat);
        if |parts| == 3 {
          var title, year, rating := parts[0], parts[1], parts[2];
          var value := toFloat(rating);
          if value.None? {
            return Err(ValueError(rating));
          }
          movies := Put(movies, title, Movie(year, value.value));
        }
        i := i + 1;
      }
      assert rows[..i] == rows;
      r := Ok(movies);
    }

    /** `_save_movies`: truncates the file, then writes one row per entry in dict order. */
    method SaveMovies(movies: Movies<R>)
      modifies this`file
      ensures file == Some(Serialise(movies, toText))
    {
      file := Some("");
      ghost var rows := Rows(movies, toText);
      var i := 0;
      while i < |movies.keys|
        invariant i <= |movies.keys|
        invariant file == Some(Concat(rows[..i]))
      {
        var title := movies.keys[i];
        var data := movies.table[title];
        var row := title + "," + data.year + "," + toText(data.rating) + "\n";
        file := Some(file.value + row);
        assert row == rows[i];
        assert rows[..i + 1] == rows[..i] + [rows[i]];
        ConcatSnoc(rows[..i], rows[i]);
        i := i + 1;
      }
      assert rows[..i] == rows;
    }

    /** `list_movies`: the file as loaded now, nothing cached. */
    method ListMovies() returns (r: Result<Movies<R>, LoadError>)
      ensures r == Load(file, toFloat)
    {
      r := LoadMovies();
    }

    /**
     * `add_movie`: inserts or overwrites `title` with `float(rating)`; the
     * poster is not stored. A rating `float` rejects raises after the load
     * and before any write.
     */
    method AddMovie(title: string, year: string, rating: string, poster: string) returns (outcome: Outcome)
      modifies this`file
      ensures match Load(old(file), toFloat)
        case Err(e) => outcome == Failed(e) && file == old(file)
        case Ok(movies) =>
          match toFloat(rating)
          case None => outcome == Failed(ValueError(rating)) && file == old(file)
          case Some(r) => outcome == Done && file == Some(Serialise(Put(movies, title, Movie(year, r)), toText))
    {
      var loaded := LoadMovies();
      if loaded.Err? {
        return Failed(loaded.error);
      }
      var value := toFloat(rating);
      if value.None? {
        return Failed(ValueError(rating));
      }
      SaveMovies(Put(loaded.value, title, Movie(year, value.value)));
      outcome := Done;
    }

    /** `delete_movie`: removes `title` and rewrites the file; an absent title writes nothing. */
    method DeleteMovie(title: string) returns (outcome: Outcome)
      modifies this`file
      ensures match Load(old(file), toFloat)
        case Err(e) => outcome == Failed(e) && file == old(file)
        case Ok(movies) =>
          && outcome == Done
          && (title in movies.table ==> file == Some(Serialise(Remove(movies, title), toText)))
          && (title !in movies.table ==> file == old(file))
    {
      var loaded := LoadMovies();
      if loaded.Err? {
        return Failed(loaded.error);
      }
      var movies := loaded.value;
      if title in movies.table {
        SaveMovies(Remove(movies, title));
      }
      outcome := Done;
    }

    /**
     * `update_movie`: replaces the rating of `title` with `float(rating)`,
     * keeping its year; an absent title writes nothing, and a rating `float`
     * rejects raises before the write.
     */
    method UpdateMovie(title: string, rating: string) returns (outcome: Outcome)
      modifies this`file
      ensures match Load(old(file), toFloat)
        case Err(e) => outcome == Failed(e) && file == old(file)
        case Ok(movies) =>
          if title !in movies.table then outcome == Done && file == old(file)
          else match toFloat(rating)
            case None => outcome == Failed(ValueError(rating)) && file == old(file)
            case Some(r) =>
              && outcome == Done
              && file == Some(Serialise(Put(movies, title, Movie(movies.table[title].year, r)), toText))
    {
      var loaded := LoadMovies();
      if loaded.Err? {
        return Failed(loaded.error);
      }
      var movies := loaded.value;
      if title in movies.table {
        var value := toFloat(rating);
        if value.None? {
          return Failed(ValueError(rating));
        }
        SaveMovies(Put(movies, title, Movie(movies.table[title].year, value.value)));
      }
      outcome := Done;
    }
  }

  /** A dict loaded from any file can be saved and loaded back unchanged. */
  lemma LoadedReloads<R(!new)>(text: string, toFloat: string -> Option<R>, toText: R -> string)
    requires FloatCodec(toFloat, toText)
    requires Load(Some(text), toFloat).Ok?
    ensures var movies := Load(Some(text), toFloat).value;
      Load(Some(Serialise(movies, toText)), toFloat) == Ok(movies)
  {
    ReadFieldsSafe(text);
    LoadedIsStorable(FieldsOf(ReadLines(text)), toFloat, toText);
    SaveThenLoad(Load(Some(text), toFloat).value, toFloat, toText);
  }

  /**
   * After `add_movie(title, year, rating, _)` on a file that loads, listing
   * gives the old dict with `title` set to `(year, rating)`, provided the new
   * title and year fit in one field and the title does not start with whitespace.
   */
  lemma AddThenList<R(!new)>(text: string, toFloat: string -> Option<R>, toText: R -> string,
                             title: string, year: string, rating: R)
    requires FloatCodec(toFloat, toText)
    requires Load(Some(text), toFloat).Ok?
    requires Plain(title) && (title == [] || !IsSpace(title[0])) && Plain(year)
    ensures var movies := Load(Some(text), toFloat).value;
      var added := Put(movies, title, Movie(year, rating));
      && Load(Some(Serialise(added, toText)), toFloat) == Ok(added)
      && added.table[title] == Movie(year, rating)
  {
    var movies := Load(Some(text), toFloat).value;
    ReadFieldsSafe(text);
    LoadedIsStorable(FieldsOf(ReadLines(text)), toFloat, toText);
    SaveThenLoad(Put(movies, title, Movie(year, rating)), toFloat, toText);
  }

  /**
   * A title holding a comma never comes out of a load: its row splits into
   * more than three fields and is skipped. So such a title, once added, is
   * missing from every later listing.
   */
  lemma CommaTitleNeverLoaded<R>(text: string, toFloat: string -> Option<R>, title: string)
    requires ',' in title
    requires Load(Some(text), toFloat).Ok?
    ensures title !in Load(Some(text), toFloat).value.table
  {
    var rows := FieldsOf(ReadLines(text));
    LoadLookup(rows, toFloat, title);
    match LastRowFor(rows, title)
    case None =>
    case Some(i) =>
      ReadFieldsSafe(text);
      assert false;
  }

  /** The added movie of a comma title is not in the listing after `add_movie`, whatever the rest of the file holds. */
  lemma CommaTitleAddLost<R>(movies: Movies<R>, toFloat: string -> Option<R>, toText: R -> string,
                             title: string, m: Movie<R>)
    requires ',' in title
    ensures var text := Serialise(Put(movies, title, m), toText);
      Load(Some(text), toFloat).Ok? ==> title !in Load(Some(text), toFloat).value.table
  {
    var text := Serialise(Put(movies, title, m), toText);
    if Load(Some(text), toFloat).Ok? {
      CommaTitleNeverLoaded(text, toFloat, title);
    }
  }

  /** After `delete_movie(title)` the title is gone from the listing, so a second delete writes nothing. */
  lemma DeleteThenList<R(!new)>(text: string, toFloat: string -> Option<R>, toText: R -> string, title: string)
    requires FloatCodec(toFloat, toText)
    requires Load(Some(text), toFloat).Ok?
    ensures var movies := Load(Some(text), toFloat).value;
      var left := Remove(movies, title);
      && Load(Some(Serialise(left, toText)), toFloat) == Ok(left)
      && title !in left.table
      && left.table == movies.table - {title}
  {
    var movies := Load(Some(text), toFloat).value;
    ReadFieldsSafe(text);
    LoadedIsStorable(FieldsOf(ReadLines(text)), toFloat, toText);
    SaveThenLoad(Remove(movies, title), toFloat, toText);
  }

  /** After `update_movie(title, rating)` on a present title, listing shows the new rating and the old year. */
  lemma UpdateThenList<R(!new)>(text: string, toFloat: string -> Option<R>, toText: R -> string, title: string, rating: R)
    requires FloatCodec(toFloat, toText)
    requires Load(Some(text), toFloat).Ok?
    requires title in Load(Some(text), toFloat).value.table
    ensures var movies := Load(Some(text), toFloat).value;
      var updated := Put(movies, title, Movie(movies.table[title].year, rating));
      && Load(Some(Serialise(updated, toText)), toFloat) == Ok(updated)
      && updated.keys == movies.keys
      && updated.table[title] == Movie(movies.table[title].year, rating)
  {
    var movies := Load(Some(text), toFloat).value;
    ReadFieldsSafe(text);
    LoadedIsStorable(FieldsOf(ReadLines(text)), toFloat, toText);
    SaveThenLoad(Put(movies, title, Movie(movies.table[title].year, rating)), toFloat, toText);
  }
}
