# Movie catalog: storage backends and shell rules in Dafny

This project models the core of a small command-line movie catalog: a
mapping from movie title to record that lives in a backing file, which
every call reads whole, changes in memory and rewrites whole. It covers:

- the CSV store `StorageCsv` (`storage_csv.py`): a text file with one
  `title,year,rating` line per movie, a loader that keeps only lines that
  split into exactly three fields, and a serialiser;
- the JSON store `StorageJson` the application is wired to
  (`storage/storage_json.py`), whose loader reads a missing or malformed
  file as `{}`;
- the older JSON store at the top level (`storage_json.py`), whose loader
  raises on those files;
- the first, self-contained version of the application (`movies.py`),
  whose catalog is a module-level dict changed in place;
- the decisions of the storage-backed shell `MovieApp` (`movie_app.py`):
  which storage call each action issues, given the listing and the lines
  the user types, and the lists it builds from the listing.

Layout, one module per file:

| file | module | models |
|---|---|---|
| `wrappers.dfy` | `Wrappers` | `Option`, `Result` |
| `dicts.dfy` | `Dicts` | a Python dict: keys in insertion order plus a map; assignment keeps an existing key's place, `del` keeps the order of the rest |
| `text.dfy` | `Text` | `str.strip`, `split(",")`, `readlines`, ASCII `lower`, substring `in` |
| `selection.dfy` | `Selection` | first match, filtering, maximum and minimum by a key, stable descending sort |
| `storage_csv.dfy` | `CsvStorage` | `storage_csv.py` |
| `json_file.dfy` | `JsonFiles` | the JSON backing file as `json.load` sees it |
| `storage_json.dfy` | `JsonStorage` | `storage/storage_json.py` |
| `storage_json_root.dfy` | `RootJsonStorage` | `storage_json.py` |
| `movies.dfy` | `Movies` | `movies.py` |
| `movie_app.dfy` | `MovieApp` | `movie_app.py` |

Each store is a class whose only state is its backing file: `Option<string>`
for the CSV store (`None` means no file) and `Missing | Malformed |
Document(dict)` for the JSON stores. Each mutating method loads, changes the
loaded dict and saves, as the source does. Its postcondition gives the new
file in terms of the old one, including the cases that write nothing.

Library code the model cannot see is passed in as function parameters:
- `float(text)` is `toFloat: string -> Option<R>`, with `None` where Python
  raises ValueError;
- `str(rating)` is `toText`;
- `int(text)` is `toInt`.

The CSV round trip is proved for any such pair that reads back what it
writes (`FloatCodec`). JSON field values are an opaque type `V`.

In `movies.py` the module-level dict becomes the field `movies` of a
`Catalog` object. The typed inputs are method arguments.

The shell in `movie_app.py` is modelled as functions and methods over the
listing that `list_movies` returned and the sequence of lines the user
types. Each action returns the storage call it would make
(`StorageCall`), `Declined` when it prints a message and makes none, or
`InputEnded` when the lines run out (the EOFError of `input()`). Each
`while True` prompt loop is the method `NextAccepted`.

Three behaviours of the code worth noting:
- `list_movies` of the CSV store and of the top-level JSON store raises
  FileNotFoundError when the file has gone, rather than giving an empty
  collection.
- Both JSON stores write `{year, rating}` and drop the poster.
- The CSV store keeps the year as the raw text of its field.

## Model

| member | source | states |
|---|---|---|
| CsvStorage.StorageCsv.constructor | storage_csv.py:8-11 | an empty file is created only when none exists; an existing file is kept as it is |
| CsvStorage.StorageCsv.LoadMovies | storage_csv.py:13-26 | the loop over `readlines()` gives exactly the left fold `Load`: the file's absence is FileNotFound, a three-field line whose rating `float` rejects is ValueError, and other lines are skipped |
| CsvStorage.LoadLookup | storage_csv.py:18-25 | after a successful load, a title is present iff some line with exactly three fields names it; its year is that field's raw text and its rating is `float` of the rating field, both taken from the LAST such line |
| CsvStorage.LoadFails | storage_csv.py:19-24 | loading fails exactly when some three-field line has a rating `float` rejects |
| CsvStorage.LoadErrorSticks | storage_csv.py:18-24 | the first failing line decides the result of the whole load; later lines do not matter |
| CsvStorage.StorageCsv.SaveMovies | storage_csv.py:28-32 | the loop leaves the file holding the concatenation of one `title,year,rating\n` row per entry, in dict order |
| CsvStorage.SaveThenLoad | storage_csv.py:13-32 | round trip: saving a dict whose titles and years hold no comma or newline, whose titles do not start with whitespace and whose ratings read back, then loading, gives the same dict with the same order |
| CsvStorage.LoadedReloads | storage_csv.py:13-32 | whatever the loader accepted can be saved and loaded back unchanged |
| CsvStorage.RowFields | storage_csv.py:19-32 | a row written by `_save_movies`, stripped and split on commas, gives back its title, year and rating text |
| CsvStorage.ReadSavedRows | storage_csv.py:17-32 | `readlines` of the saved text gives exactly the rows written |
| CsvStorage.FieldsPlain | storage_csv.py:17-21 | a kept line's three fields hold no comma or newline; the title does not start and the rating does not end with whitespace |
| CsvStorage.LoadedIsStorable | storage_csv.py:18-25 | every entry a load produces can be written back as a row that reads as itself |
| CsvStorage.StorageCsv.ListMovies | storage_csv.py:34-36 | the result is the file loaded now, nothing cached |
| CsvStorage.StorageCsv.AddMovie | storage_csv.py:38-45 | a failed load writes nothing; a rating argument `float` rejects is a ValueError after the load and writes nothing; otherwise the file is the old dict with `title` set to `(year, float(rating))`, the poster not stored |
| CsvStorage.StorageCsv.DeleteMovie | storage_csv.py:47-52 | a failed load or an absent title writes nothing; otherwise the file is the old dict without `title` |
| CsvStorage.StorageCsv.UpdateMovie | storage_csv.py:54-59 | a failed load or an absent title writes nothing; for a present title, a rating argument `float` rejects is a ValueError and writes nothing; otherwise only `title`'s rating changes, to `float(rating)`, and its year stays |
| CsvStorage.AddThenList | storage_csv.py:38-45 | after an add of a title and year that fit in one field, listing gives the old dict with `title` set to `(year, rating)` |
| CsvStorage.CommaTitleNeverLoaded | storage_csv.py:19-22 | a title holding a comma is never a key of a successful load, since its line splits into more than three fields |
| CsvStorage.CommaTitleAddLost | storage_csv.py:38-45 | after adding a title that holds a comma, the next listing does not contain it |
| CsvStorage.DeleteThenList | storage_csv.py:47-52 | after a delete, listing gives the old entries without `title`, so a second delete writes nothing |
| CsvStorage.UpdateThenList | storage_csv.py:54-59 | after an update of a present title, listing gives the same titles in the same order, with the new rating and the old year |
| JsonFiles.NewDetails | storage/storage_json.py:34 | the object stored by `add_movie` has exactly the fields year and rating |
| JsonFiles.WithRating | storage/storage_json.py:48 | assigning the rating keeps every other field, year and poster included, and the field order |
| JsonStorage.Load | storage/storage_json.py:14-20 | the stored object, or `{}` when the file is missing or not JSON; neither of those two cases is an error |
| JsonStorage.StorageJson.constructor | storage/storage_json.py:10-12 | `{}` is written only when there is no file |
| JsonStorage.StorageJson.SaveMovies | storage/storage_json.py:22-25 | the file becomes the document of the given dict |
| JsonStorage.StorageJson.ListMovies | storage/storage_json.py:27-29 | the result is the file loaded now, nothing cached |
| JsonStorage.StorageJson.AddMovie | storage/storage_json.py:31-35 | the file is the loaded dict with `title` set to `{year, rating}` |
| JsonStorage.StorageJson.DeleteMovie | storage/storage_json.py:37-42 | a present title is removed and nothing else changes; an absent title writes nothing |
| JsonStorage.StorageJson.UpdateMovie | storage/storage_json.py:44-49 | a present title gets the new rating and keeps its other fields; an absent title writes nothing |
| JsonStorage.AddThenList | storage/storage_json.py:27-35 | after an add, listing gives `title` with exactly `{year, rating}` and every other title as before; on a missing or malformed file only the new movie is left |
| JsonStorage.UpdateKeepsYear | storage/storage_json.py:44-49 | after an update, listing gives the new rating and every other field of that movie unchanged |
| JsonStorage.DeleteIdempotent | storage/storage_json.py:37-42 | after one delete the title is absent, so a second delete is a no-op |
| RootJsonStorage.Load | storage_json.py:14-17 | a missing file is FileNotFoundError, text that is not JSON is JSONDecodeError, and otherwise the stored object |
| RootJsonStorage.StorageJson.constructor | storage_json.py:10-12 | `{}` is written only when there is no file |
| RootJsonStorage.StorageJson.SaveMovies | storage_json.py:19-22 | the file becomes the document of the given dict |
| RootJsonStorage.StorageJson.ListMovies | storage_json.py:24-26 | the file loaded now, or the exception the load raised |
| RootJsonStorage.StorageJson.AddMovie | storage_json.py:28-32 | a failed load ends the call before any write; otherwise `title` is set to `{year, rating}` |
| RootJsonStorage.StorageJson.DeleteMovie | storage_json.py:34-39 | a failed load or an absent title writes nothing; otherwise only `title` is removed |
| RootJsonStorage.StorageJson.UpdateMovie | storage_json.py:41-46 | a failed load or an absent title writes nothing; otherwise only `title`'s rating changes |
| RootJsonStorage.ListRaisesOnMalformed | storage_json.py:24-26 | a file that is not JSON makes `list_movies` raise, where the guarded loader gives `{}` |
| RootJsonStorage.GuardedLoadAgrees | storage_json.py:14-17 | where this loader succeeds it agrees with the guarded one; where it raises, the guarded one gives `{}` |
| Movies.Catalog.constructor | movies.py:6-17 | the catalog starts as the ten movies of the dict literal, in order |
| Movies.Catalog.FindDbMovie | movies.py:95-104 | `(True, k)` for the first key `k` equal to the query up to case, `(False, "")` when none is |
| Selection.FirstFromFinds | movies.py:99-104 | the position found matches and none before it does; no position means that none matches |
| Movies.DeleteOnlyFound | movies.py:37-42 | the removed key equals the query up to case and is the only key removed; when nothing is found, no key matches the query |
| Movies.Catalog.AddMovie | movies.py:30-34 | the rating of `name` is set, inserting or overwriting; a rating `float` rejects raises ValueError and changes nothing |
| Movies.Catalog.DeleteMovie | movies.py:37-42 | the key `find_db_movie` finds is removed; nothing changes when none is found |
| Movies.Catalog.UpdateMovie | movies.py:45-51 | the found key's rating is replaced; no key found, or a rating `float` rejects, changes nothing |
| Movies.Catalog.SearchMovie | movies.py:72-81 | the titles containing the query up to case, in dict order; not-found exactly when there are none |
| Movies.Catalog.GetBestMovie | movies.py:130-135 | exactly the entries whose rating reaches the maximum rating, in dict order |
| Movies.Catalog.GetWorstMovie | movies.py:142-147 | exactly the entries whose rating reaches the minimum rating, in dict order |
| Selection.TopSelected | movies.py:133-135 | the selected titles are those rated at the maximum, and they are non-empty iff the catalog is |
| Selection.BottomSelected | movies.py:145-147 | the selected titles are those rated at the minimum, and they are non-empty iff the catalog is |
| Movies.SortedByRating | movies.py:84-86 | the same entries, titles a permutation of the old ones, in non-increasing rating order |
| Movies.SortedTiesInOrder | movies.py:86 | titles with equal ratings keep their catalog order, as Python's stable sort with `reverse=True` does |
| MovieApp.AddMovie | movie_app.py:19-31 | the name loop skips lines blank once stripped; a listed name is declined; otherwise the result is that of the rating and year loops |
| MovieApp.ReadDetails | movie_app.py:33-51 | the rating is the first later line `float` reads as a number from 1 to 10, the year the first line after it that `int` reads, and the call is an add with poster "N/A" |
| MovieApp.NextAccepted | movie_app.py:23-48 | a prompt loop stops at the first line it accepts, or at the end of the input |
| MovieApp.AddGuards | movie_app.py:19-51 | an add is issued only for a non-blank, stripped, unlisted name, with a rating from 1 to 10 and poster "N/A" |
| MovieApp.DeleteMovie | movie_app.py:54-63 | a delete is issued exactly when the stripped name is listed, and for that name |
| MovieApp.UpdateMovie | movie_app.py:65-85 | an unlisted name is declined; otherwise the new rating is the first later line `float` reads as a number from 1 to 10 |
| MovieApp.UpdateGuards | movie_app.py:65-85 | an update is issued only for a listed name with a rating from 1 to 10 |
| MovieApp.MovieStats | movie_app.py:87-103 | nothing for an empty listing; otherwise best and worst are exactly the titles rated at the maximum and at the minimum, each once and in listing order, and neither is empty |
| MovieApp.SearchMovie | movie_app.py:123-133 | the titles containing the query up to case, in listing order; not-found exactly when there are none |
| MovieApp.SearchFinds | movie_app.py:129 | a title is reported iff the lower-cased query occurs at some position in the lower-cased title |
| MovieApp.SortedByRating | movie_app.py:135-138 | the listing's items, a permutation, in non-increasing rating order |
| MovieApp.SortedTiesInOrder | movie_app.py:138 | items with equal ratings keep their listing order |
| Text.Strip | storage_csv.py:19 | `strip()` leaves no whitespace at either end |
| Text.StripSlice | storage_csv.py:19 | `strip()` removes only whitespace, and only from the ends |
| Text.SplitJoin | storage_csv.py:19-32 | splitting on commas undoes joining fields that hold no comma |
| Text.ReadLinesConcat | storage_csv.py:17-32 | `readlines` of lines each ending in their only newline gives those lines back |
| Text.ContainsAt | movies.py:77 | substring `in` holds iff the query occurs at some position |
| Dicts.Put | movies.py:34 | assignment sets the key's value; a new key goes last, an existing key keeps its place |
| Dicts.Remove | movies.py:42 | `del` removes exactly that key and keeps the order of the others |
| Selection.SortStable | movie_app.py:138 | the descending insertion sort keeps items with equal keys in their original order |

## Left out

- Printing, colours, the menus and the run loops (`movies.py` main and `user_input`, `MovieApp.run`), `list_movies` of `movies.py` and of `MovieApp` (they only print), and `get_stats` in `movies.py`, which prints what the selections return.
- Average and median ratings (`get_average_rating`, `get_median_rating`, and their lines in `movie_stats`): float division and `round(…, 1)` are not modelled.
- `get_random_movie` and `random_movie`: `random.choice` is left out.
- `generate_website`: it only prints a placeholder message.
- `istorage.py`: the abstract base class names `get_movies`, while every store implements `list_movies`. The shell does not depend on a store type in the model; it returns the storage call instead.
- `main.py`: wiring only (it also passes an `api_key` that `MovieApp.__init__` does not take).
- The `json` library: encoding, `indent=4`, escaping, and top-level values that are not objects. A JSON file is an abstract document, missing or malformed.
- JsonStorage.Load: a file that is not valid UTF-8 raises UnicodeDecodeError, which the guard at storage/storage_json.py:19 does not catch; the model has no such file state, so it promises `{}` or the document where the code would raise.
- Movie values that are not JSON objects (such as `{"title": 9.5}`, the layout of `movies.py`) are not modelled: every title maps to an object. On such a file `update_movie` of both JSON stores raises TypeError after the load and before any write (storage/storage_json.py:48, storage_json.py:45), and `movie_stats` raises KeyError when a movie has no "rating" (movie_app.py:90).
- `float()`, `str()` and `int()` enter as parameters. Ratings in the shells are `real`, so NaN and infinities are not modelled.
- The CSV store's `add_movie` and `update_movie` take the rating argument as text and convert it with `toFloat`. The shell passes a float there (movie_app.py:35, movie_app.py:76), and `float` of a float is that float; in the model that case is the text `str(r)`, which `toFloat` reads back as `r` for a `FloatCodec` pair.
- `lower()` is ASCII case folding only; letters outside ASCII are not folded. `strip()` does use Python's full `isspace()` set, Unicode whitespace included (`Text.IsSpace`).
- `readlines` splits on `\n` only; the universal-newline translation of `\r` and `\r\n` is not modelled.
- Crashes mid-write, races between processes and write failures are not modelled.
- In the shell, the year typed is an `int`. The CSV store writes it as text and keeps that text, so what the shell passes and what the CSV store keeps are two different types here.
- JsonStorage.AddThenList: states the listing after an add in terms of the file the add writes, not through the method itself.
- JsonStorage.UpdateKeepsYear: states the listing after an update in terms of the file the update writes, not through the method itself.
- JsonStorage.DeleteIdempotent: states the second delete through the title's absence, not by running the method twice.

## Findings

| source | as written | input that shows it | evidently intended | confidence | as-written member | corrected member |
|---|---|---|---|---|---|---|
| storage_json.py:14-17, storage_json.py:24-26 | `_load_movies` has no error handling, although the comment beside `list_movies` says it includes the try/except; a file that is not JSON makes `list_movies` and every mutation raise | an existing, empty backing file | the guarded load of storage/storage_json.py:14-20, reading a missing or malformed file as `{}` | medium, not executed | RootJsonStorage.ListRaisesOnMalformed | JsonStorage.Load |
