/**
 * The JSON backing file of both JSON stores, as `json.load` sees it: not
 * there, not valid JSON, or a top-level object mapping each title to the
 * movie's own object (`{"year": ..., "rating": ...}`, possibly with more
 * fields such as "poster"). Field values are opaque JSON values `V`.
 */
module JsonFiles {
  import opened Dicts

  /** One movie's JSON object: field name to value, in file order. */
  type Details<V> = Dict<string, V>

  /** The top-level object: title to details. */
  type Movies<V> = Dict<string, Details<V>>

  datatype JsonFile<V> = Missing | Malformed | Document(movies: Movies<V>)

  /** `{"year": year, "rating": rating}`: the object `add_movie` stores; there is no poster field. */
  function NewDetails<V>(year: V, rating: V): (d: Details<V>)
    ensures d.keys == ["year", "rating"]
    ensures d.table == map["year" := year, "rating" := rating]
  {
    Put(Put(Empty(), "year", year), "rating", rating)
  }

  /** `details["rating"] = rating`: every other field, the year and any poster included, stays. */
  function WithRating<V>(details: Details<V>, rating: V): (d: Details<V>)
    ensures d.table == details.table["rating" := rating]
    ensures "rating" in details.table ==> d.keys == details.keys
  {
    Put(details, "rating", rating)
  }
}
