/**
 * The list operations both shells build their reports from: a filter that
 * keeps order (`[x for x in s if p(x)]`), the largest and smallest rating
 * (`max`, `min`), the case-insensitive title match of the searches, and
 * `sorted(..., key=..., reverse=True)`, which Python guarantees to be stable.
 */
module Selection {
  import opened Wrappers
  import opened Dicts
  import opened Text

  /** The first position at or after `from` whose element satisfies `p`: what a loop with an early `break` or `return` finds. */
  function FirstFrom<T>(s: seq<T>, from: nat, p: T -> bool): (r: Option<nat>)
    ensures r.Some? ==> from <= r.value < |s| && p(s[r.value])
    decreases |s| - from
  {
    if from >= |s| then None
    else if p(s[from]) then Some(from)
    else FirstFrom(s, from + 1, p)
  }

  /** `FirstFrom` finds a position that passes with none passing before it, or reports that none passes. */
  lemma {:induction false} FirstFromFinds<T>(s: seq<T>, from: nat, p: T -> bool)
    ensures var r := FirstFrom(s, from, p);
      && (r.Some? ==> forall j :: from <= j < r.value ==> !p(s[j]))
      && (r.None? ==> forall j :: from <= j < |s| ==> !p(s[j]))
    decreases |s| - from
  {
    if from < |s| && !p(s[from]) {
      FirstFromFinds(s, from + 1, p);
    }
  }

  /** `[x for x in s if p(x)]` */
  function KeepIf<T(==,!new)>(s: seq<T>, p: T -> bool): (r: seq<T>)
    ensures |r| <= |s|
    ensures forall x :: x in r <==> x in s && p(x)
    ensures Distinct(s) ==> Distinct(r)
  {
    if s == [] then []
    else
      var init, last := s[..|s| - 1], s[|s| - 1];
      var rest := KeepIf(init, p);
      assert s == init + [last];
      assert Distinct(s) ==> Distinct(init) && last !in init by {
        if Distinct(s) {
          forall i | 0 <= i < |init| ensures init[i] != last { assert init[i] == s[i]; }
        }
      }
      rest + (if p(last) then [last] else [])
  }

  /** `{k: v for k, v in d.items() if p(k)}`: the entries whose key passes, in the dict's order. */
  function Select<K(==,!new), V>(d: Dict<K, V>, p: K -> bool): (r: Dict<K, V>)
    ensures r.keys == KeepIf(d.keys, p)
    ensures forall k :: k in r.table <==> k in d.table && p(k)
    ensures forall k :: k in r.table ==> r.table[k] == d.table[k]
  {
    var ks := KeepIf(d.keys, p);
    Entries(ks, map k | k in ks :: d.table[k])
  }

  /** One step of a loop that builds `Select(d, p)` entry by entry. */
  lemma SelectGrow<K(!new), V>(d: Dict<K, V>, i: nat, acc: Dict<K, V>, p: K -> bool)
    requires i < |d.keys|
    requires acc.keys == KeepIf(d.keys[..i], p)
    requires acc.table == map k | k in acc.keys :: d.table[k]
    ensures d.keys[i] !in acc.table
    ensures p(d.keys[i]) ==> Put(acc, d.keys[i], d.table[d.keys[i]]).keys == KeepIf(d.keys[..i + 1], p)
    ensures p(d.keys[i]) ==> Put(acc, d.keys[i], d.table[d.keys[i]]).table
                             == map k | k in KeepIf(d.keys[..i + 1], p) :: d.table[k]
    ensures !p(d.keys[i]) ==> acc.keys == KeepIf(d.keys[..i + 1], p)
  {
    var k := d.keys[i];
    KeepIfNext(d.keys, i, p);
    NotSeen(d.keys, i);
    if p(k) {
      var next := Put(acc, k, d.table[k]);
      assert next.table == map x | x in next.keys :: d.table[x];
    }
  }

  lemma NotSeen<K>(keys: seq<K>, i: nat)
    requires i < |keys| && Distinct(keys)
    ensures keys[i] !in keys[..i]
  {
    forall j | 0 <= j < i ensures keys[..i][j] != keys[i] { assert keys[..i][j] == keys[j]; }
  }

  /** A loop that has visited every entry has built `Select(d, p)`. */
  lemma SelectDone<K(!new), V>(d: Dict<K, V>, acc: Dict<K, V>, p: K -> bool)
    requires acc.keys == KeepIf(d.keys[..|d.keys|], p)
    requires acc.table == map k | k in acc.keys :: d.table[k]
    ensures acc == Select(d, p)
  {
    assert d.keys[..|d.keys|] == d.keys;
  }

  /** A filtering loop that has seen `s[..i]` looks at `s[i]` next. */
  lemma KeepIfNext<T(!new)>(s: seq<T>, i: nat, p: T -> bool)
    requires i < |s|
    ensures KeepIf(s[..i + 1], p) == KeepIf(s[..i], p) + (if p(s[i]) then [s[i]] else [])
  {
    assert s[..i + 1] == s[..i] + [s[i]];
    KeepIfSnoc(s[..i], s[i], p);
  }

  /** A filtering loop that has seen all of `s` has filtered `s`. */
  lemma KeepIfAll<T(!new)>(s: seq<T>, p: T -> bool)
    ensures KeepIf(s[..|s|], p) == KeepIf(s, p)
  {
    assert s[..|s|] == s;
  }

  /** Filtering `s + [x]` looks at `x` last. */
  lemma KeepIfSnoc<T(!new)>(s: seq<T>, x: T, p: T -> bool)
    ensures KeepIf(s + [x], p) == KeepIf(s, p) + (if p(x) then [x] else [])
  {
    assert (s + [x])[..|s|] == s;
  }

  lemma Associative<T>(a: seq<T>, b: seq<T>, c: seq<T>)
    ensures (a + b) + c == a + (b + c)
  {
  }

  /** Filtering `[x] + s` looks at `x` first. */
  lemma {:induction false} KeepIfCons<T(!new)>(x: T, s: seq<T>, p: T -> bool)
    ensures KeepIf([x] + s, p) == (if p(x) then [x] else []) + KeepIf(s, p)
    decreases |s|
  {
    if s != [] {
      var init, last := s[..|s| - 1], s[|s| - 1];
      assert s == init + [last];
      assert [x] + s == ([x] + init) + [last];
      var front, back := if p(x) then [x] else [], if p(last) then [last] else [];
      KeepIfSnoc([x] + init, last, p);
      KeepIfSnoc(init, last, p);
      KeepIfCons(x, init, p);
      assert KeepIf([x] + s, p) == (front + KeepIf(init, p)) + back;
      assert KeepIf(s, p) == KeepIf(init, p) + back;
      Associative(front, KeepIf(init, p), back);
    } else {
      assert [x] + s == [] + [x];
      KeepIfSnoc([], x, p);
    }
  }

  /** `max(key(x) for x in s)`; Python raises on an empty sequence, which no caller passes. */
  function MaxKey<T>(s: seq<T>, key: T -> real): (m: real)
    requires |s| > 0
    ensures exists i :: 0 <= i < |s| && key(s[i]) == m
    ensures forall i :: 0 <= i < |s| ==> key(s[i]) <= m
  {
    if |s| == 1 then key(s[0])
    else
      var rest := MaxKey(s[1..], key);
      assert forall i :: 1 <= i < |s| ==> key(s[i]) == key(s[1..][i - 1]);
      if key(s[0]) >= rest then key(s[0]) else
        var j :| 0 <= j < |s[1..]| && key(s[1..][j]) == rest;
        assert key(s[j + 1]) == rest;
        rest
  }

  /** `min(key(x) for x in s)` */
  function MinKey<T>(s: seq<T>, key: T -> real): (m: real)
    requires |s| > 0
    ensures exists i :: 0 <= i < |s| && key(s[i]) == m
    ensures forall i :: 0 <= i < |s| ==> m <= key(s[i])
  {
    if |s| == 1 then key(s[0])
    else
      var rest := MinKey(s[1..], key);
      assert forall i :: 1 <= i < |s| ==> key(s[i]) == key(s[1..][i - 1]);
      if key(s[0]) <= rest then key(s[0]) else
        var j :| 0 <= j < |s[1..]| && key(s[1..][j]) == rest;
        assert key(s[j + 1]) == rest;
        rest
  }

  /** The key of an item `(k, v)` of a dict, taken from its value. */
  function ValueKey<K, V>(key: V -> real): ((K, V)) -> real {
    (item: (K, V)) => key(item.1)
  }

  /** No entry has a value with a larger key. */
  function Top<K(==,!new), V>(d: Dict<K, V>, key: V -> real): K -> bool {
    k => k in d.table && forall other :: other in d.table ==> key(d.table[other]) <= key(d.table[k])
  }

  /** No entry has a value with a smaller key. */
  function Bottom<K(==,!new), V>(d: Dict<K, V>, key: V -> real): K -> bool {
    k => k in d.table && forall other :: other in d.table ==> key(d.table[k]) <= key(d.table[other])
  }

  /** Comparing against `max` over the values, with `>=` or with `==`, picks exactly the top entries. */
  lemma TopByMax<K(!new), V>(d: Dict<K, V>, key: V -> real, k: K)
    requires k in d.table
    ensures |Items(d)| > 0
    ensures key(d.table[k]) >= MaxKey(Items(d), ValueKey(key)) <==> Top(d, key)(k)
    ensures key(d.table[k]) == MaxKey(Items(d), ValueKey(key)) <==> Top(d, key)(k)
  {
    var items := Items(d);
    assert items[0] == (d.keys[0], d.table[d.keys[0]]);
    var top := MaxKey(items, ValueKey(key));
    var i :| 0 <= i < |items| && ValueKey(key)(items[i]) == top;
    assert d.keys[i] in d.table;
    if key(d.table[k]) >= top {
      forall other | other in d.table ensures key(d.table[other]) <= key(d.table[k]) {
        var j :| 0 <= j < |d.keys| && d.keys[j] == other;
        assert ValueKey(key)(items[j]) == key(d.table[other]);
      }
    }
    var j :| 0 <= j < |d.keys| && d.keys[j] == k;
    assert ValueKey(key)(items[j]) == key(d.table[k]);
  }

  /** Comparing against `min` over the values, with `<=` or with `==`, picks exactly the bottom entries. */
  lemma BottomByMin<K(!new), V>(d: Dict<K, V>, key: V -> real, k: K)
    requires k in d.table
    ensures |Items(d)| > 0
    ensures key(d.table[k]) <= MinKey(Items(d), ValueKey(key)) <==> Bottom(d, key)(k)
    ensures key(d.table[k]) == MinKey(Items(d), ValueKey(key)) <==> Bottom(d, key)(k)
  {
    var items := Items(d);
    assert items[0] == (d.keys[0], d.table[d.keys[0]]);
    var bottom := MinKey(items, ValueKey(key));
    var i :| 0 <= i < |items| && ValueKey(key)(items[i]) == bottom;
    assert d.keys[i] in d.table;
    if key(d.table[k]) <= bottom {
      forall other | other in d.table ensures key(d.table[k]) <= key(d.table[other]) {
        var j :| 0 <= j < |d.keys| && d.keys[j] == other;
        assert ValueKey(key)(items[j]) == key(d.table[other]);
      }
    }
    var j :| 0 <= j < |d.keys| && d.keys[j] == k;
    assert ValueKey(key)(items[j]) == key(d.table[k]);
  }

  /** A non-empty dict has a top entry and a bottom entry. */
  lemma ExtremesExist<K(!new), V>(d: Dict<K, V>, key: V -> real)
    requires |d.keys| > 0
    ensures exists k :: k in d.table && Top(d, key)(k)
    ensures exists k :: k in d.table && Bottom(d, key)(k)
  {
    var items := Items(d);
    var i :| 0 <= i < |items| && ValueKey(key)(items[i]) == MaxKey(items, ValueKey(key));
    TopByMax(d, key, d.keys[i]);
    var j :| 0 <= j < |items| && ValueKey(key)(items[j]) == MinKey(items, ValueKey(key));
    BottomByMin(d, key, d.keys[j]);
  }

  /** Selecting the top entries keeps exactly those rated at the maximum; there are some whenever the dict is non-empty. */
  lemma TopSelected<K(!new), V>(d: Dict<K, V>, key: V -> real)
    ensures forall k :: k in Select(d, Top(d, key)).table <==>
      k in d.table && forall other :: other in d.table ==> key(d.table[other]) <= key(d.table[k])
    ensures |d.keys| > 0 <==> |Select(d, Top(d, key)).keys| > 0
  {
    if |d.keys| > 0 {
      ExtremesExist(d, key);
      var k :| k in d.table && Top(d, key)(k);
      assert k in Select(d, Top(d, key)).table;
    }
  }

  /** Selecting the bottom entries keeps exactly those rated at the minimum; there are some whenever the dict is non-empty. */
  lemma BottomSelected<K(!new), V>(d: Dict<K, V>, key: V -> real)
    ensures forall k :: k in Select(d, Bottom(d, key)).table <==>
      k in d.table && forall other :: other in d.table ==> key(d.table[k]) <= key(d.table[other])
    ensures |d.keys| > 0 <==> |Select(d, Bottom(d, key)).keys| > 0
  {
    if |d.keys| > 0 {
      ExtremesExist(d, key);
      var k :| k in d.table && Bottom(d, key)(k);
      assert k in Select(d, Bottom(d, key)).table;
    }
  }

  /** The entries whose value has key `v`: the condition of `[k for k, v in d.items() if key(v) == m]`. */
  function AtValue<K(==,!new), V>(d: Dict<K, V>, key: V -> real, v: real): K -> bool {
    k => k in d.table && key(d.table[k]) == v
  }

  /** Filtering by two conditions that agree on every element gives the same list. */
  lemma {:induction false} KeepIfAgree<T(!new)>(s: seq<T>, p: T -> bool, q: T -> bool)
    requires forall x :: x in s ==> p(x) == q(x)
    ensures KeepIf(s, p) == KeepIf(s, q)
  {
    if s != [] {
      KeepIfAgree(s[..|s| - 1], p, q);
    }
  }

  /** The entries whose key equals the maximum are the top entries, and there are some. */
  lemma KeptAtMax<K(!new), V>(d: Dict<K, V>, key: V -> real)
    requires |d.keys| > 0
    ensures forall k :: k in KeepIf(d.keys, AtValue(d, key, MaxKey(Items(d), ValueKey(key)))) <==> Top(d, key)(k)
    ensures KeepIf(d.keys, AtValue(d, key, MaxKey(Items(d), ValueKey(key)))) == KeepIf(d.keys, Top(d, key))
    ensures KeepIf(d.keys, AtValue(d, key, MaxKey(Items(d), ValueKey(key)))) != []
  {
    var p := AtValue(d, key, MaxKey(Items(d), ValueKey(key)));
    forall k | k in d.table ensures p(k) <==> Top(d, key)(k) {
      TopByMax(d, key, k);
    }
    KeepIfAgree(d.keys, p, Top(d, key));
    ExtremesExist(d, key);
    var t :| t in d.table && Top(d, key)(t);
    assert t in KeepIf(d.keys, p);
  }

  /** The entries whose key equals the minimum are the bottom entries, and there are some. */
  lemma KeptAtMin<K(!new), V>(d: Dict<K, V>, key: V -> real)
    requires |d.keys| > 0
    ensures forall k :: k in KeepIf(d.keys, AtValue(d, key, MinKey(Items(d), ValueKey(key)))) <==> Bottom(d, key)(k)
    ensures KeepIf(d.keys, AtValue(d, key, MinKey(Items(d), ValueKey(key)))) == KeepIf(d.keys, Bottom(d, key))
    ensures KeepIf(d.keys, AtValue(d, key, MinKey(Items(d), ValueKey(key)))) != []
  {
    var p := AtValue(d, key, MinKey(Items(d), ValueKey(key)));
    forall k | k in d.table ensures p(k) <==> Bottom(d, key)(k) {
      BottomByMin(d, key, k);
    }
    KeepIfAgree(d.keys, p, Bottom(d, key));
    ExtremesExist(d, key);
    var b :| b in d.table && Bottom(d, key)(b);
    assert b in KeepIf(d.keys, p);
  }

  /** The search condition `query.lower() in title.lower()`. */
  function Matches(query: string): string -> bool {
    title => Contains(Lower(title), Lower(query))
  }

  /** The elements whose key is exactly `v`. */
  function HasKey<T>(key: T -> real, v: real): T -> bool {
    x => key(x) == v
  }

  ghost predicate NonIncreasing<T>(s: seq<T>, key: T -> real) {
    forall i, j :: 0 <= i < j < |s| ==> key(s[j]) <= key(s[i])
  }

  /** Puts `x` before the first element whose key does not exceed its own. */
  function Insert<T(==,!new)>(x: T, s: seq<T>, key: T -> real): (r: seq<T>)
    ensures multiset(r) == multiset(s) + multiset{x}
    ensures forall y :: y in r <==> y in s || y == x
  {
    if s == [] then [x]
    else if key(s[0]) <= key(x) then [x] + s
    else
      assert s == [s[0]] + s[1..];
      [s[0]] + Insert(x, s[1..], key)
  }

  /** Inserting into a sequence in non-increasing order keeps it so. */
  lemma {:induction false} InsertSorted<T(!new)>(x: T, s: seq<T>, key: T -> real)
    requires NonIncreasing(s, key)
    ensures NonIncreasing(Insert(x, s, key), key)
  {
    if s != [] && key(x) < key(s[0]) {
      var tail := Insert(x, s[1..], key);
      assert NonIncreasing(s[1..], key) by {
        forall i, j | 0 <= i < j < |s[1..]| ensures key(s[1..][j]) <= key(s[1..][i]) {
          assert s[1..][i] == s[i + 1] && s[1..][j] == s[j + 1];
        }
      }
      InsertSorted(x, s[1..], key);
      forall j | 0 <= j < |tail| ensures key(tail[j]) <= key(s[0]) {
        if tail[j] != x {
          assert tail[j] in tail;
          var k :| 0 <= k < |s[1..]| && s[1..][k] == tail[j];
          assert s[k + 1] == tail[j];
        }
      }
      var r := [s[0]] + tail;
      assert Insert(x, s, key) == r;
      forall i, j | 0 <= i < j < |r| ensures key(r[j]) <= key(r[i]) {
        if i > 0 {
          assert r[i] == tail[i - 1] && r[j] == tail[j - 1];
        } else {
          assert r[j] == tail[j - 1];
        }
      }
    }
  }

  /** `sorted(s, key=key, reverse=True)`: insertion sort from the back, equal keys keeping their order. */
  function SortDesc<T(==,!new)>(s: seq<T>, key: T -> real): (r: seq<T>)
    ensures multiset(r) == multiset(s)
    ensures |r| == |s|
    ensures NonIncreasing(r, key)
  {
    if s == [] then []
    else
      assert s == [s[0]] + s[1..];
      InsertSorted(s[0], SortDesc(s[1..], key), key);
      Insert(s[0], SortDesc(s[1..], key), key)
  }

  /** Inserting `x` puts it ahead of every element with the same key. */
  lemma {:induction false} InsertStable<T(!new)>(x: T, s: seq<T>, key: T -> real, v: real)
    ensures KeepIf(Insert(x, s, key), HasKey(key, v))
         == (if key(x) == v then [x] else []) + KeepIf(s, HasKey(key, v))
  {
    var p := HasKey(key, v);
    if s == [] {
      KeepIfCons(x, s, p);
    } else if key(s[0]) <= key(x) {
      KeepIfCons(x, s, p);
    } else {
      var head, rest := s[0], s[1..];
      assert s == [head] + rest;
      var tail := Insert(x, rest, key);
      assert Insert(x, s, key) == [head] + tail;
      var a := if p(head) then [head] else [];
      var b := if p(x) then [x] else [];
      KeepIfCons(head, tail, p);
      InsertStable(x, rest, key, v);
      KeepIfCons(head, rest, p);
      assert a == [] || b == [] by {
        assert p(head) == (key(head) == v) && p(x) == (key(x) == v);
      }
      SwapEmpty(a, b, KeepIf(rest, p));
    }
  }

  lemma SwapEmpty<T>(a: seq<T>, b: seq<T>, c: seq<T>)
    requires a == [] || b == []
    ensures a + (b + c) == b + (a + c)
  {
    if a == [] {
      assert a + (b + c) == b + c;
    } else {
      assert b + (a + c) == a + c;
    }
  }

  /**
   * The sort is stable: for every rating, the elements with that rating come
   * out in the order they went in.
   */
  lemma {:induction false} SortStable<T(!new)>(s: seq<T>, key: T -> real, v: real)
    ensures KeepIf(SortDesc(s, key), HasKey(key, v)) == KeepIf(s, HasKey(key, v))
  {
    if s != [] {
      SortStable(s[1..], key, v);
      InsertStable(s[0], SortDesc(s[1..], key), key, v);
      KeepIfCons(s[0], s[1..], HasKey(key, v));
      assert s == [s[0]] + s[1..];
    }
  }

  /** A distinct sequence stays distinct once sorted, since sorting only reorders. */
  lemma SortDistinct<T(!new)>(s: seq<T>, key: T -> real)
    requires Distinct(s)
    ensures Distinct(SortDesc(s, key))
  {
    var r := SortDesc(s, key);
    forall i, j | 0 <= i < j < |r| ensures r[i] != r[j] {
      if r[i] == r[j] {
        PairCount(r, i, j);
        assert multiset(s)[r[i]] >= 2;
        SingleCount(s, r[i]);
      }
    }
  }

  lemma {:induction false} PairCount<T>(s: seq<T>, i: int, j: int)
    requires 0 <= i < j < |s| && s[i] == s[j]
    ensures multiset(s)[s[i]] >= 2
  {
    assert s == s[..i] + [s[i]] + s[i + 1..j] + [s[j]] + s[j + 1..];
  }

  lemma {:induction false} SingleCount<T>(s: seq<T>, x: T)
    requires Distinct(s)
    ensures multiset(s)[x] <= 1
  {
    if s != [] {
      assert s == [s[0]] + s[1..];
      assert Distinct(s[1..]) by {
        forall i, j | 0 <= i < j < |s[1..]| ensures s[1..][i] != s[1..][j] {
          assert s[1..][i] == s[i + 1] && s[1..][j] == s[j + 1];
        }
      }
      SingleCount(s[1..], x);
      if s[0] == x {
        assert x !in s[1..] by {
          forall k | 0 <= k < |s[1..]| ensures s[1..][k] != x { assert s[1..][k] == s[k + 1]; }
        }
      }
    }
  }
}
