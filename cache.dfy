/**
 * The cache layer (src/common/services/cache.service.ts): key generation from
 * a namespace and a parameter record, get/set/del over the cache manager, the
 * per-listing helpers with their TTL tiers, and namespace invalidation.
 *
 * The cache manager is the `store` map of `CacheService`; TTL expiry is not
 * modelled, so an entry stays until it is deleted or overwritten. Keys whose
 * deletion the backend rejects are the set `failingDeletes`.
 */
module Cache {
  import opened Wrappers
  import opened Strings

  // Namespace keys (CACHE_KEYS)
  const MoviesAll := "movies:all"
  const MoviesByGenre := "movies:genre"
  const MoviesByDirector := "movies:director"
  const MoviesPopular := "movies:popular"
  const GenresAll := "genres:all"
  const DirectorsAll := "directors:all"
  const MoviesSearch := "movies:search"

  // TTL tiers in seconds
  const Short := 300
  const Medium := 900
  const Long := 3600

  /** The keys `delPattern` knows, in the order it tests them. */
  const KnownKeys := [MoviesAll, MoviesByGenre, MoviesByDirector, MoviesPopular, MoviesSearch, GenresAll, DirectorsAll]

  /** The namespaces `clearMovieCache` invalidates. */
  const MovieNamespaces := [MoviesAll, MoviesByGenre, MoviesByDirector, MoviesPopular, MoviesSearch]

  function ToSet(s: seq<string>): set<string> {
    set k | k in s
  }

  // ---------------------------------------------------------------------
  // Parameter records and key generation
  // ---------------------------------------------------------------------

  /** A value interpolated into a key: a number or a string. */
  datatype Value = Num(n: int) | Text(s: string)

  /** One property of a parameter record. */
  datatype Param = Param(name: string, value: Value)

  /** A JavaScript object literal: properties in insertion order. */
  type Params = seq<Param>

  /** `${value}` */
  function Render(v: Value): string {
    match v
    case Num(n) => IntToString(n)
    case Text(s) => s
  }

  /** `Object.keys(params)` */
  function Names(ps: Params): (r: seq<string>)
    ensures |r| == |ps|
  {
    seq(|ps|, i requires 0 <= i < |ps| => ps[i].name)
  }

  /** A record never holds two properties of the same name. */
  predicate DistinctNames(ps: Params) {
    Distinct(Names(ps))
  }

  /** `params[name]`; an absent property renders as "undefined". */
  function Lookup(ps: Params, name: string): Value {
    if ps == [] then Text("undefined")
    else if ps[0].name == name then ps[0].value
    else Lookup(ps[1..], name)
  }

  lemma {:induction false} LookupOfMember(ps: Params, e: Param)
    requires DistinctNames(ps) && e in ps
    ensures Lookup(ps, e.name) == e.value
    decreases |ps|
  {
    var k :| 0 <= k < |ps| && ps[k] == e;
    if k > 0 {
      assert Names(ps)[0] != Names(ps)[k];
      assert ps[1..][k - 1] == e;
      assert DistinctNames(ps[1..]) by {
        forall i, j | 0 <= i < j < |ps[1..]| ensures Names(ps[1..])[i] != Names(ps[1..])[j] {
          assert Names(ps[1..])[i] == Names(ps)[i + 1] && Names(ps[1..])[j] == Names(ps)[j + 1];
        }
      }
      LookupOfMember(ps[1..], e);
    }
  }

  /** `name:value` for each name, in the given order. */
  function RenderPairs(names: seq<string>, ps: Params): (r: seq<string>)
    ensures |r| == |names|
  {
    seq(|names|, i requires 0 <= i < |names| => names[i] + ":" + Render(Lookup(ps, names[i])))
  }

  /**
   * generateKey: the bare namespace for an empty record, otherwise the
   * namespace, a colon, and the `name:value` pairs in sorted name order
   * joined by `|`.
   */
  function GenerateKey(base: string, ps: Params): (r: string)
    ensures ps == [] ==> r == base
    ensures ps != [] ==> |r| > |base| && r[..|base| + 1] == base + ":"
  {
    if |ps| == 0 then base
    else
      var r := base + ":" + Join(RenderPairs(Sort(Names(ps)), ps), "|");
      assert r[..|base| + 1] == base + ":";
      r
  }

  /** Records holding the same properties have the same property names. */
  lemma SameNames(p: Params, q: Params)
    requires forall e :: e in p <==> e in q
    ensures forall n :: n in Names(p) ==> n in Names(q)
  {
    forall n | n in Names(p) ensures n in Names(q) {
      var i :| 0 <= i < |Names(p)| && Names(p)[i] == n;
      assert p[i] in q;
      var j :| 0 <= j < |q| && q[j] == p[i];
      assert Names(q)[j] == n;
    }
  }

  /** Records holding the same properties list their names in the same sorted order. */
  lemma SortedNamesAgree(p: Params, q: Params)
    requires DistinctNames(p) && DistinctNames(q)
    requires forall e :: e in p <==> e in q
    ensures Sort(Names(p)) == Sort(Names(q))
  {
    var np, nq := Sort(Names(p)), Sort(Names(q));
    SameNames(p, q);
    SameNames(q, p);
    forall n ensures n in np <==> n in nq {
      SortMembers(Names(p), n);
      SortMembers(Names(q), n);
    }
    StrictlySortedUnique(np, nq);
  }

  /**
   * Two records holding the same properties give the same key, whatever
   * order the properties were inserted in.
   */
  lemma KeyIgnoresInsertionOrder(base: string, p: Params, q: Params)
    requires DistinctNames(p) && DistinctNames(q)
    requires forall e :: e in p <==> e in q
    ensures GenerateKey(base, p) == GenerateKey(base, q)
  {
    if p != [] { assert p[0] in q; }
    if q != [] { assert q[0] in p; }
    if p != [] && q != [] {
      SortedNamesAgree(p, q);
      SamePairs(p, q);
    }
  }

  /** Records holding the same properties render every name of the first the same way. */
  lemma SamePairs(p: Params, q: Params)
    requires DistinctNames(p) && DistinctNames(q)
    requires forall e :: e in p <==> e in q
    ensures RenderPairs(Sort(Names(p)), p) == RenderPairs(Sort(Names(p)), q)
  {
    var names := Sort(Names(p));
    forall i | 0 <= i < |names| ensures Lookup(p, names[i]) == Lookup(q, names[i]) {
      assert names[i] in multiset(Names(p));
      var k :| 0 <= k < |Names(p)| && Names(p)[k] == names[i];
      assert p[k] in q;
      LookupOfMember(p, p[k]);
      LookupOfMember(q, p[k]);
    }
  }

  /** A string that extends a known key by a colon is not itself a known key. */
  lemma ExtendedKeyIsNotBare(r: string, ns: string)
    requires ns in KnownKeys && |r| > |ns| && r[..|ns| + 1] == ns + ":"
    ensures r !in KnownKeys
  {
    KnownKeysUnrelated();
    forall k | k in KnownKeys ensures r != k {
      if |k| > |ns| {
        assert !OccursAt(k, ns, 0) by {
          ContainsIff(k, ns);
        }
        assert k[..|ns| + 1][..|ns|] == k[..|ns|];
        assert (ns + ":")[..|ns|] == ns;
      }
    }
  }

  /**
   * A key generated with parameters is never one of the bare namespace keys,
   * so deleting the bare keys never touches an entry stored with parameters.
   */
  lemma ParameterisedKeyIsNotBare(ns: string, ps: Params)
    requires ns in KnownKeys && ps != []
    ensures GenerateKey(ns, ps) !in KnownKeys
  {
    ExtendedKeyIsNotBare(GenerateKey(ns, ps), ns);
  }

  /** The key of a record with properties `a` and `b`: both pairs, in that order. */
  lemma KeyOfTwo(base: string, a: Value, b: Value)
    ensures GenerateKey(base, [Param("a", a), Param("b", b)])
            == base + ":" + (("a" + ":" + Render(a)) + "|" + ("b" + ":" + Render(b)))
  {
    var ps := [Param("a", a), Param("b", b)];
    assert Names(ps) == ["a", "b"];
    NamesAlreadySorted();
    PairsOfTwo(a, b);
    JoinOfTwo("a" + ":" + Render(a), "b" + ":" + Render(b), "|");
  }

  lemma NamesAlreadySorted()
    ensures Sort(["a", "b"]) == ["a", "b"]
  {
    assert Less("a", "b");
    assert Sort(["b"]) == ["b"];
    assert ["a", "b"][1..] == ["b"];
  }

  lemma PairsOfTwo(a: Value, b: Value)
    ensures RenderPairs(["a", "b"], [Param("a", a), Param("b", b)]) == ["a" + ":" + Render(a), "b" + ":" + Render(b)]
  {
    var ps := [Param("a", a), Param("b", b)];
    assert Lookup(ps, "b") == b by {
      assert ps[1..] == [Param("b", b)];
    }
  }

  lemma JoinOfTwo(x: string, y: string, sep: string)
    ensures Join([x, y], sep) == x + sep + y
  {
    assert [x, y][1..] == [y];
  }

  /**
   * The key is not injective: separators inside values are not escaped, so
   * two records with different properties can share one key.
   */
  lemma KeyCollision()
    ensures var p := [Param("a", Text("x|b:y")), Param("b", Text("z"))];
            var q := [Param("a", Text("x")), Param("b", Text("y|b:z"))];
            p != q && GenerateKey(MoviesSearch, p) == GenerateKey(MoviesSearch, q)
  {
    KeyOfTwo(MoviesSearch, Text("x|b:y"), Text("z"));
    KeyOfTwo(MoviesSearch, Text("x"), Text("y|b:z"));
    SameRendering();
    assert Text("x|b:y") != Text("x") by {
      assert |"x|b:y"| != |"x"|;
    }
  }

  /** Both records of `KeyCollision` render to `a:x|b:y|b:z`. */
  lemma SameRendering()
    ensures ("a" + ":" + "x|b:y") + "|" + ("b" + ":" + "z") == ("a" + ":" + "x") + "|" + ("b" + ":" + "y|b:z")
  {
    var w := "a:x|b:y|b:z";
    assert ("a" + ":" + "x|b:y") + "|" + ("b" + ":" + "z") == w;
    assert ("a" + ":" + "x") + "|" + ("b" + ":" + "y|b:z") == w;
  }

  // ---------------------------------------------------------------------
  // Entries, TTL and the patterns delPattern recognises
  // ---------------------------------------------------------------------

  datatype Entry<V> = Entry(value: V, ttl: int)

  /** `ttl || MEDIUM`: an absent or zero TTL falls back to the medium tier. */
  function EffectiveTtl(ttl: Option<int>): (r: int)
    ensures ttl.None? || ttl == Some(0) ==> r == Medium
    ensures ttl.Some? && ttl.value != 0 ==> r == ttl.value
  {
    match ttl
    case None => Medium
    case Some(t) => if t == 0 then Medium else t
  }

  /** What the cache manager returns for `key`. */
  function Cached<V>(store: map<string, Entry<V>>, key: string): Option<V> {
    if key in store then Some(store[key].value) else None
  }

  /** The keys of `keys` that `pattern` contains, in the order given. */
  function KeysMatching(pattern: string, keys: seq<string>): (r: seq<string>)
    ensures forall k :: k in r <==> k in keys && Contains(pattern, k)
  {
    if keys == [] then []
    else
      var last := keys[|keys| - 1];
      KeysMatching(pattern, keys[..|keys| - 1]) + (if Contains(pattern, last) then [last] else [])
  }

  /** Testing one more key appends it when the pattern contains it. */
  lemma KeysMatchingStep(pattern: string, keys: seq<string>, n: nat)
    requires n < |keys|
    ensures KeysMatching(pattern, keys[..n + 1])
            == KeysMatching(pattern, keys[..n]) + (if Contains(pattern, keys[n]) then [keys[n]] else [])
  {
    assert keys[..n + 1][..n] == keys[..n];
  }

  /** The keys deleted before the first deletion the backend rejects. */
  function UntilFailure(keys: seq<string>, failing: set<string>): (r: seq<string>)
    ensures |r| <= |keys| && r == keys[..|r|]
    ensures forall k :: k in r ==> k !in failing
    ensures |r| < |keys| ==> keys[|r|] in failing
  {
    if keys == [] || keys[0] in failing then []
    else [keys[0]] + UntilFailure(keys[1..], failing)
  }

  /** No known key occurs inside another one. */
  lemma KnownKeysUnrelated()
    ensures forall a, b :: a in KnownKeys && b in KnownKeys && a != b ==> !Contains(a, b)
  {
    NothingInsideMoviesAll();
    NothingInsideMoviesByGenre();
    NothingInsideMoviesByDirector();
    NothingInsideMoviesPopular();
    NothingInsideMoviesSearch();
    NothingInsideGenresAll();
    NothingInsideDirectorsAll();
  }

  lemma NothingInsideMoviesAll()
    ensures forall b :: b in KnownKeys && b != MoviesAll ==> !Contains(MoviesAll, b)
  {
    assert !Contains(MoviesAll, MoviesByGenre);
    assert !Contains(MoviesAll, MoviesByDirector);
    assert !Contains(MoviesAll, MoviesPopular);
    assert !Contains(MoviesAll, MoviesSearch);
    assert !Contains(MoviesAll, GenresAll);
    assert !Contains(MoviesAll, DirectorsAll);
  }

  lemma NothingInsideMoviesByGenre()
    ensures forall b :: b in KnownKeys && b != MoviesByGenre ==> !Contains(MoviesByGenre, b)
  {
    assert !Contains(MoviesByGenre, MoviesAll);
    assert !Contains(MoviesByGenre, MoviesByDirector);
    assert !Contains(MoviesByGenre, MoviesPopular);
    assert !Contains(MoviesByGenre, MoviesSearch);
    assert !Contains(MoviesByGenre, GenresAll);
    assert !Contains(MoviesByGenre, DirectorsAll);
  }

  lemma NothingInsideMoviesByDirector()
    ensures forall b :: b in KnownKeys && b != MoviesByDirector ==> !Contains(MoviesByDirector, b)
  {
    NoMovieListingInsideMoviesByDirector();
    assert !Contains(MoviesByDirector, MoviesSearch);
    assert !Contains(MoviesByDirector, GenresAll);
    assert !Contains(MoviesByDirector, DirectorsAll);
  }

  lemma NothingInsideMoviesPopular()
    ensures forall b :: b in KnownKeys && b != MoviesPopular ==> !Contains(MoviesPopular, b)
  {
    NoMovieListingInsideMoviesPopular();
    assert !Contains(MoviesPopular, MoviesSearch);
    assert !Contains(MoviesPopular, GenresAll);
    assert !Contains(MoviesPopular, DirectorsAll);
  }

  lemma NoMovieListingInsideMoviesByDirector()
    ensures !Contains(MoviesByDirector, MoviesAll)
    ensures !Contains(MoviesByDirector, MoviesByGenre)
    ensures !Contains(MoviesByDirector, MoviesPopular)
  {
  }

  lemma NoMovieListingInsideMoviesPopular()
    ensures !Contains(MoviesPopular, MoviesAll)
    ensures !Contains(MoviesPopular, MoviesByGenre)
    ensures !Contains(MoviesPopular, MoviesByDirector)
  {
  }

  lemma NothingInsideMoviesSearch()
    ensures forall b :: b in KnownKeys && b != MoviesSearch ==> !Contains(MoviesSearch, b)
  {
    assert !Contains(MoviesSearch, MoviesAll);
    assert !Contains(MoviesSearch, MoviesByGenre);
    assert !Contains(MoviesSearch, MoviesByDirector);
    assert !Contains(MoviesSearch, MoviesPopular);
    assert !Contains(MoviesSearch, GenresAll);
    assert !Contains(MoviesSearch, DirectorsAll);
  }

  lemma NothingInsideGenresAll()
    ensures forall b :: b in KnownKeys && b != GenresAll ==> !Contains(GenresAll, b)
  {
    assert !Contains(GenresAll, MoviesAll);
    assert !Contains(GenresAll, MoviesByGenre);
    assert !Contains(GenresAll, MoviesByDirector);
    assert !Contains(GenresAll, MoviesPopular);
    assert !Contains(GenresAll, MoviesSearch);
    assert !Contains(GenresAll, DirectorsAll);
  }

  lemma NothingInsideDirectorsAll()
    ensures forall b :: b in KnownKeys && b != DirectorsAll ==> !Contains(DirectorsAll, b)
  {
    assert !Contains(DirectorsAll, MoviesAll);
    assert !Contains(DirectorsAll, MoviesByGenre);
    assert !Contains(DirectorsAll, MoviesByDirector);
    assert !Contains(DirectorsAll, MoviesPopular);
    assert !Contains(DirectorsAll, MoviesSearch);
    assert !Contains(DirectorsAll, GenresAll);
  }

  /** A pattern that contains exactly one key of a duplicate-free list matches just that key. */
  lemma {:induction false} OnlyMatch(pattern: string, keys: seq<string>, k: string)
    requires Distinct(keys) && k in keys && Contains(pattern, k)
    requires forall x :: x in keys && x != k ==> !Contains(pattern, x)
    ensures KeysMatching(pattern, keys) == [k]
  {
    var init, last := keys[..|keys| - 1], keys[|keys| - 1];
    if last == k {
      forall x | x in init ensures x != k {
        var i :| 0 <= i < |init| && init[i] == x;
        assert keys[i] == x;
      }
      NoMembersEmpty(KeysMatching(pattern, init));
    } else {
      assert k in init by {
        var i :| 0 <= i < |keys| && keys[i] == k;
        assert i != |keys| - 1;
        assert init[i] == k;
      }
      assert Distinct(init) by {
        forall i, j | 0 <= i < j < |init| ensures init[i] != init[j] {
          assert init[i] == keys[i] && init[j] == keys[j];
        }
      }
      OnlyMatch(pattern, init, k);
    }
  }

  /** Each namespace, used as a pattern, matches exactly its own key. */
  lemma PatternOfNamespace(ns: string)
    requires ns in KnownKeys
    ensures KeysMatching(ns, KnownKeys) == [ns]
  {
    KnownKeysUnrelated();
    KnownKeysDistinct();
    assert OccursAt(ns, ns, 0);
    ContainsIff(ns, ns);
    OnlyMatch(ns, KnownKeys, ns);
  }

  lemma KnownKeysDistinct()
    ensures Distinct(KnownKeys)
  {
  }

  /**
   * The first half of `delPattern`: each known key, in order, is pushed when
   * the pattern contains it (the source tests the seven keys one after the other).
   */
  method KeysToDelete(pattern: string) returns (keysToDelete: seq<string>)
    ensures keysToDelete == KeysMatching(pattern, KnownKeys)
  {
    keysToDelete := [];
    for n := 0 to |KnownKeys|
      invariant keysToDelete == KeysMatching(pattern, KnownKeys[..n])
    {
      KeysMatchingStep(pattern, KnownKeys, n);
      if Contains(pattern, KnownKeys[n]) {
        keysToDelete := keysToDelete + [KnownKeys[n]];
      }
    }
    assert KnownKeys[..|KnownKeys|] == KnownKeys;
  }

  /** The store after `clearMovieCache`: the bare movie keys go, unless the backend rejects them. */
  function AfterMovieClear<V>(store: map<string, Entry<V>>, failing: set<string>): map<string, Entry<V>> {
    store - (ToSet(MovieNamespaces) - failing)
  }

  /**
   * A listing cached under parameters survives `clearMovieCache` with its
   * value: the clear only deletes the bare namespace keys.
   */
  lemma ListingSurvivesMovieClear<V>(store: map<string, Entry<V>>, failing: set<string>, ns: string, ps: Params)
    requires ns in KnownKeys && ps != []
    ensures Cached(AfterMovieClear(store, failing), GenerateKey(ns, ps)) == Cached(store, GenerateKey(ns, ps))
  {
    ParameterisedKeyIsNotBare(ns, ps);
  }

  /** Deleting the next key of `keys` extends the deleted prefix by one. */
  lemma DeleteStep<V>(store: map<string, Entry<V>>, keys: seq<string>, i: nat)
    requires i < |keys|
    ensures store - ToSet(keys[..i]) - {keys[i]} == store - ToSet(keys[..i + 1])
  {
    assert keys[..i + 1] == keys[..i] + [keys[i]];
    assert ToSet(keys[..i + 1]) == ToSet(keys[..i]) + {keys[i]};
  }

  /** Deleting a one-key list removes that key unless the backend rejects it. */
  lemma OneKeyDeletion(k: string, failing: set<string>)
    ensures ToSet(UntilFailure([k], failing)) == {k} - failing
  {
    if k !in failing {
      assert UntilFailure([k], failing) == [k] + UntilFailure([], failing);
    }
  }

  /** Clearing the next namespace of `keys` extends the cleared prefix by one. */
  lemma ClearStep<V>(store: map<string, Entry<V>>, keys: seq<string>, i: nat, failing: set<string>)
    requires i < |keys|
    ensures store - (ToSet(keys[..i]) - failing) - ({keys[i]} - failing) == store - (ToSet(keys[..i + 1]) - failing)
  {
    assert keys[..i + 1] == keys[..i] + [keys[i]];
    assert ToSet(keys[..i + 1]) == ToSet(keys[..i]) + {keys[i]};
  }

  /** Reading back a key just written returns the written value. */
  lemma GetAfterSet<V>(store: map<string, Entry<V>>, key: string, ps: Params, value: V, ttl: Option<int>)
    ensures var k := GenerateKey(key, ps);
            Cached(store[k := Entry(value, EffectiveTtl(ttl))], k) == Some(value)
  {
  }

  /** `{ first, ...ps }`: `first` leads, a property of the same name in `ps` overrides its value. */
  function Spread(first: Param, ps: Params): (r: Params)
    ensures r != [] && r[0].name == first.name
  {
    var overridden := first.name in Names(ps);
    [Param(first.name, if overridden then Lookup(ps, first.name) else first.value)] + Others(ps, first.name)
  }

  /** The properties of `ps` other than `name`, in order. */
  function Others(ps: Params, name: string): Params {
    if ps == [] then []
    else (if ps[0].name == name then [] else [ps[0]]) + Others(ps[1..], name)
  }

  // ---------------------------------------------------------------------
  // The service
  // ---------------------------------------------------------------------

  class CacheService<V> {
    /** The cache manager's entries. */
    var store: map<string, Entry<V>>
    /** Keys whose deletion the cache backend currently rejects. */
    var failingDeletes: set<string>

    constructor (initial: map<string, Entry<V>>, failing: set<string>)
      ensures store == initial && failingDeletes == failing
    {
      store := initial;
      failingDeletes := failing;
    }

    method Get(key: string, params: Params) returns (r: Option<V>)
      ensures r == Cached(store, GenerateKey(key, params))
    {
      var cacheKey := GenerateKey(key, params);
      r := if cacheKey in store then Some(store[cacheKey].value) else None;
    }

    method Set(key: string, value: V, ttl: Option<int>, params: Params)
      modifies this`store
      ensures store == old(store)[GenerateKey(key, params) := Entry(value, EffectiveTtl(ttl))]
    {
      var cacheKey := GenerateKey(key, params);
      store := store[cacheKey := Entry(value, EffectiveTtl(ttl))];
    }

    /** `del`: a rejected deletion propagates to the caller (`ok` false). */
    method Del(key: string, params: Params) returns (ok: bool)
      modifies this`store
      ensures ok <==> GenerateKey(key, params) !in failingDeletes
      ensures store == if ok then old(store) - {GenerateKey(key, params)} else old(store)
    {
      var cacheKey := GenerateKey(key, params);
      ok := cacheKey !in failingDeletes;
      if ok {
        store := store - {cacheKey};
      }
    }

    /**
     * `delPattern`: deletes the bare known keys the pattern contains, in order;
     * the first rejected deletion ends the loop and is swallowed.
     */
    method DelPattern(pattern: string)
      modifies this`store
      ensures store == old(store) - ToSet(UntilFailure(KeysMatching(pattern, KnownKeys), failingDeletes))
    {
      var keysToDelete := KeysToDelete(pattern);
      ghost var deleted := UntilFailure(keysToDelete, failingDeletes);

      var i := 0;
      while i < |keysToDelete|
        invariant 0 <= i <= |deleted|
        invariant store == old(store) - ToSet(deleted[..i])
      {
        if keysToDelete[i] in failingDeletes {
          break;
        }
        assert deleted[i] == keysToDelete[i];
        DeleteStep(old(store), deleted, i);
        store := store - {keysToDelete[i]};
        i := i + 1;
      }
      assert deleted[..i] == deleted;
    }

    // Per-listing helpers: each reads or writes its namespace with its TTL tier.

    method GetMovies(params: Params) returns (r: Option<V>)
      ensures r == Cached(store, GenerateKey(MoviesAll, params))
    {
      r := Get(MoviesAll, params);
    }

    method SetMovies(data: V, params: Params)
      modifies this`store
      ensures store == old(store)[GenerateKey(MoviesAll, params) := Entry(data, Short)]
    {
      Set(MoviesAll, data, Some(Short), params);
    }

    method GetMoviesByGenre(genreId: int, params: Params) returns (r: Option<V>)
      ensures r == Cached(store, GenerateKey(MoviesByGenre, Spread(Param("genreId", Num(genreId)), params)))
    {
      r := Get(MoviesByGenre, Spread(Param("genreId", Num(genreId)), params));
    }

    method SetMoviesByGenre(genreId: int, data: V, params: Params)
      modifies this`store
      ensures store == old(store)[GenerateKey(MoviesByGenre, Spread(Param("genreId", Num(genreId)), params)) := Entry(data, Short)]
    {
      Set(MoviesByGenre, data, Some(Short), Spread(Param("genreId", Num(genreId)), params));
    }

    method GetMoviesByDirector(directorId: int, params: Params) returns (r: Option<V>)
      ensures r == Cached(store, GenerateKey(MoviesByDirector, Spread(Param("directorId", Num(directorId)), params)))
    {
      r := Get(MoviesByDirector, Spread(Param("directorId", Num(directorId)), params));
    }

    method SetMoviesByDirector(directorId: int, data: V, params: Params)
      modifies this`store
      ensures store == old(store)[GenerateKey(MoviesByDirector, Spread(Param("directorId", Num(directorId)), params)) := Entry(data, Short)]
    {
      Set(MoviesByDirector, data, Some(Short), Spread(Param("directorId", Num(directorId)), params));
    }

    method GetPopularMovies(params: Params) returns (r: Option<V>)
      ensures r == Cached(store, GenerateKey(MoviesPopular, params))
    {
      r := Get(MoviesPopular, params);
    }

    method SetPopularMovies(data: V, params: Params)
      modifies this`store
      ensures store == old(store)[GenerateKey(MoviesPopular, params) := Entry(data, Medium)]
    {
      Set(MoviesPopular, data, Some(Medium), params);
    }

    method GetSearchMovies(params: Params) returns (r: Option<V>)
      ensures r == Cached(store, GenerateKey(MoviesSearch, params))
    {
      r := Get(MoviesSearch, params);
    }

    method SetSearchMovies(data: V, params: Params)
      modifies this`store
      ensures store == old(store)[GenerateKey(MoviesSearch, params) := Entry(data, Short)]
    {
      Set(MoviesSearch, data, Some(Short), params);
    }

    method GetGenres(params: Params) returns (r: Option<V>)
      ensures r == Cached(store, GenerateKey(GenresAll, params))
    {
      r := Get(GenresAll, params);
    }

    method SetGenres(data: V, params: Params)
      modifies this`store
      ensures store == old(store)[GenerateKey(GenresAll, params) := Entry(data, Long)]
    {
      Set(GenresAll, data, Some(Long), params);
    }

    method GetDirectors() returns (r: Option<V>)
      ensures r == Cached(store, DirectorsAll)
    {
      r := Get(DirectorsAll, []);
    }

    method SetDirectors(data: V)
      modifies this`store
      ensures store == old(store)[DirectorsAll := Entry(data, Long)]
    {
      Set(DirectorsAll, data, Some(Long), []);
    }

    /** Invalidates the five movie namespaces, one `delPattern` after the other. */
    method ClearMovieCache()
      modifies this`store
      ensures store == AfterMovieClear(old(store), failingDeletes)
    {
      var i := 0;
      while i < |MovieNamespaces|
        invariant 0 <= i <= |MovieNamespaces|
        invariant store == old(store) - (ToSet(MovieNamespaces[..i]) - failingDeletes)
      {
        var ns := MovieNamespaces[i];
        PatternOfNamespace(ns);
        DelPattern(ns);
        OneKeyDeletion(ns, failingDeletes);
        ClearStep(old(store), MovieNamespaces, i, failingDeletes);
        i := i + 1;
      }
      assert MovieNamespaces[..i] == MovieNamespaces;
    }

    method ClearGenreCache()
      modifies this`store
      ensures store == old(store) - (({GenresAll} + ToSet(MovieNamespaces)) - failingDeletes)
    {
      PatternOfNamespace(GenresAll);
      DelPattern(GenresAll);
      ClearMovieCache();
    }

    method ClearDirectorCache()
      modifies this`store
      ensures store == old(store) - (({DirectorsAll} + ToSet(MovieNamespaces)) - failingDeletes)
    {
      PatternOfNamespace(DirectorsAll);
      DelPattern(DirectorsAll);
      ClearMovieCache();
    }
  }
}
