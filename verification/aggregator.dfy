/** The movie aggregator service. Once both provider calls have completed (the concurrent
    fan-out is a barrier), each operation is a pure function of the provider results, taken
    in the fixed order cinema then film. The LINQ queries of the C# service (`All`, `Where`,
    `SelectMany`, `DistinctBy`, `OrderBy(...).First()`) are stated over a sequence of
    results; `GetAll` and `GetById` instantiate it with the two providers. */
module MovieAggregator {

  import opened Wrappers
  import opened Core
  import opened Exceptions
  import opened Movies
  import opened Distinct

  /** `results.All(r => !r.IsSuccess)`; vacuously true of no results. */
  predicate AllFailed<T>(rs: seq<Result<T>>)
    ensures AllFailed(rs) <==> forall i :: 0 <= i < |rs| ==> rs[i] == Failure(rs[i].Error())
    ensures |rs| == 0 ==> AllFailed(rs)
  {
    forall i :: 0 <= i < |rs| ==> !rs[i].IsSuccess()
  }

  /** `results.All(r => !r.IsSuccess && r.Error == ErrorType.NotFound)`: every result is
      the very value `Failure(NotFound)`, which makes them all failures too. */
  predicate AllNotFound<T>(rs: seq<Result<T>>)
    ensures AllNotFound(rs) <==> forall i :: 0 <= i < |rs| ==> rs[i] == Failure(NotFound)
    ensures AllNotFound(rs) ==> AllFailed(rs)
  {
    forall i :: 0 <= i < |rs| ==> !rs[i].IsSuccess() && rs[i].Error() == NotFound
  }

  /** `results.Where(r => r.IsSuccess)` projected to the values, in provider order. */
  function Successes<T>(rs: seq<Result<T>>): (vs: seq<T>)
    ensures |vs| <= |rs|
    ensures |vs| == 0 <==> AllFailed(rs)
    ensures forall i :: 0 <= i < |rs| && rs[i].Success? ==> rs[i].val in vs
    ensures forall j :: 0 <= j < |vs| ==> Success(vs[j]) in rs
  {
    if |rs| == 0 then []
    else
      assert rs == [rs[0]] + rs[1..];
      (if rs[0].Success? then [rs[0].val] else []) + Successes(rs[1..])
  }

  /** `SelectMany`: the listings concatenated in order. Every listing's entries are in it,
      and it holds no identifier that no listing carries. */
  function Concat(lists: seq<seq<Movie>>): (ms: seq<Movie>)
    ensures forall i :: 0 <= i < |lists| ==> Ids(lists[i]) <= Ids(ms)
    ensures forall id :: id in Ids(ms) ==> exists i :: 0 <= i < |lists| && id in Ids(lists[i])
  {
    if |lists| == 0 then []
    else
      var rest := Concat(lists[1..]);
      IdsAppend(lists[0], rest);
      assert forall i :: 0 < i < |lists| ==> lists[i] == lists[1..][i - 1];
      lists[0] + rest
  }

  /** The listing over any number of providers. */
  function GetAllOf(rs: seq<Result<seq<Movie>>>): (r: Outcome<seq<Movie>>)
    ensures r.Raised? <==> AllFailed(rs)
    ensures r.Raised? ==> r.ex == ProvidersDown()
    ensures r.Returned? ==> IdsDistinct(r.value) && Ids(r.value) == Ids(Concat(Successes(rs)))
  {
    if AllFailed(rs) then Raised(ProvidersDown())
    else Returned(DistinctById(Concat(Successes(rs))))
  }

  /** `GetAll`: the cinema listing, then the film listing. It raises exactly when both
      providers failed; otherwise the identifiers it answers are distinct and are those of
      the successful listings. */
  function GetAll(cinema: Result<seq<Movie>>, film: Result<seq<Movie>>): (r: Outcome<seq<Movie>>)
    ensures r.Raised? <==> !cinema.IsSuccess() && !film.IsSuccess()
    ensures r.Raised? ==> r.ex == ProvidersDown()
    ensures r.Returned? ==> IdsDistinct(r.value)
    ensures r.Returned? ==> Ids(r.value) == Ids(Contribution(cinema)) + Ids(Contribution(film))
  {
    var rs := [cinema, film];
    assert rs[0] == cinema && rs[1] == film;
    if !cinema.IsSuccess() && !film.IsSuccess() then GetAllOf(rs)
    else
      ConcatOfPairContributions(cinema, film);
      IdsAppend(Contribution(cinema), Contribution(film));
      GetAllOf(rs)
  }

  /** The merged listing of the two providers: what `GetAll` returns when a provider
      succeeds. A failed provider contributes nothing. */
  function Contribution(r: Result<seq<Movie>>): seq<Movie> {
    if r.Success? then r.val else []
  }

  lemma SuccessesOfPair<T>(a: Result<T>, b: Result<T>)
    ensures Successes([a, b]) == (if a.Success? then [a.val] else []) + (if b.Success? then [b.val] else [])
  {
    assert [a, b][1..] == [b];
    assert [b][1..] == [];
  }

  lemma ConcatOfPairContributions(a: Result<seq<Movie>>, b: Result<seq<Movie>>)
    ensures Concat(Successes([a, b])) == Contribution(a) + Contribution(b)
  {
    SuccessesOfPair(a, b);
    var lists := Successes([a, b]);
    if a.Success? && b.Success? {
      assert lists[1..] == [b.val];
      assert lists[1..][1..] == [];
      assert Concat(lists[1..]) == b.val + [];
    } else if a.Success? || b.Success? {
      assert lists[1..] == [];
      assert Concat(lists) == lists[0] + [];
    }
  }

  /** Both providers down is exactly the case in which `GetAll` raises, and it then raises
      the providers-down error instead of answering any list. */
  lemma GetAllRaisesIffBothFail(cinema: Result<seq<Movie>>, film: Result<seq<Movie>>)
    ensures GetAll(cinema, film).Raised? <==> !cinema.IsSuccess() && !film.IsSuccess()
    ensures GetAll(cinema, film).Raised? ==> GetAll(cinema, film) == Raised(ProvidersDown())
  {
    assert [cinema, film][0] == cinema && [cinema, film][1] == film;
  }

  /** When a provider succeeds, the answer is the deduplicated cinema listing followed by
      the film entries whose identifiers the cinema listing did not carry. Its identifiers
      are pairwise distinct, their set is the union of the successful providers', and there
      is exactly one entry per identifier of that union. */
  lemma {:induction false} GetAllMerges(cinema: Result<seq<Movie>>, film: Result<seq<Movie>>)
    requires cinema.IsSuccess() || film.IsSuccess()
    ensures GetAll(cinema, film).Returned?
    ensures GetAll(cinema, film).value
            == DistinctById(Contribution(cinema)) + DistinctFrom(Contribution(film), Ids(Contribution(cinema)))
    ensures IdsDistinct(GetAll(cinema, film).value)
    ensures Ids(GetAll(cinema, film).value) == Ids(Contribution(cinema)) + Ids(Contribution(film))
    ensures |GetAll(cinema, film).value| == |Ids(Contribution(cinema)) + Ids(Contribution(film))|
  {
    GetAllRaisesIffBothFail(cinema, film);
    ConcatOfPairContributions(cinema, film);
    DistinctFromAppend(Contribution(cinema), Contribution(film), {});
    assert {} + Ids(Contribution(cinema)) == Ids(Contribution(cinema));
    IdsAppend(Contribution(cinema), Contribution(film));
    DistinctCount(GetAll(cinema, film).value);
  }

  /** First seen wins: an entry is returned exactly when it is the first entry, in cinema
      then film order, carrying its identifier, and the answer keeps the relative order of
      the concatenation. When one entry value occurs twice this does not pin down which
      occurrence was kept; `GetAllMerges` states the exact answer. */
  lemma GetAllKeepsFirstSeen(cinema: Result<seq<Movie>>, film: Result<seq<Movie>>, m: Movie)
    requires cinema.IsSuccess() || film.IsSuccess()
    ensures GetAll(cinema, film).Returned?
    ensures var all := Contribution(cinema) + Contribution(film);
            && IsSubsequence(GetAll(cinema, film).value, all)
            && (m in GetAll(cinema, film).value <==> exists i :: 0 <= i < |all| && all[i] == m && FirstOccurrence(all, i))
  {
    GetAllRaisesIffBothFail(cinema, film);
    ConcatOfPairContributions(cinema, film);
    var all := Contribution(cinema) + Contribution(film);
    DistinctFromIsSubsequence(all, {});
    DistinctFromKeepsFirstOccurrences(all, {}, m);
  }

  /** With one provider down, the answer is the other provider's listing with repeated
      identifiers dropped: the listing itself when its identifiers are already distinct. */
  lemma GetAllSingleProvider(cinema: Result<seq<Movie>>, film: Result<seq<Movie>>)
    requires cinema.IsSuccess() != film.IsSuccess()
    ensures cinema.IsSuccess() ==> GetAll(cinema, film) == Returned(DistinctById(cinema.val))
    ensures film.IsSuccess() ==> GetAll(cinema, film) == Returned(DistinctById(film.val))
    ensures cinema.IsSuccess() && IdsDistinct(cinema.val) ==> GetAll(cinema, film) == Returned(cinema.val)
    ensures film.IsSuccess() && IdsDistinct(film.val) ==> GetAll(cinema, film) == Returned(film.val)
  {
    GetAllRaisesIffBothFail(cinema, film);
    ConcatOfPairContributions(cinema, film);
    if cinema.IsSuccess() {
      assert Contribution(cinema) + Contribution(film) == cinema.val;
      if IdsDistinct(cinema.val) {
        DistinctFromOfDistinct(cinema.val, {});
      }
    } else {
      assert Contribution(cinema) + Contribution(film) == film.val;
      if IdsDistinct(film.val) {
        DistinctFromOfDistinct(film.val, {});
      }
    }
  }

  /** Cinema {1, 2} and film {1, 3} give three movies, with identifiers 1, 2 and 3
      (stated for any three distinct identifiers). */
  lemma GetAllOverlapExample(m1: Movie, m2: Movie, m1': Movie, m3: Movie)
    requires m1.movieId == m1'.movieId
    requires m1.movieId != m2.movieId && m1.movieId != m3.movieId && m2.movieId != m3.movieId
    ensures GetAll(Success([m1, m2]), Success([m1', m3])).Returned?
    ensures Ids(GetAll(Success([m1, m2]), Success([m1', m3])).value) == {m1.movieId, m2.movieId, m3.movieId}
    ensures |GetAll(Success([m1, m2]), Success([m1', m3])).value| == 3
  {
    var c: Result<seq<Movie>> := Success([m1, m2]);
    var f: Result<seq<Movie>> := Success([m1', m3]);
    var r := GetAll(c, f).value;
    PairIds(m1, m2);
    PairIds(m1', m3);
    var ids := {m1.movieId, m2.movieId, m3.movieId};
    assert Ids(r) == ids by {
      assert Ids(Contribution(c)) + Ids(Contribution(f)) == ids;
    }
    DistinctCount(r);
    ThreeDistinct(m1.movieId, m2.movieId, m3.movieId);
  }

  lemma ThreeDistinct(x: string, y: string, z: string)
    requires x != y && x != z && y != z
    ensures |{x, y, z}| == 3
  {
    assert {x, y, z} == {x, y} + {z};
    assert |{x, y}| == 2 by {
      assert {x, y} == {x} + {y};
    }
  }

  lemma PairIds(a: Movie, b: Movie)
    ensures Ids([a, b]) == {a.movieId, b.movieId}
  {
    assert [a, b][1..] == [b];
    assert [b][1..] == [];
    assert Ids([b]) == {b.movieId} + Ids([]);
  }

  /** `OrderBy(r => r.Value.Price).First()`: the position of the cheapest detail; being a
      stable sort, it is the earliest among equally cheap ones. */
  function CheapestIndex(ds: seq<MovieDetail>): (k: nat)
    requires |ds| > 0
    ensures k < |ds|
    ensures forall j :: 0 <= j < |ds| ==> ds[k].price <= ds[j].price
    ensures forall j :: 0 <= j < k ==> ds[k].price < ds[j].price
  {
    if |ds| == 1 then 0
    else
      var k := CheapestIndex(ds[..|ds| - 1]);
      if ds[|ds| - 1].price < ds[k].price then |ds| - 1 else k
  }

  /** The decision taken on the detail results of any number of providers for `id`. */
  function SelectDetailOf(id: string, rs: seq<Result<MovieDetail>>): (r: Outcome<MovieDetail>)
    ensures r == Raised(MovieNotFound(id)) <==> AllNotFound(rs)
    ensures r == Raised(ProvidersDown()) <==> AllFailed(rs) && !AllNotFound(rs)
    ensures r.Raised? ==> AllFailed(rs)
    ensures r.Returned? ==> Success(r.value) in rs
    ensures r.Returned? ==> forall i :: 0 <= i < |rs| && rs[i].Success? ==> r.value.price <= rs[i].val.price
  {
    if AllNotFound(rs) then Raised(MovieNotFound(id))
    else if AllFailed(rs) then Raised(ProvidersDown())
    else
      var ds := Successes(rs);
      assert forall i :: 0 <= i < |rs| && rs[i].Success? ==> rs[i].val in ds;
      Returned(ds[CheapestIndex(ds)])
  }

  /** The decision on the cinema and film detail results for `id`: not-found exactly when
      both said `NotFound`, and an answer only when one of them succeeded. */
  function SelectDetail(id: string, cinema: Result<MovieDetail>, film: Result<MovieDetail>): (r: Outcome<MovieDetail>)
    ensures r == Raised(MovieNotFound(id)) <==> cinema == Failure(NotFound) && film == Failure(NotFound)
    ensures r.Returned? <==> cinema.IsSuccess() || film.IsSuccess()
    ensures r.Returned? ==> (cinema.Success? && r.value == cinema.val) || (film.Success? && r.value == film.val)
  {
    var rs := [cinema, film];
    assert rs[0] == cinema && rs[1] == film;
    SelectDetailOf(id, rs)
  }

  /** `GetById`: a null or empty id is rejected before either provider is asked; otherwise
      both providers are asked for `id` and their answers decided on. */
  function GetById(id: Option<string>, cinema: string -> Result<MovieDetail>, film: string -> Result<MovieDetail>)
    : (r: Outcome<MovieDetail>)
    ensures r == Raised(ArgumentNull("id")) <==> id.None? || id.value == ""
  {
    if id.None? || id.value == "" then Raised(ArgumentNull("id"))
    else SelectDetail(id.value, cinema(id.value), film(id.value))
  }

  /** A null or empty id gives the same answer whatever the providers would have said:
      neither is consulted. */
  lemma GetByIdRejectsBeforeConsulting(id: Option<string>,
                                       cinema: string -> Result<MovieDetail>, film: string -> Result<MovieDetail>,
                                       cinema': string -> Result<MovieDetail>, film': string -> Result<MovieDetail>)
    requires id.None? || id.value == ""
    ensures GetById(id, cinema, film) == GetById(id, cinema', film')
  {
  }

  /** Not-found is answered exactly when both providers failed with `NotFound`. */
  lemma SelectDetailNotFound(id: string, cinema: Result<MovieDetail>, film: Result<MovieDetail>)
    ensures SelectDetail(id, cinema, film) == Raised(MovieNotFound(id))
            <==> cinema == Failure(NotFound) && film == Failure(NotFound)
  {
    assert [cinema, film][0] == cinema && [cinema, film][1] == film;
  }

  /** Providers-down is answered exactly when both failed and not both with `NotFound`:
      a `NotFound` beside an `Unexpected` is providers-down, not not-found. */
  lemma SelectDetailProvidersDown(id: string, cinema: Result<MovieDetail>, film: Result<MovieDetail>)
    ensures SelectDetail(id, cinema, film) == Raised(ProvidersDown())
            <==> !cinema.IsSuccess() && !film.IsSuccess()
                 && !(cinema == Failure(NotFound) && film == Failure(NotFound))
    ensures SelectDetail(id, Failure(NotFound), Failure(Unexpected)) == Raised(ProvidersDown())
  {
    assert [cinema, film][0] == cinema && [cinema, film][1] == film;
    var mixed: seq<Result<MovieDetail>> := [Failure(NotFound), Failure(Unexpected)];
    assert !mixed[1].IsSuccess() && mixed[1].Error() != NotFound;
  }

  /** With at least one success the answer is the cheapest success; a lone success is
      answered whatever its price, and on equal prices the cinema detail wins. */
  lemma SelectDetailCheapest(id: string, cinema: Result<MovieDetail>, film: Result<MovieDetail>)
    requires cinema.IsSuccess() || film.IsSuccess()
    ensures cinema.IsSuccess() && !film.IsSuccess() ==> SelectDetail(id, cinema, film) == Returned(cinema.val)
    ensures !cinema.IsSuccess() && film.IsSuccess() ==> SelectDetail(id, cinema, film) == Returned(film.val)
    ensures cinema.IsSuccess() && film.IsSuccess() ==>
              SelectDetail(id, cinema, film)
              == Returned(if cinema.val.price <= film.val.price then cinema.val else film.val)
  {
    var rs := [cinema, film];
    assert rs[0] == cinema && rs[1] == film;
    SuccessesOfPair(cinema, film);
    var ds := Successes(rs);
    if cinema.IsSuccess() && film.IsSuccess() {
      assert ds == [cinema.val, film.val];
      assert ds[..1] == [cinema.val];
      var k := CheapestIndex(ds);
      assert k == 0 <==> cinema.val.price <= film.val.price;
    }
  }

  /** Cinema at 15.50 and film at 12.99: the film detail is returned. */
  lemma SelectDetailPriceExample(id: string, cinema: MovieDetail, film: MovieDetail)
    requires cinema.price == 15.50 && film.price == 12.99
    ensures SelectDetail(id, Success(cinema), Success(film)) == Returned(film)
  {
    SelectDetailCheapest(id, Success(cinema), Success(film));
  }
}
