/** Shared building blocks: optional values, the collector's error outcomes,
    and the Python built-ins the collector leans on (`filter`, `filter(None, …)`,
    and the all-or-nothing wait of `asyncio.gather`). */
module Common {

  /** A value that may be absent (Python's `None`). */
  datatype Option<T> = None | Some(value: T) {
    predicate IsFailure() { None? }
    function PropagateFailure<U>(): Option<U> requires None? { None }
    function Extract(): T requires Some? { value }
  }

  /** The exceptions that end a collection run, one constructor per cause. */
  datatype Error =
    | RateLimitExceeded       // RuntimeError('API limit exceeded')
    | NoLimitAvailable        // RuntimeError('Cannot start collection, there is no limit available')
    | MalformedLinkHeader     // a Link entry the pattern does not match (re.match gives None)
    | MissingRateLimitHeader  // KeyError on X-RateLimit-Remaining (older collector only)
    | DecodeFailed            // a record the model class refuses
    | NotIterable             // iterating a response body that is not a collection (older collector)
    | RequestFailed           // no response for the requested URL (transport failure, timeout)
    | PageBudgetExhausted     // more pages than the model's page budget allows
    | ValidationFailed        // the result record refuses its keyword arguments

  /** Either a value or the error that stopped its computation. */
  datatype Result<T> = Ok(value: T) | Err(error: Error) {
    predicate IsFailure() { Err? }
    function PropagateFailure<U>(): Result<U> requires Err? { Err(error) }
    function Extract(): T requires Ok? { value }
  }

  /** Python's `list(filter(p, xs))`: the elements satisfying `p`, in order. */
  function Filter<T>(p: T -> bool, xs: seq<T>): (r: seq<T>)
    ensures |r| <= |xs|
    ensures forall i :: 0 <= i < |r| ==> r[i] in xs && p(r[i])
    ensures forall i :: 0 <= i < |xs| && p(xs[i]) ==> xs[i] in r
  {
    if xs == [] then [] else (if p(xs[0]) then [xs[0]] else []) + Filter(p, xs[1..])
  }

  lemma {:induction false} FilterAppend<T>(p: T -> bool, xs: seq<T>, ys: seq<T>)
    ensures Filter(p, xs + ys) == Filter(p, xs) + Filter(p, ys)
  {
    if xs == [] {
      assert xs + ys == ys;
    } else {
      assert (xs + ys)[1..] == xs[1..] + ys;
      FilterAppend(p, xs[1..], ys);
    }
  }

  lemma {:induction false} FilterKeepsAll<T>(p: T -> bool, xs: seq<T>)
    requires forall i :: 0 <= i < |xs| ==> p(xs[i])
    ensures Filter(p, xs) == xs
  {
    if xs != [] {
      FilterKeepsAll(p, xs[1..]);
    }
  }

  /** A predicate that holds wherever another does keeps at least as many. */
  lemma {:induction false} FilterWeaker<T>(p: T -> bool, q: T -> bool, xs: seq<T>)
    requires forall x :: p(x) ==> q(x)
    ensures |Filter(p, xs)| <= |Filter(q, xs)|
  {
    if xs != [] {
      FilterWeaker(p, q, xs[1..]);
    }
  }

  /** Both predicates at once (`lambda x: p(x) and q(x)`). */
  function Both<T>(p: T -> bool, q: T -> bool): T -> bool
  {
    x => p(x) && q(x)
  }

  /** How many elements satisfy `p`, counted one by one. */
  function CountWhere<T>(p: T -> bool, xs: seq<T>): nat
  {
    if xs == [] then 0 else (if p(xs[0]) then 1 else 0) + CountWhere(p, xs[1..])
  }

  /** The length of a filtered list is the number of elements it keeps. */
  lemma {:induction false} FilterCounts<T>(p: T -> bool, xs: seq<T>)
    ensures |Filter(p, xs)| == CountWhere(p, xs)
  {
    if xs != [] {
      FilterCounts(p, xs[1..]);
    }
  }

  /** Filtering twice keeps what satisfies both predicates. */
  lemma {:induction false} FilterTwice<T>(p: T -> bool, q: T -> bool, xs: seq<T>)
    ensures Filter(q, Filter(p, xs)) == Filter(Both(p, q), xs)
  {
    if xs != [] {
      var head := if p(xs[0]) then [xs[0]] else [];
      FilterAppend(q, head, Filter(p, xs[1..]));
      FilterTwice(p, q, xs[1..]);
    }
  }

  /** Filters by predicates that agree everywhere keep the same elements. */
  lemma {:induction false} FilterSame<T>(p: T -> bool, q: T -> bool, xs: seq<T>)
    requires forall x :: p(x) == q(x)
    ensures Filter(p, xs) == Filter(q, xs)
  {
    if xs != [] {
      FilterSame(p, q, xs[1..]);
    }
  }

  /** A filter gives nothing exactly when no element satisfies the predicate. */
  lemma FilterEmpty<T>(p: T -> bool, xs: seq<T>)
    ensures Filter(p, xs) == [] <==> forall i :: 0 <= i < |xs| ==> !p(xs[i])
  {
    if Filter(p, xs) != [] {
      var x := Filter(p, xs)[0];
      assert x in xs && p(x);
    }
  }

  /** A list made element by element from `a + b` is the list made from `a`,
      then the one made from `b`. */
  lemma MapAppend<A, B>(f: A -> B, a: seq<A>, b: seq<A>, fa: seq<B>, fb: seq<B>, fab: seq<B>)
    requires |fa| == |a| && forall i :: 0 <= i < |a| ==> fa[i] == f(a[i])
    requires |fb| == |b| && forall i :: 0 <= i < |b| ==> fb[i] == f(b[i])
    requires |fab| == |a + b| && forall i :: 0 <= i < |a + b| ==> fab[i] == f((a + b)[i])
    ensures fab == fa + fb
  {
    forall i | 0 <= i < |fab| ensures fab[i] == (fa + fb)[i] {
      if i < |a| { assert (a + b)[i] == a[i]; } else { assert (a + b)[i] == b[i - |a|]; }
    }
  }

  /** Python's `list(filter(None, xs))` over results that are a record or `None`. */
  function Somes<T>(xs: seq<Option<T>>): (r: seq<T>)
    ensures |r| <= |xs|
    ensures forall i :: 0 <= i < |r| ==> Some(r[i]) in xs
    ensures forall i :: 0 <= i < |xs| && xs[i].Some? ==> xs[i].value in r
  {
    if xs == [] then [] else (if xs[0].Some? then [xs[0].value] else []) + Somes(xs[1..])
  }

  /** `filter(None, ...)` over two lists one after the other keeps the records
      of the first, then those of the second. */
  lemma {:induction false} SomesAppend<T>(xs: seq<Option<T>>, ys: seq<Option<T>>)
    ensures Somes(xs + ys) == Somes(xs) + Somes(ys)
  {
    if xs == [] {
      assert xs + ys == ys;
    } else {
      assert (xs + ys)[0] == xs[0] && (xs + ys)[1..] == xs[1..] + ys;
      SomesAppend(xs[1..], ys);
    }
  }

  /** One outcome: its record, or nothing for `None`. */
  lemma SomesOne<T>(x: Option<T>)
    ensures Somes([x]) == if x.Some? then [x.value] else []
  {
    assert [x][1..] == [];
  }

  /** The wait of `asyncio.gather`: every value, in position order, or the
      failure of one of them (the first in position order). */
  function GatherAll<T>(rs: seq<Result<T>>): (r: Result<seq<T>>)
    ensures r.Ok? <==> forall i :: 0 <= i < |rs| ==> rs[i].Ok?
    ensures r.Ok? ==> |r.value| == |rs| && forall i :: 0 <= i < |rs| ==> rs[i] == Ok(r.value[i])
    ensures r.Err? ==> Err(r.error) in rs
  {
    if rs == [] then Ok([])
    else match rs[0]
      case Err(e) => Err(e)
      case Ok(v) =>
        match GatherAll(rs[1..])
        case Err(e) => Err(e)
        case Ok(vs) => Ok([v] + vs)
  }

  /** `list(filter(None, await asyncio.gather(...)))`: every outcome must be a
      value; the `None`s among them are dropped and the rest kept in order. */
  function Collected<T>(outcomes: seq<Result<Option<T>>>): (r: Result<seq<T>>)
    ensures r.Ok? <==> forall i :: 0 <= i < |outcomes| ==> outcomes[i].Ok?
    ensures r.Ok? ==> |r.value| <= |outcomes|
    ensures r.Ok? ==> forall c :: c in r.value ==> Ok(Some(c)) in outcomes
    ensures r.Ok? ==> forall i :: 0 <= i < |outcomes| && outcomes[i].value.Some? ==> outcomes[i].value.value in r.value
    ensures r.Err? ==> Err(r.error) in outcomes
  {
    var all :- GatherAll(outcomes);
    assert forall c :: c in Somes(all) ==> Some(c) in all && Ok(Some(c)) in outcomes by {
      forall c | c in Somes(all) ensures Ok(Some(c)) in outcomes {
        var j :| 0 <= j < |all| && all[j] == Some(c);
        assert outcomes[j] == Ok(Some(c));
      }
    }
    Ok(Somes(all))
  }

  /** Waiting for two groups of tasks gives the values of the first group,
      then those of the second. */
  lemma {:induction false} GatherAppend<T>(a: seq<Result<T>>, b: seq<Result<T>>)
    requires GatherAll(a).Ok? && GatherAll(b).Ok?
    ensures GatherAll(a + b) == Ok(GatherAll(a).value + GatherAll(b).value)
  {
    if a == [] {
      assert a + b == b;
      assert GatherAll(a).value + GatherAll(b).value == GatherAll(b).value by {
        assert GatherAll(a).value == [];
      }
    } else {
      var x, ta := a[0], a[1..];
      assert a == [x] + ta;
      GatherUncons(x, ta);
      GatherAppend(ta, b);
      var vt, vb := GatherAll(ta).value, GatherAll(b).value;
      ConsAppend(x, ta, b);
      GatherCons(x, ta + b);
      ConsAppend(x.value, vt, vb);
    }
  }

  lemma ConsAppend<T>(x: T, xs: seq<T>, ys: seq<T>)
    ensures ([x] + xs) + ys == [x] + (xs + ys)
  {
  }

  /** The first outcome, then the rest. */
  lemma GatherCons<T>(x: Result<T>, rest: seq<Result<T>>)
    requires x.Ok? && GatherAll(rest).Ok?
    ensures GatherAll([x] + rest) == Ok([x.value] + GatherAll(rest).value)
  {
    assert ([x] + rest)[0] == x && ([x] + rest)[1..] == rest;
  }

  /** A gathering that succeeds succeeded on its first outcome and on the rest. */
  lemma GatherUncons<T>(x: Result<T>, rest: seq<Result<T>>)
    requires GatherAll([x] + rest).Ok?
    ensures x.Ok? && GatherAll(rest).Ok?
    ensures GatherAll([x] + rest) == Ok([x.value] + GatherAll(rest).value)
  {
    assert ([x] + rest)[0] == x && ([x] + rest)[1..] == rest;
  }

  /** Gathering two groups of outcomes that both succeed keeps the records of
      the first group, in order, followed by those of the second. */
  lemma CollectedAppend<T>(a: seq<Result<Option<T>>>, b: seq<Result<Option<T>>>)
    requires Collected(a).Ok? && Collected(b).Ok?
    ensures Collected(a + b) == Ok(Collected(a).value + Collected(b).value)
  {
    GatherAppend(a, b);
    SomesAppend(GatherAll(a).value, GatherAll(b).value);
  }

  /** One outcome: its error, its record, or nothing for `None`. */
  lemma CollectedOne<T>(o: Result<Option<T>>)
    ensures Collected([o]) == if o.Err? then Err(o.error) else Ok(if o.value.Some? then [o.value.value] else [])
  {
    assert [o][0] == o && [o][1..] == [];
    assert GatherAll([o][1..]) == Ok([]);
    if o.Ok? {
      var g := GatherAll([o]);
      assert g.Ok? && |g.value| == 1 && [o][0] == Ok(g.value[0]);
      assert g.value == [o.value];
      SomesOne(o.value);
    }
  }

  /** An outcome listed twice is counted twice. */
  lemma {:induction false} CollectedTwice<T>(c: T)
    ensures Collected([Ok(Some(c)), Ok(Some(c))]) == Ok([c, c])
  {
    var rs: seq<Result<Option<T>>> := [Ok(Some(c)), Ok(Some(c))];
    var g := GatherAll(rs);
    assert g.Ok? && |g.value| == 2 && rs[0] == Ok(g.value[0]) && rs[1] == Ok(g.value[1]);
    var all: seq<Option<T>> := [Some(c), Some(c)];
    assert g.value == all;
    assert all[1..] == [Some(c)] && all[1..][1..] == [];
    assert Somes(all) == [c, c];
  }
}
