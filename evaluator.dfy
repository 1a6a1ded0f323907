/**
 * The request evaluator of include/polarphp/ast/Evaluator.h.
 *
 * A request is evaluated by its registered request function, which may in
 * turn ask the evaluator for other requests. The evaluator keeps a stack of
 * the requests being evaluated (to detect cycles), a cache of results and,
 * for every request it has seen, the requests it asked for.
 *
 * Requests and values are type-erased (`AnyRequest`, `AnyValue`), so here
 * they are plain numbers. A request function is given as data: the
 * sub-requests it asks for, in order, and how it combines their results.
 */
module Evaluator {
  import opened Wrappers

  type Request = nat
  type Value = int

  /** `CyclicalRequestError`: the request that closed a cycle. */
  datatype EvalError = CyclicalRequest(request: Request)

  type Outcome = Result<Value, EvalError>

  /**
   * A registered request function together with the request's caching
   * policy: `isEverCached`, `isCached()` and `hasExternalCache`.
   */
  datatype RequestFunction = RequestFunction(
    subrequests: seq<Request>,
    combine: seq<Outcome> -> Outcome,
    isEverCached: bool,
    isCached: bool,
    hasExternalCache: bool)
  {
    /** Whether `getResult` goes through `getResultCached`. */
    predicate UsesCache()
    {
      isEverCached && isCached
    }
  }

  predicate Distinct(s: seq<Request>)
  {
    forall i, j :: 0 <= i < j < |s| ==> s[i] != s[j]
  }

  /** A repetition-free list drawn from a set is no longer than the set. */
  lemma {:induction false} DistinctWithin(s: seq<Request>, u: set<Request>)
    requires Distinct(s) && forall x :: x in s ==> x in u
    ensures |s| <= |u|
    decreases |s|
  {
    if |s| > 0 {
      var last := s[|s| - 1];
      var init := s[..|s| - 1];
      assert forall x :: x in init ==> x in u - {last} by {
        forall x | x in init ensures x in u - {last} {
          var i :| 0 <= i < |init| && init[i] == x;
          assert s[i] == x;
        }
      }
      DistinctWithin(init, u - {last});
    }
  }

  /** `evaluateOrDefault` once the evaluation is done: the default on a cycle, the result otherwise. */
  function OrDefault(outcome: Outcome, def: Value): (v: Value)
    ensures outcome.Err? ==> v == def
    ensures outcome.Ok? ==> v == outcome.value
  {
    match outcome
    case Ok(value) => value
    case Err(_) => def
  }

  /** Every registered function asks only for registered requests. */
  predicate ClosedTable(fs: map<Request, RequestFunction>)
  {
    forall r, i :: r in fs && 0 <= i < |fs[r].subrequests| ==> fs[r].subrequests[i] in fs
  }

  /** A stack of requests the table knows, without repetitions. */
  predicate StackOk(fs: map<Request, RequestFunction>, active: seq<Request>)
  {
    Distinct(active) && forall a :: a in active ==> a in fs
  }

  /**
   * What evaluating r means when nothing is cached: a request already on
   * the stack is a cycle; otherwise its function combines the outcomes of
   * its sub-requests, each evaluated with r pushed.
   */
  function Spec(fs: map<Request, RequestFunction>, active: seq<Request>, r: Request): Outcome
    requires ClosedTable(fs) && StackOk(fs, active) && r in fs
    decreases |fs.Keys| - |active|, 0
  {
    if r in active then Err(CyclicalRequest(r))
    else
      DistinctWithin(active + [r], fs.Keys);
      fs[r].combine(SpecAll(fs, active + [r], fs[r].subrequests))
  }

  /** The outcomes of the given sub-requests, in order. */
  function SpecAll(fs: map<Request, RequestFunction>, active: seq<Request>, subs: seq<Request>): (outcomes: seq<Outcome>)
    requires ClosedTable(fs) && StackOk(fs, active) && |active| <= |fs.Keys|
    requires forall i :: 0 <= i < |subs| ==> subs[i] in fs
    ensures |outcomes| == |subs|
    decreases |fs.Keys| - |active|, 1, |subs|
  {
    if |subs| == 0 then []
    else SpecAll(fs, active, subs[..|subs| - 1]) + [Spec(fs, active, subs[|subs| - 1])]
  }

  /** A set of requests that holds every sub-request of its members. */
  predicate ClosedUnder(fs: map<Request, RequestFunction>, deps: set<Request>)
  {
    forall x, i :: x in deps && x in fs && 0 <= i < |fs[x].subrequests| ==> fs[x].subrequests[i] in deps
  }

  /**
   * The outcome of r depends on the stack only through the requests r can
   * reach: two stacks that agree on those give the same outcome.
   */
  lemma {:induction false} SpecDependsOnReachable(fs: map<Request, RequestFunction>, deps: set<Request>,
                                                  active: seq<Request>, active': seq<Request>, r: Request)
    requires ClosedTable(fs) && StackOk(fs, active) && StackOk(fs, active') && r in fs
    requires r in deps && ClosedUnder(fs, deps)
    requires forall x :: x in deps ==> (x in active <==> x in active')
    ensures Spec(fs, active, r) == Spec(fs, active', r)
    decreases |fs.Keys| - |active|, 0
  {
    if r !in active {
      DistinctWithin(active + [r], fs.Keys);
      DistinctWithin(active' + [r], fs.Keys);
      SpecAllDependsOnReachable(fs, deps, active + [r], active' + [r], fs[r].subrequests);
    }
  }

  lemma {:induction false} SpecAllDependsOnReachable(fs: map<Request, RequestFunction>, deps: set<Request>,
                                                     active: seq<Request>, active': seq<Request>, subs: seq<Request>)
    requires ClosedTable(fs) && StackOk(fs, active) && StackOk(fs, active') && |active| <= |fs.Keys| && |active'| <= |fs.Keys|
    requires forall i :: 0 <= i < |subs| ==> subs[i] in fs && subs[i] in deps
    requires ClosedUnder(fs, deps)
    requires forall x :: x in deps ==> (x in active <==> x in active')
    ensures SpecAll(fs, active, subs) == SpecAll(fs, active', subs)
    decreases |fs.Keys| - |active|, 1, |subs|
  {
    if |subs| > 0 {
      SpecAllDependsOnReachable(fs, deps, active, active', subs[..|subs| - 1]);
      SpecDependsOnReachable(fs, deps, active, active', subs[|subs| - 1]);
    }
  }

  /**
   * Why a cached result may be reused: when nothing r can reach is being
   * evaluated, r's outcome is the one it has on an empty stack.
   */
  lemma OutcomeIndependentOfStack(fs: map<Request, RequestFunction>, deps: set<Request>, active: seq<Request>, r: Request)
    requires ClosedTable(fs) && StackOk(fs, active) && r in fs
    requires r in deps && ClosedUnder(fs, deps)
    requires forall x :: x in deps ==> x !in active
    ensures Spec(fs, active, r) == Spec(fs, [], r)
  {
    SpecDependsOnReachable(fs, deps, active, [], r);
  }

  /** Entries are never removed or changed, and no entry appears or disappears for a request on the stack. */
  ghost predicate CacheKept(before: map<Request, Value>, after: map<Request, Value>, active: seq<Request>)
  {
    (forall k :: k in before ==> k in after && after[k] == before[k]) &&
    (forall a :: a in active ==> (a in after <==> a in before))
  }

  /** The recorded dependencies of the given requests are as they were. */
  ghost predicate DependenciesKept(before: map<Request, seq<Request>>, after: map<Request, seq<Request>>, kept: seq<Request>)
  {
    forall a :: a in kept && a in before ==> a in after && after[a] == before[a]
  }

  /**
   * Asking for r while `active` is the stack: the request on top gains r as
   * its latest dependency, and the rest of the stack keeps theirs.
   */
  ghost predicate DependenciesRecorded(before: map<Request, seq<Request>>, after: map<Request, seq<Request>>,
                                       active: seq<Request>, r: Request)
  {
    |active| > 0 ==>
      var top := active[|active| - 1];
      (top in before ==> top in after && after[top] == before[top] + [r]) &&
      DependenciesKept(before, after, active[..|active| - 1])
  }

  class Evaluator {
    /** `requestFunctionsByZone`, one entry per request. */
    const functions: map<Request, RequestFunction>
    /** `activeRequests`: a stack without repetitions. */
    var activeRequests: seq<Request>
    /** `cache`: results of requests cached inside the evaluator. */
    var cache: map<Request, Value>
    /** The caches kept by requests with `hasExternalCache`. */
    var externalCache: map<Request, Value>
    /** `dependencies`: the requests each known request asked for. */
    var dependencies: map<Request, seq<Request>>

    /** Every registered function asks only for registered requests. */
    ghost predicate Closed()
    {
      ClosedTable(functions)
    }

    /** No registered request is ever cached. */
    ghost predicate NeverCached()
    {
      forall r :: r in functions ==> !functions[r].UsesCache()
    }

    ghost predicate Valid()
      reads this
    {
      Closed() && StackOk(functions, activeRequests) &&
      forall a :: a in activeRequests ==> a in dependencies
    }

    constructor (functions: map<Request, RequestFunction>)
      requires forall r, i :: r in functions && 0 <= i < |functions[r].subrequests| ==> functions[r].subrequests[i] in functions
      ensures Valid() && this.functions == functions
      ensures activeRequests == [] && cache == map[] && externalCache == map[] && dependencies == map[]
    {
      this.functions := functions;
      activeRequests := [];
      cache := map[];
      externalCache := map[];
      dependencies := map[];
    }

    /** `hasActiveRequest`: the request, or an equal one, is being evaluated. */
    predicate HasActiveRequest(r: Request)
      reads this
    {
      r in activeRequests
    }

    /** `clearCache`: the evaluator's own cache only; external caches stay. */
    method ClearCache()
      modifies this
      ensures cache == map[]
      ensures activeRequests == old(activeRequests) && externalCache == old(externalCache)
      ensures dependencies == old(dependencies)
    {
      cache := map[];
    }

    /**
     * `cacheOutput`: a precomputed value. The evaluator's cache inserts
     * without overwriting an existing entry; an external cache stores it.
     */
    method CacheOutput(r: Request, v: Value)
      requires r in functions
      modifies this
      ensures functions[r].hasExternalCache ==> externalCache == old(externalCache)[r := v] && cache == old(cache)
      ensures !functions[r].hasExternalCache ==>
                externalCache == old(externalCache) && cache == if r in old(cache) then old(cache) else old(cache)[r := v]
      ensures activeRequests == old(activeRequests) && dependencies == old(dependencies)
    {
      if functions[r].hasExternalCache {
        externalCache := externalCache[r := v];
      } else if r !in cache {
        cache := cache[r := v];
      }
    }

    /**
     * `operator()`: a request already being evaluated is a cycle and yields
     * `CyclicalRequestError` without evaluating anything; otherwise the
     * request is pushed, evaluated and popped.
     */
    method Evaluate(r: Request) returns (outcome: Outcome)
      requires Valid() && r in functions
      modifies this
      decreases |functions.Keys| - |activeRequests|, 0
      ensures Valid() && activeRequests == old(activeRequests)
      ensures r in dependencies && old(dependencies).Keys <= dependencies.Keys
      ensures r in old(activeRequests) ==>
                outcome == Err(CyclicalRequest(r)) && cache == old(cache) && externalCache == old(externalCache)
      ensures CacheKept(old(cache), cache, old(activeRequests)) && CacheKept(old(externalCache), externalCache, old(activeRequests))
      ensures DependenciesRecorded(old(dependencies), dependencies, old(activeRequests), r)
      ensures r !in old(activeRequests) ==> Cached(old(cache), old(externalCache), r, outcome)
      ensures NeverCached() ==> outcome == Spec(functions, old(activeRequests), r)
    {
      // getCanonicalRequest
      if r !in dependencies {
        dependencies := dependencies[r := []];
      }
      // checkDependency: record the edge from the current top, then detect a cycle
      if |activeRequests| > 0 {
        var top := activeRequests[|activeRequests| - 1];
        dependencies := dependencies[top := dependencies[top] + [r]];
      }
      if r in activeRequests {
        return Err(CyclicalRequest(r));
      }
      activeRequests := activeRequests + [r];
      DistinctWithin(activeRequests, functions.Keys);
      outcome := GetResult(r);
      activeRequests := activeRequests[..|activeRequests| - 1];
      assert activeRequests == old(activeRequests);
    }

    /** `evaluateOrDefault`: the supplied default when the request closes a cycle. */
    method EvaluateOrDefault(r: Request, def: Value) returns (v: Value)
      requires Valid() && r in functions
      modifies this
      ensures Valid() && activeRequests == old(activeRequests)
      ensures r in old(activeRequests) ==> v == def && cache == old(cache) && externalCache == old(externalCache)
      ensures NeverCached() ==> v == OrDefault(Spec(functions, old(activeRequests), r), def)
      ensures CacheKept(old(cache), cache, old(activeRequests)) && CacheKept(old(externalCache), externalCache, old(activeRequests))
    {
      var outcome := Evaluate(r);
      v := OrDefault(outcome, def);
    }

    /** What an evaluation of r does to a cache: r's entry as its policy says, no other entry removed or changed, and no active request's entry touched. */
    ghost predicate Cached(oldCache: map<Request, Value>, oldExternal: map<Request, Value>, r: Request, outcome: Outcome)
      reads this
      requires r in functions
    {
      var f := functions[r];
      if !f.UsesCache() then
        (r in cache <==> r in oldCache) && (r in externalCache <==> r in oldExternal)
      else if f.hasExternalCache then
        (r in oldExternal ==> outcome == Ok(oldExternal[r]) && r in externalCache && externalCache[r] == oldExternal[r]) &&
        (r !in oldExternal ==> (outcome.Ok? ==> r in externalCache && externalCache[r] == outcome.value) &&
                               (outcome.Err? ==> r !in externalCache)) &&
        (r in cache <==> r in oldCache)
      else
        (r in oldCache ==> outcome == Ok(oldCache[r])) &&
        (r !in oldCache ==> (outcome.Ok? ==> r in cache && cache[r] == outcome.value) &&
                            (outcome.Err? ==> r !in cache)) &&
        (r in externalCache <==> r in oldExternal)
    }

    /** `getResult`: through the cache when the request's policy says so. */
    method GetResult(r: Request) returns (outcome: Outcome)
      requires Valid() && r in functions && r in dependencies
      requires |activeRequests| > 0 && activeRequests[|activeRequests| - 1] == r
      requires |activeRequests| <= |functions.Keys|
      modifies this
      decreases |functions.Keys| - |activeRequests|, 3
      ensures Valid() && activeRequests == old(activeRequests)
      ensures old(dependencies).Keys <= dependencies.Keys
      ensures CacheKept(old(cache), cache, old(activeRequests[..|activeRequests| - 1]))
      ensures CacheKept(old(externalCache), externalCache, old(activeRequests[..|activeRequests| - 1]))
      ensures DependenciesKept(old(dependencies), dependencies, old(activeRequests[..|activeRequests| - 1]))
      ensures Cached(old(cache), old(externalCache), r, outcome)
      ensures NeverCached() ==> outcome == functions[r].combine(SpecAll(functions, old(activeRequests), functions[r].subrequests))
    {
      if functions[r].UsesCache() {
        outcome := GetResultCached(r);
      } else {
        ghost var subOutcomes: seq<Outcome>;
        outcome, subOutcomes := GetResultUncached(r);
      }
    }

    /**
     * `getResultCached`: a stored result is returned as it is; otherwise the
     * result is computed and stored only if it is a value.
     */
    method GetResultCached(r: Request) returns (outcome: Outcome)
      requires Valid() && r in functions && r in dependencies && functions[r].UsesCache()
      requires |activeRequests| > 0 && activeRequests[|activeRequests| - 1] == r
      requires |activeRequests| <= |functions.Keys|
      modifies this
      decreases |functions.Keys| - |activeRequests|, 2
      ensures Valid() && activeRequests == old(activeRequests)
      ensures old(dependencies).Keys <= dependencies.Keys
      ensures CacheKept(old(cache), cache, old(activeRequests[..|activeRequests| - 1]))
      ensures CacheKept(old(externalCache), externalCache, old(activeRequests[..|activeRequests| - 1]))
      ensures DependenciesKept(old(dependencies), dependencies, old(activeRequests[..|activeRequests| - 1]))
      ensures Cached(old(cache), old(externalCache), r, outcome)
    {
      if functions[r].hasExternalCache {
        if r in externalCache {
          return Ok(externalCache[r]);
        }
        ghost var subOutcomes: seq<Outcome>;
        outcome, subOutcomes := GetResultUncached(r);
        if outcome.Err? {
          return;
        }
        externalCache := externalCache[r := outcome.value];
      } else {
        if r in cache {
          return Ok(cache[r]);
        }
        ghost var subOutcomes: seq<Outcome>;
        outcome, subOutcomes := GetResultUncached(r);
        if outcome.Err? {
          return;
        }
        cache := cache[r := outcome.value];
      }
    }

    /**
     * `getResultUncached`: the request's recorded dependencies are cleared,
     * then its function runs, asking for each sub-request in turn; what it
     * asked for is what is recorded.
     */
    method GetResultUncached(r: Request) returns (outcome: Outcome, ghost subOutcomes: seq<Outcome>)
      requires Valid() && r in functions && r in dependencies
      requires |activeRequests| > 0 && activeRequests[|activeRequests| - 1] == r
      requires |activeRequests| <= |functions.Keys|
      modifies this
      decreases |functions.Keys| - |activeRequests|, 1
      ensures Valid() && activeRequests == old(activeRequests)
      ensures old(dependencies).Keys <= dependencies.Keys
      ensures CacheKept(old(cache), cache, old(activeRequests)) && CacheKept(old(externalCache), externalCache, old(activeRequests))
      ensures DependenciesKept(old(dependencies), dependencies, old(activeRequests[..|activeRequests| - 1]))
      ensures dependencies[r] == functions[r].subrequests
      ensures outcome == functions[r].combine(subOutcomes) && |subOutcomes| == |functions[r].subrequests|
      ensures NeverCached() ==> subOutcomes == SpecAll(functions, old(activeRequests), functions[r].subrequests)
      ensures r !in old(cache) ==> r !in cache
      ensures r !in old(externalCache) ==> r !in externalCache
    {
      dependencies := dependencies[r := []];
      var f := functions[r];
      var results: seq<Outcome> := [];
      for i := 0 to |f.subrequests|
        invariant Valid() && activeRequests == old(activeRequests)
        invariant old(dependencies).Keys <= dependencies.Keys && dependencies[r] == f.subrequests[..i]
        invariant |results| == i
        invariant CacheKept(old(cache), cache, old(activeRequests)) && CacheKept(old(externalCache), externalCache, old(activeRequests))
        invariant DependenciesKept(old(dependencies), dependencies, old(activeRequests[..|activeRequests| - 1]))
        invariant NeverCached() ==> results == SpecAll(functions, activeRequests, f.subrequests[..i])
      {
        var x := Evaluate(f.subrequests[i]);
        results := results + [x];
        assert f.subrequests[..i + 1] == f.subrequests[..i] + [f.subrequests[i]];
        assert f.subrequests[..i + 1][..i] == f.subrequests[..i];
      }
      assert f.subrequests[..|f.subrequests|] == f.subrequests;
      outcome := f.combine(results);
      subOutcomes := results;
    }
  }
}
