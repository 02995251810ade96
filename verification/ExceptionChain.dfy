/** Walking an exception's causes, which may loop, and the decision to stop the worker. */
module ExceptionChain {
  import opened Text

  /** The causes and contexts of exceptions, by object identity. */
  datatype Links = Links(cause: map<int, int>, context: map<int, int>)

  /** `exc.__cause__ or exc.__context__`. */
  function Next(links: Links, e: int): (r: Option<int>) {
    if e in links.cause then Some(links.cause[e])
    else if e in links.context then Some(links.context[e])
    else None
  }

  /** The exception `n` links away, if the chain is that long. */
  function Nth(links: Links, e: int, n: nat): (r: Option<int>)
    decreases n
  {
    if n == 0 then Some(e)
    else match Next(links, e) case None => None case Some(x) => Nth(links, x, n - 1)
  }

  /** The explicit cause comes first; the context counts only without one. */
  lemma NextExactly(links: Links, e: int)
    ensures e in links.cause ==> Next(links, e) == Some(links.cause[e])
    ensures e !in links.cause && e in links.context ==> Next(links, e) == Some(links.context[e])
    ensures Next(links, e).None? <==> e !in links.cause && e !in links.context
  {
  }

  /** Everything the chain can ever reach. */
  ghost predicate Reaches(links: Links, e: int, x: int) { exists n: nat :: Nth(links, e, n) == Some(x) }

  ghost predicate Linked(links: Links, chain: seq<int>) {
    forall i :: 0 <= i < |chain| - 1 ==> Next(links, chain[i]) == Some(chain[i + 1])
  }

  ghost predicate Distinct(chain: seq<int>) { forall i, j :: 0 <= i < j < |chain| ==> chain[i] != chain[j] }

  lemma {:induction false} NthStep(links: Links, e: int, n: nat)
    ensures Nth(links, e, n + 1) == match Nth(links, e, n) case None => None case Some(x) => Next(links, x)
    decreases n
  {
    if n > 0 {
      match Next(links, e)
      case None =>
      case Some(x) => NthStep(links, x, n - 1);
    }
  }

  lemma {:induction false} ChainIsNth(links: Links, chain: seq<int>, i: nat)
    requires Linked(links, chain) && i < |chain|
    ensures Nth(links, chain[0], i) == Some(chain[i])
  {
    if i > 0 {
      ChainIsNth(links, chain, i - 1);
      NthStep(links, chain[0], i - 1);
    }
  }

  /** Once the walk ends or meets an exception it has seen, nothing new can follow. */
  lemma {:induction false} ClosedChain(links: Links, chain: seq<int>, n: nat)
    requires chain != [] && Linked(links, chain)
    requires var last := Next(links, chain[|chain| - 1]); last.None? || last.value in chain
    ensures Nth(links, chain[0], n).Some? ==> Nth(links, chain[0], n).value in chain
  {
    if n > 0 {
      ClosedChain(links, chain, n - 1);
      NthStep(links, chain[0], n - 1);
      if Nth(links, chain[0], n - 1).Some? {
        var i :| 0 <= i < |chain| && chain[i] == Nth(links, chain[0], n - 1).value;
        assert i < |chain| - 1 ==> Next(links, chain[i]) == Some(chain[i + 1]);
      }
    }
  }

  /** A closed chain holds exactly what is reachable from its head. */
  lemma ChainIsReachable(links: Links, chain: seq<int>, x: int)
    requires chain != [] && Linked(links, chain)
    requires var last := Next(links, chain[|chain| - 1]); last.None? || last.value in chain
    ensures x in chain <==> Reaches(links, chain[0], x)
  {
    if x in chain {
      var i: nat :| i < |chain| && chain[i] == x;
      ChainIsNth(links, chain, i);
    }
    if Reaches(links, chain[0], x) {
      var n: nat :| Nth(links, chain[0], n) == Some(x);
      ClosedChain(links, chain, n);
    }
  }

  lemma Extended(links: Links, chain: seq<int>, x: int)
    requires Linked(links, chain) && Distinct(chain) && x !in chain
    requires chain != [] ==> Next(links, chain[|chain| - 1]) == Some(x)
    ensures Linked(links, chain + [x]) && Distinct(chain + [x])
  {
    hide Next;
  }

  /** Every exception the walk can meet. */
  ghost function Universe(links: Links, exc: int): (r: set<int>)
  {
    {exc} + links.cause.Values + links.context.Values
  }

  lemma InUniverse(links: Links, exc: int, e: int)
    ensures exc in Universe(links, exc)
    ensures Next(links, e).Some? ==> Next(links, e).value in Universe(links, exc)
  {
  }

  /** The walk's variables between two turns. */
  ghost predicate Walking(links: Links, exc: int, chain: seq<int>, seen: set<int>, current: Option<int>) {
    && (if chain == [] then current == Some(exc) else chain[0] == exc && current == Next(links, chain[|chain| - 1]))
    && (current.Some? ==> current.value in Universe(links, exc))
    && Linked(links, chain) && Distinct(chain)
    && (forall x :: x in seen <==> x in chain)
  }

  lemma WalkStep(links: Links, exc: int, chain: seq<int>, seen: set<int>, x: int)
    requires Walking(links, exc, chain, seen, Some(x)) && x !in seen
    ensures Walking(links, exc, chain + [x], seen + {x}, Next(links, x))
    ensures Universe(links, exc) - (seen + {x}) < Universe(links, exc) - seen
  {
    hide Linked, Distinct;
    Extended(links, chain, x);
    InUniverse(links, exc, x);
  }

  lemma WalkDone(links: Links, exc: int, chain: seq<int>, seen: set<int>, current: Option<int>)
    requires Walking(links, exc, chain, seen, current) && (current.None? || current.value in seen)
    ensures chain != [] && chain[0] == exc && Linked(links, chain) && Distinct(chain)
    ensures forall x :: x in chain <==> Reaches(links, exc, x)
  {
    if current.Some? {
      var c := current.value;
      assert c in seen;
      assert c in chain;
    }
    assert chain != [];
    hide Linked, Distinct, Next, Reaches;
    forall x ensures x in chain <==> Reaches(links, exc, x) { ChainIsReachable(links, chain, x); }
  }

  /** The walk terminates on every graph of links, cyclic ones included, and visits each reachable
      exception exactly once. */
  method IterExceptionChain(links: Links, exc: int) returns (chain: seq<int>)
    ensures chain != [] && chain[0] == exc && Linked(links, chain) && Distinct(chain)
    ensures forall x :: x in chain <==> Reaches(links, exc, x)
  {
    chain := [];
    var seen: set<int> := {};
    var current := Some(exc);
    InUniverse(links, exc, exc);
    assert Walking(links, exc, chain, seen, current);
    hide Walking, Next, Universe;
    while current.Some? && current.value !in seen
      invariant Walking(links, exc, chain, seen, current)
      decreases Universe(links, exc) - seen
    {
      WalkStep(links, exc, chain, seen, current.value);
      chain := chain + [current.value];
      seen := seen + {current.value};
      current := Next(links, current.value);
    }
    WalkDone(links, exc, chain, seen, current);
  }

  /** The worker stops iff an exception of the Spark runtime is anywhere behind the failure. */
  method ShouldFailClosedWorker(links: Links, exc: int, sparkRuntime: set<int>) returns (stop: bool)
    ensures stop <==> exists x :: x in sparkRuntime && Reaches(links, exc, x)
  {
    var chain := IterExceptionChain(links, exc);
    stop := false;
    for i := 0 to |chain|
      invariant stop <==> exists k :: 0 <= k < i && chain[k] in sparkRuntime
    {
      if chain[i] in sparkRuntime {
        stop := true;
      }
    }
    if x :| x in sparkRuntime && Reaches(links, exc, x) {
      assert x in chain;
    }
  }
}
