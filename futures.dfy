/**
 * The sequential fallback combinator `runFirstSuccessful` and the cause chain it inspects.
 *
 * A candidate is modelled by the completion its future would reach once invoked.
 * The combinator chains one `exceptionallyCompose` handler per further candidate; the
 * chain completes stage after stage, so it is modelled by evaluating the handlers in order.
 * `CompletableFuture` stores the failure of a dependent stage wrapped in a
 * `CompletionException` (unless it already is one), both when a handler throws and when it
 * relays the future it returned; a handler receives that stored throwable.
 */
module Futures {
  import opened Common
  import opened Exceptions

  /** `getCauseChain(t)`: `t`, then each successive `getCause()` until it is null. */
  function CauseChain(t: Throwable): (r: seq<Throwable>)
    ensures |r| >= 1 && r[0] == t
    ensures r[|r| - 1].cause.None?
    decreases t
  {
    match t.cause
    case None => [t]
    case Some(c) => [t] + CauseChain(c)
  }

  /** Each element of the cause chain has the next element as its cause. */
  lemma {:induction false} CauseChainLinks(t: Throwable)
    ensures var r := CauseChain(t);
      forall i :: 0 <= i < |r| - 1 ==> r[i].cause == Some(r[i + 1])
    decreases t
  {
    match t.cause
    case None =>
    case Some(c) =>
      CauseChainLinks(c);
      var r := CauseChain(t);
      forall i | 0 <= i < |r| - 1
        ensures r[i].cause == Some(r[i + 1])
      {
        if i > 0 {
          assert r[i] == CauseChain(c)[i - 1] && r[i + 1] == CauseChain(c)[i];
        }
      }
  }

  /**
   * `getCauseChain(t).anyMatch(accept)`, followed along the causes (see `AnyMatchIsChainMatch`
   * for the statement over the chain itself).
   */
  predicate AnyMatch(accept: Throwable -> bool, t: Throwable)
    decreases t
  {
    accept(t) || match t.cause { case None => false case Some(c) => AnyMatch(accept, c) }
  }

  /** `AnyMatch` holds exactly when some element of the cause chain is accepted. */
  lemma {:induction false} AnyMatchIsChainMatch(accept: Throwable -> bool, t: Throwable)
    ensures AnyMatch(accept, t) <==> exists i :: 0 <= i < |CauseChain(t)| && accept(CauseChain(t)[i])
    decreases t
  {
    var r := CauseChain(t);
    match t.cause
    case None =>
      assert r == [t];
    case Some(c) =>
      AnyMatchIsChainMatch(accept, c);
      assert r == [t] + CauseChain(c);
      if accept(t) {
        assert accept(CauseChain(t)[0]);
      } else if AnyMatch(accept, c) {
        var i :| 0 <= i < |CauseChain(c)| && accept(CauseChain(c)[i]);
        assert r[i + 1] == CauseChain(c)[i];
      } else {
        forall j | 0 <= j < |r|
          ensures !accept(r[j])
        {
          if j > 0 {
            assert r[j] == CauseChain(c)[j - 1];
          }
        }
      }
  }

  /** What the handler throws on a rejected failure: a RuntimeException as it is, anything else wrapped. */
  function Rethrown(t: Throwable): (r: Throwable)
    ensures IsRuntime(r.kind)
    ensures IsRuntime(t.kind) ==> r == t
    ensures !IsRuntime(t.kind) ==> r.kind == RuntimeError && r.cause == Some(t)
  {
    if IsRuntime(t.kind) then t else WrapIn(RuntimeError, t)
  }

  /** How a dependent stage stores a failure: wrapped in a CompletionException unless it is one. */
  function Encoded(t: Throwable): (r: Throwable)
    ensures r.kind == CompletionError
    ensures t.kind == CompletionError ==> r == t
    ensures t.kind != CompletionError ==> r.cause == Some(t)
  {
    if t.kind == CompletionError then t else WrapIn(CompletionError, t)
  }

  /** A future relayed through a dependent stage. */
  function Relayed<T>(o: Outcome<T>): Outcome<T> {
    match o
    case Ok(v) => Ok(v)
    case Err(t) => Err(Encoded(t))
  }

  /** The state of the chain after some stages: its completion and the candidates invoked, in order. */
  datatype Progress<T> = Progress(result: Outcome<T>, invoked: seq<nat>)

  /** One `exceptionallyCompose` stage whose supplier is candidate `index`. */
  function Stage<T>(accept: Throwable -> bool, p: Progress<T>, candidate: Outcome<T>, index: nat): Progress<T> {
    match p.result
    case Ok(_) => p
    case Err(t) =>
      if AnyMatch(accept, t) then Progress(Relayed(candidate), p.invoked + [index])
      else Progress(Err(Encoded(Rethrown(t))), p.invoked)
  }

  /** The chain over the first `n` candidates; the first is invoked unconditionally. */
  function Chain<T>(accept: Throwable -> bool, candidates: seq<Outcome<T>>, n: nat): Progress<T>
    requires 1 <= n <= |candidates|
  {
    if n == 1 then Progress(candidates[0], [0])
    else Stage(accept, Chain(accept, candidates, n - 1), candidates[n - 1], n - 1)
  }

  /** What calling `runFirstSuccessful` does: throw at once, or return a future. */
  datatype Call<T> = Threw(exception: Throwable) | Returned(future: Outcome<T>)

  /**
   * `runFirstSuccessful(accept, candidates)`. An empty list makes the first `iter.next()`
   * throw; otherwise the first candidate is invoked and one handler is attached per
   * remaining candidate, and the handlers run in order as the chain completes.
   */
  method RunFirstSuccessful<T>(accept: Throwable -> bool, candidates: seq<Outcome<T>>)
    returns (call: Call<T>, invoked: seq<nat>)
    ensures candidates == [] ==> call.Threw? && call.exception.kind == NoSuchElementError && invoked == []
    ensures candidates != [] ==>
      var p := Chain(accept, candidates, |candidates|);
      call == Returned(p.result) && invoked == p.invoked
  {
    if |candidates| == 0 {
      return Threw(Throwable(NoSuchElementError, NoMessage, None)), [];
    }
    var future := candidates[0];
    invoked := [0];
    var i := 1;
    while i < |candidates|
      invariant 1 <= i <= |candidates|
      invariant Progress(future, invoked) == Chain(accept, candidates, i)
    {
      if future.Err? {
        var throwable := future.error;
        if AnyMatch(accept, throwable) {
          future := Relayed(candidates[i]);
          invoked := invoked + [i];
        } else {
          future := Err(Encoded(Rethrown(throwable)));
        }
      }
      i := i + 1;
    }
    call := Returned(future);
  }

  /** The throwable handler `k` (for candidate `k`) receives when candidate `k - 1` failed with `t`. */
  function Seen(k: nat, t: Throwable): Throwable {
    if k == 1 then t else Encoded(t)
  }

  /** The predicate never accepts the wrappers the chain itself introduces. */
  ghost predicate RejectsWrappers(accept: Throwable -> bool) {
    forall t: Throwable :: t.kind == RuntimeError || t.kind == CompletionError ==> !accept(t)
  }

  /** When wrappers are rejected, wrapping a failure for the next stage does not change whether it matches. */
  lemma EncodedMatch(accept: Throwable -> bool, t: Throwable)
    requires RejectsWrappers(accept)
    ensures AnyMatch(accept, Encoded(t)) <==> AnyMatch(accept, t)
    ensures AnyMatch(accept, Encoded(Rethrown(t))) <==> AnyMatch(accept, t)
  {
    assert !accept(Encoded(t)) && !accept(Encoded(Rethrown(t)));
    if !IsRuntime(t.kind) {
      assert !accept(Rethrown(t));
    }
  }

  /**
   * Whatever the predicate, candidates are invoked at most once each, in increasing order,
   * starting with the first.
   */
  lemma {:induction false} InvokedInOrder<T>(accept: Throwable -> bool, candidates: seq<Outcome<T>>, n: nat)
    requires 1 <= n <= |candidates|
    ensures var inv := Chain(accept, candidates, n).invoked;
      && 1 <= |inv| <= n && inv[0] == 0
      && (forall j :: 0 <= j < |inv| ==> inv[j] < n)
      && (forall i, j :: 0 <= i < j < |inv| ==> inv[i] < inv[j])
  {
    if n > 1 {
      InvokedInOrder(accept, candidates, n - 1);
    }
  }

  /** A failure that no later handler will resume: stored as a CompletionException that matches nowhere. */
  ghost predicate Stuck<T>(accept: Throwable -> bool, o: Outcome<T>) {
    o.Err? && o.error.kind == CompletionError && !AnyMatch(accept, o.error)
  }

  /**
   * With wrappers rejected, the invoked candidates are exactly the first few; when not all
   * were invoked, the chain either succeeded or holds a failure no handler resumes; and when
   * all were, the chain holds the last candidate's completion.
   */
  lemma {:induction false} ChainShape<T>(accept: Throwable -> bool, candidates: seq<Outcome<T>>, n: nat)
    requires RejectsWrappers(accept)
    requires 1 <= n <= |candidates|
    ensures var p := Chain(accept, candidates, n);
      && 1 <= |p.invoked| <= n
      && (forall j :: 0 <= j < |p.invoked| ==> p.invoked[j] == j)
      && (|p.invoked| < n ==> p.result.Ok? || Stuck(accept, p.result))
      && (|p.invoked| == n ==> p.result == if n == 1 then candidates[0] else Relayed(candidates[n - 1]))
  {
    if n > 1 {
      ChainShape(accept, candidates, n - 1);
      var p := Chain(accept, candidates, n - 1);
      if p.result.Err? && !AnyMatch(accept, p.result.error) {
        EncodedMatch(accept, p.result.error);
      }
    }
  }

  /** With wrappers rejected, the invoked candidates always form a prefix of the list. */
  lemma {:induction false} InvokedIsPrefix<T>(accept: Throwable -> bool, candidates: seq<Outcome<T>>)
    requires RejectsWrappers(accept)
    requires |candidates| >= 1
    ensures var inv := Chain(accept, candidates, |candidates|).invoked;
      1 <= |inv| <= |candidates| && forall j :: 0 <= j < |inv| ==> inv[j] == j
  {
    ChainShape(accept, candidates, |candidates|);
  }

  /** Later stages only append to the invoked candidates. */
  lemma {:induction false} InvokedGrows<T>(accept: Throwable -> bool, candidates: seq<Outcome<T>>, m: nat, n: nat)
    requires 1 <= m <= n <= |candidates|
    ensures var a, b := Chain(accept, candidates, m).invoked, Chain(accept, candidates, n).invoked;
      |a| <= |b| && b[..|a|] == a
  {
    if m < n {
      InvokedGrows(accept, candidates, m, n - 1);
    }
  }

  /** A candidate that is invoked and succeeds is the last one invoked, and its value is the result. */
  lemma {:induction false} SuccessIsFinal<T>(accept: Throwable -> bool, candidates: seq<Outcome<T>>, n: nat, k: nat)
    requires 1 <= n <= |candidates| && k < n
    requires k in Chain(accept, candidates, n).invoked
    requires candidates[k].Ok?
    ensures var p := Chain(accept, candidates, n);
      p.result == Ok(candidates[k].value) && p.invoked[|p.invoked| - 1] == k
  {
    if n > 1 {
      var p := Chain(accept, candidates, n - 1);
      InvokedInOrder(accept, candidates, n - 1);
      if k in p.invoked {
        SuccessIsFinal(accept, candidates, n - 1, k);
      }
    }
  }

  /**
   * With wrappers rejected, candidate `k` is invoked exactly when candidate `k - 1` was invoked
   * and failed with a throwable whose cause chain has an element the predicate accepts.
   */
  lemma {:induction false} ContinuesIffMatch<T>(accept: Throwable -> bool, candidates: seq<Outcome<T>>, k: nat)
    requires RejectsWrappers(accept)
    requires 1 <= k < |candidates|
    ensures var inv := Chain(accept, candidates, |candidates|).invoked;
      k < |inv| <==>
        k - 1 < |inv| && candidates[k - 1].Err? && AnyMatch(accept, candidates[k - 1].error)
  {
    var n := |candidates|;
    ChainShape(accept, candidates, n);
    ChainShape(accept, candidates, k);
    ChainShape(accept, candidates, k + 1);
    InvokedGrows(accept, candidates, k, n);
    InvokedGrows(accept, candidates, k + 1, n);
    if |Chain(accept, candidates, k).invoked| < k {
      StuckPersists(accept, candidates, k, n);
    }
    if |Chain(accept, candidates, k + 1).invoked| < k + 1 {
      StuckPersists(accept, candidates, k + 1, n);
    }
    if candidates[k - 1].Err? {
      EncodedMatch(accept, candidates[k - 1].error);
    }
  }

  /**
   * With wrappers rejected, a non-matching failure of an invoked candidate that is not the last
   * stops the chain: nothing later is invoked, and the failure propagates wrapped only as the
   * Java code wraps it (a checked throwable in a RuntimeException, then in a CompletionException).
   */
  lemma {:induction false} RejectionStops<T>(accept: Throwable -> bool, candidates: seq<Outcome<T>>, k: nat)
    requires RejectsWrappers(accept)
    requires k + 1 < |candidates|
    requires k in Chain(accept, candidates, |candidates|).invoked
    requires candidates[k].Err? && !AnyMatch(accept, candidates[k].error)
    ensures var p := Chain(accept, candidates, |candidates|);
      var t := candidates[k].error;
      && |p.invoked| == k + 1
      && p.result == Err(if k == 0 then Encoded(Rethrown(t)) else Encoded(t))
  {
    var n := |candidates|;
    var t := candidates[k].error;
    var inv := Chain(accept, candidates, n).invoked;
    assert k < |inv| by {
      ChainShape(accept, candidates, n);
      var j :| 0 <= j < |inv| && inv[j] == k;
    }
    var p1 := InvokedThrough(accept, candidates, k);
    var seen := Seen(k + 1, t);
    assert p1.result == Err(seen);
    assert !AnyMatch(accept, seen) by {
      EncodedMatch(accept, t);
    }
    RejectedStage(accept, candidates, k + 2, seen);
    StuckPersists(accept, candidates, k + 2, n);
    if k > 0 {
      assert seen == Encoded(t) && seen.kind == CompletionError;
      assert Rethrown(seen) == seen;
    }
  }

  /**
   * With wrappers rejected, when a candidate is invoked in the end, the chain up to it has
   * invoked exactly the candidates up to it and holds that candidate's completion as relayed.
   */
  lemma InvokedThrough<T>(accept: Throwable -> bool, candidates: seq<Outcome<T>>, k: nat) returns (p: Progress<T>)
    requires RejectsWrappers(accept)
    requires k < |candidates|
    requires k < |Chain(accept, candidates, |candidates|).invoked|
    ensures p == Chain(accept, candidates, k + 1)
    ensures |p.invoked| == k + 1
    ensures p.result == if k == 0 then candidates[0] else Relayed(candidates[k])
  {
    p := Chain(accept, candidates, k + 1);
    ChainShape(accept, candidates, k + 1);
    if |p.invoked| < k + 1 {
      StuckPersists(accept, candidates, k + 1, |candidates|);
    }
  }

  /** A failure the predicate rejects: the handler rethrows it and no later handler resumes it. */
  lemma RejectedStage<T>(accept: Throwable -> bool, candidates: seq<Outcome<T>>, n: nat, t: Throwable)
    requires RejectsWrappers(accept)
    requires 2 <= n <= |candidates|
    requires Chain(accept, candidates, n - 1).result == Err(t) && !AnyMatch(accept, t)
    ensures Chain(accept, candidates, n) == Progress(Err(Encoded(Rethrown(t))), Chain(accept, candidates, n - 1).invoked)
    ensures Stuck(accept, Chain(accept, candidates, n).result)
  {
    EncodedMatch(accept, t);
  }

  /** A stuck failure is carried unchanged through every later stage. */
  lemma {:induction false} StuckPersists<T>(accept: Throwable -> bool, candidates: seq<Outcome<T>>, m: nat, n: nat)
    requires 1 <= m <= n <= |candidates|
    requires Stuck(accept, Chain(accept, candidates, m).result) || Chain(accept, candidates, m).result.Ok?
    ensures Chain(accept, candidates, n) == Chain(accept, candidates, m)
  {
    if m < n {
      StuckPersists(accept, candidates, m, n - 1);
    }
  }

  /** The last candidate's failure is never checked against the predicate: it is the result. */
  lemma {:induction false} LastFailurePropagates<T>(accept: Throwable -> bool, candidates: seq<Outcome<T>>)
    requires |candidates| >= 1
    requires |candidates| - 1 in Chain(accept, candidates, |candidates|).invoked
    requires candidates[|candidates| - 1].Err?
    ensures var t := candidates[|candidates| - 1].error;
      Chain(accept, candidates, |candidates|).result == Err(if |candidates| == 1 then t else Encoded(t))
  {
    var n := |candidates|;
    if n > 1 {
      var p := Chain(accept, candidates, n - 1);
      InvokedInOrder(accept, candidates, n - 1);
      assert n - 1 !in p.invoked;
      assert Chain(accept, candidates, n) == Stage(accept, p, candidates[n - 1], n - 1);
      assert p.result.Err? && AnyMatch(accept, p.result.error);
    }
  }

  /**
   * As written, a rejected failure is rethrown into the chain and examined again by every later
   * handler, together with the wrappers added on the way. A predicate that accepts a
   * RuntimeException thus resumes the chain one stage later: candidate 1 is skipped and
   * candidate 2 runs.
   */
  lemma RejectedFailureResumedLater()
    ensures var accept := (t: Throwable) => t.kind == RuntimeError;
      var cs: seq<Outcome<int>> := [Err(Raise(IOError, "closed")), Ok(1), Ok(2)];
      Chain(accept, cs, 3) == Progress(Ok(2), [0, 2])
  {
  }

  /**
   * The evidently intended combinator: a handler examines only the failure of the candidate just
   * tried, and a rejected failure ends the attempt. Starting at candidate `k`.
   */
  function Attempt<T>(accept: Throwable -> bool, candidates: seq<Outcome<T>>, k: nat): (p: Progress<T>)
    requires k < |candidates|
    ensures 1 <= |p.invoked| <= |candidates| - k
    ensures forall j :: 0 <= j < |p.invoked| ==> p.invoked[j] == k + j
    decreases |candidates| - k
  {
    if k == |candidates| - 1 then Progress(candidates[k], [k])
    else match candidates[k]
      case Ok(v) => Progress(Ok(v), [k])
      case Err(t) =>
        if AnyMatch(accept, t) then
          var rest := Attempt(accept, candidates, k + 1);
          Progress(rest.result, [k] + rest.invoked)
        else Progress(Err(t), [k])
  }

  /** For every predicate, the intended combinator moves past candidate `j` exactly when its failure matches. */
  lemma {:induction false} AttemptContinuesIffMatch<T>(accept: Throwable -> bool, candidates: seq<Outcome<T>>, k: nat, j: nat)
    requires k <= j && j + 1 < |candidates|
    ensures var inv := Attempt(accept, candidates, k).invoked;
      j + 1 - k < |inv| <==> j - k < |inv| && candidates[j].Err? && AnyMatch(accept, candidates[j].error)
    decreases j - k
  {
    if k < j && candidates[k].Err? && AnyMatch(accept, candidates[k].error) {
      AttemptContinuesIffMatch(accept, candidates, k + 1, j);
    }
  }

  /** When the predicate rejects the wrappers, the chain as written invokes the same candidates as intended. */
  lemma {:induction false} AgreesWhenWrappersRejected<T>(accept: Throwable -> bool, candidates: seq<Outcome<T>>)
    requires RejectsWrappers(accept)
    requires |candidates| >= 1
    ensures Chain(accept, candidates, |candidates|).invoked == Attempt(accept, candidates, 0).invoked
  {
    var n := |candidates|;
    var a, b := Chain(accept, candidates, n).invoked, Attempt(accept, candidates, 0).invoked;
    InvokedIsPrefix(accept, candidates);
    if |a| < |b| {
      SameInvokedLength(accept, candidates, |a|);
    } else if |b| < |a| {
      SameInvokedLength(accept, candidates, |b|);
    }
    assert |a| == |b| && forall j :: 0 <= j < |a| ==> a[j] == b[j];
  }

  /** Below any index, the two combinators agree on which candidates are invoked. */
  lemma {:induction false} SameInvokedLength<T>(accept: Throwable -> bool, candidates: seq<Outcome<T>>, m: nat)
    requires RejectsWrappers(accept)
    requires 1 <= |candidates| && m < |candidates|
    ensures var a, b := Chain(accept, candidates, |candidates|).invoked, Attempt(accept, candidates, 0).invoked;
      m < |a| <==> m < |b|
  {
    InvokedIsPrefix(accept, candidates);
    if m > 0 {
      SameInvokedLength(accept, candidates, m - 1);
      ContinuesIffMatch(accept, candidates, m);
      AttemptContinuesIffMatch(accept, candidates, 0, m - 1);
    }
  }
}
