/**
 * The collection loop of `main`: every URL is submitted to a worker pool and
 * the futures are drained in completion order on one thread. A future that
 * returned contributes its outcome; one that raised is logged and dropped.
 * The pool is not modelled: the completion order and each future's fate are
 * inputs, so every interleaving the pool could produce is covered.
 */
module Scheduler {
  import opened Wrappers
  import opened Prober

  /** How the future of one URL ended: `test_shellshock` returned, or raised a fault. */
  datatype Fate =
    | Returned(response: Response)
    | Raised(fault: string)

  /** The submission indices `0 .. n-1`. */
  function Range(n: nat): (r: seq<nat>)
    ensures |r| == n && forall k | 0 <= k < n :: r[k] == k
  {
    seq(n, k => k)
  }

  /** `order` lists every submitted future exactly once, as `as_completed` yields them. */
  ghost predicate IsCompletionOrder(order: seq<nat>, n: nat) {
    multiset(order) == multiset(Range(n))
  }

  ghost predicate InBounds(order: seq<nat>, n: nat) {
    forall k | 0 <= k < |order| :: order[k] < n
  }

  lemma CompletionOrderInBounds(order: seq<nat>, n: nat)
    requires IsCompletionOrder(order, n)
    ensures InBounds(order, n) && |order| == n
  {
    forall k | 0 <= k < |order| ensures order[k] < n {
      assert order[k] in multiset(order);
      assert order[k] in Range(n);
    }
    assert |multiset(order)| == |order|;
  }

  /** Finds the first element of `s` in its permutation `t`, and what surrounds it there. */
  lemma Unpick<T>(s: seq<T>, t: seq<T>) returns (p: seq<T>, q: seq<T>)
    requires s != [] && multiset(s) == multiset(t)
    ensures t == p + [s[0]] + q
    ensures multiset(s[1..]) == multiset(p + q)
  {
    var x := s[0];
    assert x in multiset(t);
    var j :| 0 <= j < |t| && t[j] == x;
    p, q := t[..j], t[j + 1..];
    assert t == p + [x] + q;
    assert s == [x] + s[1..];
    calc {
      multiset{x} + multiset(s[1..]);
      multiset(s);
      multiset(t);
      multiset{x} + multiset(p + q);
    }
    assert multiset(s[1..]) == multiset(p + q) by {
      forall y ensures multiset(s[1..])[y] == multiset(p + q)[y] {
        assert (multiset{x} + multiset(s[1..]))[y] == (multiset{x} + multiset(p + q))[y];
      }
    }
  }

  lemma InBoundsParts(p: seq<nat>, mid: seq<nat>, q: seq<nat>, n: nat)
    requires InBounds(p + mid + q, n)
    ensures InBounds(p, n) && InBounds(mid, n) && InBounds(q, n) && InBounds(p + q, n)
  {
    var s := p + mid + q;
    forall k | 0 <= k < |p| ensures p[k] < n { assert s[k] == p[k]; }
    forall k | 0 <= k < |mid| ensures mid[k] < n { assert s[|p| + k] == mid[k]; }
    forall k | 0 <= k < |q| ensures q[k] < n { assert s[|p| + |mid| + k] == q[k]; }
  }

  lemma InBoundsPrefix(order: seq<nat>, k: nat, n: nat)
    requires InBounds(order, n) && k <= |order|
    ensures InBounds(order[..k], n)
  {
  }

  /** The results list after the futures in `order` have been drained. */
  function Collected(urls: seq<string>, fates: seq<Fate>, order: seq<nat>): seq<Outcome>
    requires |fates| == |urls| && InBounds(order, |urls|)
  {
    if order == [] then []
    else
      var n := |order| - 1;
      var i := order[n];
      var before := Collected(urls, fates, order[..n]);
      match fates[i]
      case Returned(response) => before + [TestShellshock(urls[i], response)]
      case Raised(_) => before
  }

  /** The URLs whose fault was logged, in the order the log lines appear. */
  function Faulted(urls: seq<string>, fates: seq<Fate>, order: seq<nat>): seq<string>
    requires |fates| == |urls| && InBounds(order, |urls|)
  {
    if order == [] then []
    else
      var n := |order| - 1;
      var i := order[n];
      var before := Faulted(urls, fates, order[..n]);
      if fates[i].Raised? then before + [urls[i]] else before
  }

  /** The URLs of the futures in `order`, in that order. */
  function Submitted(urls: seq<string>, order: seq<nat>): seq<string>
    requires InBounds(order, |urls|)
  {
    if order == [] then [] else Submitted(urls, order[..|order| - 1]) + [urls[order[|order| - 1]]]
  }

  /** The URL column of a results list. */
  function UrlsOf(results: seq<Outcome>): (us: seq<string>)
    ensures |us| == |results| && forall k | 0 <= k < |results| :: us[k] == results[k].url
  {
    if results == [] then [] else UrlsOf(results[..|results| - 1]) + [results[|results| - 1].url]
  }

  lemma UrlsOfSnoc(results: seq<Outcome>, o: Outcome)
    ensures UrlsOf(results + [o]) == UrlsOf(results) + [o.url]
  {
    assert (results + [o])[..|results|] == results;
  }

  /**
   * `main`: drains the futures in completion order, appending the outcome of
   * each one that returned and logging the URL of each one that raised.
   */
  method CollectResults(urls: seq<string>, fates: seq<Fate>, order: seq<nat>)
      returns (results: seq<Outcome>, faulted: seq<string>)
    requires |fates| == |urls| && IsCompletionOrder(order, |urls|)
    ensures InBounds(order, |urls|)
    ensures results == Collected(urls, fates, order)
    ensures faulted == Faulted(urls, fates, order)
    ensures |results| + |faulted| == |urls|
    ensures multiset(UrlsOf(results)) + multiset(faulted) == multiset(urls)
    ensures forall k | 0 <= k < |results| :: results[k].url in urls
    ensures forall k | 0 <= k < |faulted| :: faulted[k] in urls
  {
    CompletionOrderInBounds(order, |urls|);
    results, faulted := [], [];
    var k := 0;
    while k < |order|
      invariant 0 <= k <= |order| && InBounds(order[..k], |urls|)
      invariant results == Collected(urls, fates, order[..k])
      invariant faulted == Faulted(urls, fates, order[..k])
      invariant |results| + |faulted| == k
    {
      assert order[..k + 1][..k] == order[..k];
      InBoundsPrefix(order, k + 1, |urls|);
      var i := order[k];
      match fates[i] {
        case Returned(response) =>
          results := results + [TestShellshock(urls[i], response)];
        case Raised(_) =>
          faulted := faulted + [urls[i]];
      }
      k := k + 1;
    }
    assert order[..k] == order;
    EveryUrlAccountedFor(urls, fates, order);
    SubmittedIsPermutation(urls, order);
    CollectedFromSubmitted(urls, fates, order);
  }

  /**
   * Each drained future leaves exactly one trace: its URL is either that of
   * an appended outcome or that of a logged fault.
   */
  lemma {:induction false} EveryUrlAccountedFor(urls: seq<string>, fates: seq<Fate>, order: seq<nat>)
    requires |fates| == |urls| && InBounds(order, |urls|)
    ensures multiset(UrlsOf(Collected(urls, fates, order))) + multiset(Faulted(urls, fates, order))
         == multiset(Submitted(urls, order))
  {
    if order != [] {
      var n := |order| - 1;
      var i := order[n];
      EveryUrlAccountedFor(urls, fates, order[..n]);
      if fates[i].Returned? {
        UrlsOfSnoc(Collected(urls, fates, order[..n]), TestShellshock(urls[i], fates[i].response));
      }
    }
  }

  /** Every collected outcome and every logged fault belongs to a submitted URL. */
  lemma {:induction false} CollectedFromSubmitted(urls: seq<string>, fates: seq<Fate>, order: seq<nat>)
    requires |fates| == |urls| && InBounds(order, |urls|)
    ensures forall k | 0 <= k < |Collected(urls, fates, order)| :: Collected(urls, fates, order)[k].url in urls
    ensures forall k | 0 <= k < |Faulted(urls, fates, order)| :: Faulted(urls, fates, order)[k] in urls
  {
    if order != [] {
      CollectedFromSubmitted(urls, fates, order[..|order| - 1]);
    }
  }

  lemma {:induction false} SubmittedAppend(urls: seq<string>, a: seq<nat>, b: seq<nat>)
    requires InBounds(a, |urls|) && InBounds(b, |urls|)
    ensures InBounds(a + b, |urls|)
    ensures Submitted(urls, a + b) == Submitted(urls, a) + Submitted(urls, b)
    decreases |b|
  {
    if b == [] {
      assert a + b == a;
    } else {
      var n := |b| - 1;
      assert (a + b)[..|a + b| - 1] == a + b[..n];
      SubmittedAppend(urls, a, b[..n]);
    }
  }

  /** The submission order lists the URLs as given. */
  lemma {:induction false} SubmittedInOrder(urls: seq<string>, m: nat)
    requires m <= |urls|
    ensures InBounds(Range(m), |urls|)
    ensures Submitted(urls, Range(m)) == urls[..m]
  {
    if m > 0 {
      assert Range(m)[..m - 1] == Range(m - 1);
      SubmittedInOrder(urls, m - 1);
      assert urls[..m] == urls[..m - 1] + [urls[m - 1]];
    }
  }

  lemma {:induction false} SubmittedOrderIndependent(urls: seq<string>, o1: seq<nat>, o2: seq<nat>)
    requires InBounds(o1, |urls|) && InBounds(o2, |urls|)
    requires multiset(o1) == multiset(o2)
    ensures multiset(Submitted(urls, o1)) == multiset(Submitted(urls, o2))
    decreases |o1|
  {
    if o1 != [] {
      var p, q := Unpick(o1, o2);
      InBoundsParts(p, [o1[0]], q, |urls|);
      SubmittedOrderIndependent(urls, o1[1..], p + q);
      assert o1 == [o1[0]] + o1[1..];
      SubmittedAppend(urls, [o1[0]], o1[1..]);
      SubmittedAppend(urls, p, q);
      SubmittedAppend(urls, p, [o1[0]]);
      SubmittedAppend(urls, p + [o1[0]], q);
    }
  }

  /** Draining every future visits every submitted URL once, as often as it was submitted. */
  lemma SubmittedIsPermutation(urls: seq<string>, order: seq<nat>)
    requires IsCompletionOrder(order, |urls|)
    ensures InBounds(order, |urls|)
    ensures multiset(Submitted(urls, order)) == multiset(urls)
  {
    CompletionOrderInBounds(order, |urls|);
    SubmittedInOrder(urls, |urls|);
    assert urls[..|urls|] == urls;
    SubmittedOrderIndependent(urls, order, Range(|urls|));
  }

  /** Draining one batch of futures and then another appends their results. */
  lemma {:induction false} CollectedAppend(urls: seq<string>, fates: seq<Fate>, a: seq<nat>, b: seq<nat>)
    requires |fates| == |urls| && InBounds(a, |urls|) && InBounds(b, |urls|)
    ensures InBounds(a + b, |urls|)
    ensures Collected(urls, fates, a + b) == Collected(urls, fates, a) + Collected(urls, fates, b)
    decreases |b|
  {
    if b == [] {
      assert a + b == a;
    } else {
      var n := |b| - 1;
      assert (a + b)[..|a + b| - 1] == a + b[..n];
      CollectedAppend(urls, fates, a, b[..n]);
    }
  }

  /**
   * The completion order decides only the order of the results, never which
   * results there are: any two orders give the same multiset of outcomes.
   */
  lemma {:induction false} CollectedOrderIndependent(urls: seq<string>, fates: seq<Fate>, o1: seq<nat>, o2: seq<nat>)
    requires |fates| == |urls| && InBounds(o1, |urls|) && InBounds(o2, |urls|)
    requires multiset(o1) == multiset(o2)
    ensures multiset(Collected(urls, fates, o1)) == multiset(Collected(urls, fates, o2))
    decreases |o1|
  {
    if o1 != [] {
      var p, q := Unpick(o1, o2);
      InBoundsParts(p, [o1[0]], q, |urls|);
      CollectedOrderIndependent(urls, fates, o1[1..], p + q);
      assert o1 == [o1[0]] + o1[1..];
      CollectedAppend(urls, fates, [o1[0]], o1[1..]);
      CollectedAppend(urls, fates, p, q);
      CollectedAppend(urls, fates, p, [o1[0]]);
      CollectedAppend(urls, fates, p + [o1[0]], q);
    }
  }

  lemma {:induction false} NothingLoggedWithoutFaults(urls: seq<string>, fates: seq<Fate>, order: seq<nat>)
    requires |fates| == |urls| && InBounds(order, |urls|)
    requires forall i | 0 <= i < |fates| :: fates[i].Returned?
    ensures Faulted(urls, fates, order) == []
  {
    if order != [] {
      NothingLoggedWithoutFaults(urls, fates, order[..|order| - 1]);
    }
  }

  /**
   * When no future raises, the results hold exactly one outcome per submitted
   * URL, whatever the completion order.
   */
  lemma OneOutcomePerUrlWithoutFaults(urls: seq<string>, fates: seq<Fate>, order: seq<nat>)
    requires |fates| == |urls| && IsCompletionOrder(order, |urls|)
    requires forall i | 0 <= i < |fates| :: fates[i].Returned?
    ensures InBounds(order, |urls|)
    ensures multiset(UrlsOf(Collected(urls, fates, order))) == multiset(urls)
  {
    SubmittedIsPermutation(urls, order);
    EveryUrlAccountedFor(urls, fates, order);
    NothingLoggedWithoutFaults(urls, fates, order);
  }

  lemma {:induction false} FaultIsLogged(urls: seq<string>, fates: seq<Fate>, order: seq<nat>, j: nat)
    requires |fates| == |urls| && InBounds(order, |urls|)
    requires j < |order| && fates[order[j]].Raised?
    ensures urls[order[j]] in Faulted(urls, fates, order)
  {
    var n := |order| - 1;
    if j < n {
      assert order[..n][j] == order[j];
      FaultIsLogged(urls, fates, order[..n], j);
    }
  }

  /**
   * A future that raises costs its URL one outcome: that URL has fewer
   * results than it was submitted times, so the results are strictly fewer
   * than the submitted URLs.
   */
  lemma FaultLosesOutcome(urls: seq<string>, fates: seq<Fate>, order: seq<nat>, i: nat)
    requires |fates| == |urls| && IsCompletionOrder(order, |urls|)
    requires i < |fates| && fates[i].Raised?
    ensures InBounds(order, |urls|)
    ensures multiset(UrlsOf(Collected(urls, fates, order)))[urls[i]] < multiset(urls)[urls[i]]
    ensures |Collected(urls, fates, order)| < |urls|
  {
    SubmittedIsPermutation(urls, order);
    EveryUrlAccountedFor(urls, fates, order);
    assert Range(|urls|)[i] == i;
    assert i in multiset(order);
    var j :| 0 <= j < |order| && order[j] == i;
    FaultIsLogged(urls, fates, order, j);
    var faulted := Faulted(urls, fates, order);
    assert multiset(faulted)[urls[i]] > 0;
    assert |multiset(faulted)| == |faulted| > 0;
    assert |multiset(UrlsOf(Collected(urls, fates, order)))| + |multiset(faulted)| == |multiset(urls)|;
  }
}
