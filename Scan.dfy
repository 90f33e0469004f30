/**
 * Scanning many sites: `check_multiple_sites`. Each site is probed by
 * `check_admin_panel`; the per-site result lists are appended to the
 * process-wide `found_admin_panels` list in the order the tasks complete.
 * Completion order is chosen by the thread pool; here it is an input, any
 * permutation of the site indices.
 */
module Scan {
  import opened Lines
  import opened Probe

  /** `[0, 1, ..., n - 1]`: the sites in submission order. */
  function Indices(n: nat): (r: seq<nat>)
    ensures |r| == n
    ensures forall k :: 0 <= k < n ==> r[k] == k
  {
    if n == 0 then [] else Indices(n - 1) + [n - 1]
  }

  /**
   * `order` lists every one of `n` tasks exactly once. The length and the
   * bounds follow from the multiset equality; they are spelled out so that
   * indexing the site list by `order[k]` needs no reasoning about multisets.
   */
  predicate IsCompletionOrder(order: seq<nat>, n: nat) {
    && |order| == n
    && (forall k :: 0 <= k < |order| ==> order[k] < n)
    && multiset(order) == multiset(Indices(n))
  }

  /** The list of site `i`, or nothing when there is no such site. */
  function SiteList(perSite: seq<seq<string>>, i: nat): seq<string> {
    if i < |perSite| then perSite[i] else []
  }

  /**
   * The site lists appended one after another in completion order. (A
   * completion order names only existing sites; others would add nothing.)
   */
  function Aggregate(perSite: seq<seq<string>>, order: seq<nat>): seq<string>
    decreases |order|
  {
    if order == [] then []
    else Aggregate(perSite, order[..|order| - 1]) + SiteList(perSite, order[|order| - 1])
  }

  /** The site lists appended one after another in submission order. */
  function Flatten(perSite: seq<seq<string>>): seq<string>
    decreases |perSite|
  {
    if perSite == [] then []
    else Flatten(perSite[..|perSite| - 1]) + perSite[|perSite| - 1]
  }

  /** The result list of every site, in submission order. */
  function PerSiteResults(net: Network, urls: seq<string>, paths: seq<string>): seq<seq<string>> {
    seq(|urls|, i requires 0 <= i < |urls| => SiteResults(net, Normalize(urls[i]), paths))
  }

  /** One more completed task: what `extend` appends to a list holding the earlier ones. */
  lemma AggregateStep(perSite: seq<seq<string>>, order: seq<nat>, k: nat, acc: seq<string>)
    requires k < |order|
    ensures acc + Aggregate(perSite, order[..k + 1]) == acc + Aggregate(perSite, order[..k]) + SiteList(perSite, order[k])
  {
    assert order[..k + 1][..k] == order[..k];
  }

  /** A panel is found on the scan exactly when some site's list holds it. */
  lemma {:induction false} FlattenMembers(perSite: seq<seq<string>>, x: string)
    ensures x in Flatten(perSite) <==> exists i :: 0 <= i < |perSite| && x in perSite[i]
    decreases |perSite|
  {
    if perSite != [] {
      var n := |perSite| - 1;
      FlattenMembers(perSite[..n], x);
      if exists i :: 0 <= i < |perSite| && x in perSite[i] {
        var i :| 0 <= i < |perSite| && x in perSite[i];
        if i < n {
          assert perSite[..n][i] == perSite[i];
        }
      }
      if x in Flatten(perSite[..n]) {
        var i :| 0 <= i < n && x in perSite[..n][i];
        assert perSite[..n][i] == perSite[i];
      }
    }
  }

  lemma {:induction false} AggregateAppend(perSite: seq<seq<string>>, a: seq<nat>, b: seq<nat>)
    ensures Aggregate(perSite, a + b) == Aggregate(perSite, a) + Aggregate(perSite, b)
    decreases |b|
  {
    if b == [] {
      assert a + b == a;
    } else {
      var n := |b| - 1;
      var b' := b[..n];
      assert (a + b)[..|a + b| - 1] == a + b';
      assert (a + b)[|a + b| - 1] == b[n];
      AggregateAppend(perSite, a, b');
      var front, middle, last := Aggregate(perSite, a), Aggregate(perSite, b'), SiteList(perSite, b[n]);
      assert Aggregate(perSite, a + b) == front + middle + last;
      assert Aggregate(perSite, b) == middle + last;
      assert front + middle + last == front + (middle + last);
    }
  }

  /** Taking out the element at `j` takes one copy of it out of the multiset. */
  lemma MultisetRemoveAt<T>(s: seq<T>, j: nat)
    requires j < |s|
    ensures multiset(s[..j] + s[j + 1..]) == multiset(s) - multiset{s[j]}
  {
    assert s == s[..j] + [s[j]] + s[j + 1..];
  }

  /** The last task of `o1` has a place `j` in `o2`; what is left on both sides agrees. */
  lemma MatchLast(o1: seq<nat>, o2: seq<nat>) returns (j: nat, rest: seq<nat>)
    requires o1 != [] && multiset(o1) == multiset(o2)
    ensures j < |o2| && o2[j] == o1[|o1| - 1] && rest == o2[..j] + o2[j + 1..]
    ensures multiset(o1[..|o1| - 1]) == multiset(rest)
  {
    var n := |o1| - 1;
    assert o1[n] in multiset(o2);
    j :| 0 <= j < |o2| && o2[j] == o1[n];
    MultisetRemoveAt(o1, n);
    MultisetRemoveAt(o2, j);
    assert o1[..n] + o1[n + 1..] == o1[..n];
    rest := o2[..j] + o2[j + 1..];
  }

  /** Completing the same tasks in another order appends the same panels, reordered. */
  lemma {:induction false} AggregateReorder(perSite: seq<seq<string>>, o1: seq<nat>, o2: seq<nat>)
    requires multiset(o1) == multiset(o2)
    ensures multiset(Aggregate(perSite, o1)) == multiset(Aggregate(perSite, o2))
    decreases |o1|
  {
    if o1 == [] {
      assert |o2| == |multiset(o2)| == 0;
    } else {
      var n := |o1| - 1;
      var x := o1[n];
      var j, rest := MatchLast(o1, o2);
      var pre, post := o2[..j], o2[j + 1..];
      AggregateReorder(perSite, o1[..n], rest);
      AggregateSplitAt(perSite, o2, j);
      AggregateAppend(perSite, pre, post);
    }
  }

  /** Aggregating with the task at `j` taken out of the order and put last. */
  lemma AggregateSplitAt(perSite: seq<seq<string>>, order: seq<nat>, j: nat)
    requires j < |order|
    ensures Aggregate(perSite, order)
              == Aggregate(perSite, order[..j]) + SiteList(perSite, order[j]) + Aggregate(perSite, order[j + 1..])
  {
    var pre, x, post := order[..j], order[j], order[j + 1..];
    assert order == pre + [x] + post;
    AggregateAppend(perSite, pre + [x], post);
    AggregateAppend(perSite, pre, [x]);
    assert [x][..0] == [];
  }

  lemma {:induction false} AggregateInSubmissionOrder(perSite: seq<seq<string>>, n: nat)
    requires n <= |perSite|
    ensures Aggregate(perSite, Indices(n)) == Flatten(perSite[..n])
  {
    if n > 0 {
      AggregateInSubmissionOrder(perSite, n - 1);
      assert Indices(n)[..n - 1] == Indices(n - 1);
      assert perSite[..n][..n - 1] == perSite[..n - 1];
    }
  }

  /**
   * Whatever the completion order, the aggregated list holds, as a multiset,
   * exactly the union of the per-site result lists.
   */
  lemma AggregateIsUnion(perSite: seq<seq<string>>, order: seq<nat>)
    requires IsCompletionOrder(order, |perSite|)
    ensures multiset(Aggregate(perSite, order)) == multiset(Flatten(perSite))
  {
    var ids := Indices(|perSite|);
    AggregateReorder(perSite, order, ids);
    AggregateInSubmissionOrder(perSite, |perSite|);
    assert perSite[..|perSite|] == perSite;
  }

  /**
   * Whatever the completion order, a panel is among the collected ones exactly
   * when some site's list holds it.
   */
  lemma AggregateMembers(perSite: seq<seq<string>>, order: seq<nat>, x: string)
    requires IsCompletionOrder(order, |perSite|)
    ensures x in Aggregate(perSite, order) <==> exists i :: 0 <= i < |perSite| && x in perSite[i]
  {
    AggregateIsUnion(perSite, order);
    assert x in Aggregate(perSite, order) <==> x in multiset(Aggregate(perSite, order));
    assert x in Flatten(perSite) <==> x in multiset(Flatten(perSite));
    FlattenMembers(perSite, x);
  }

  /** The process-wide state of a scan: the list `found_admin_panels`. */
  class Scanner {
    var found: seq<string>

    constructor ()
      ensures found == []
    {
      found := [];
    }

    /**
     * `check_multiple_sites`: clean the site list, probe every site, and
     * extend `found` with each site's results in completion order.
     */
    method CheckMultipleSites(siteLines: seq<string>, paths: seq<string>, net: Network, order: seq<nat>)
      requires IsCompletionOrder(order, |CleanLines(siteLines)|)
      modifies this
      ensures found == old(found) + Aggregate(PerSiteResults(net, CleanLines(siteLines), paths), order)
    {
      var urls := CleanLines(siteLines);
      ghost var perSite := PerSiteResults(net, urls, paths);
      assert |perSite| == |urls|;
      for k := 0 to |order|
        invariant found == old(found) + Aggregate(perSite, order[..k])
      {
        var siteResults, _ := CheckAdminPanel(urls[order[k]], paths, net);
        AggregateStep(perSite, order, k, old(found));
        found := found + siteResults;
      }
      assert order[..|order|] == order;
    }
  }

  /**
   * `load_admin_paths` followed by `check_multiple_sites` on a fresh list: the
   * panels found are those of the sites, in some order.
   */
  method FindAdminPanels(pathLines: seq<string>, siteLines: seq<string>, net: Network, order: seq<nat>)
    returns (found: seq<string>)
    requires IsCompletionOrder(order, |CleanLines(siteLines)|)
    ensures multiset(found) ==
              multiset(Flatten(PerSiteResults(net, CleanLines(siteLines), CleanLines(pathLines))))
  {
    var paths := CleanLines(pathLines);
    var scanner := new Scanner();
    scanner.CheckMultipleSites(siteLines, paths, net, order);
    found := scanner.found;
    AggregateIsUnion(PerSiteResults(net, CleanLines(siteLines), paths), order);
  }
}
