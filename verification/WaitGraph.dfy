// Wait-for graphs in which each process waits for at most one other.
module WaitGraph {
  import opened Common

  /** Who waits for whom. */
  type Graph = map<nat, nat>

  /** The process k waits away from p, if the chain is that long. */
  function Follow(g: Graph, p: nat, k: nat): (q: Option<nat>)
    decreases k
  {
    if k == 0 then Some(p)
    else if p in g then Follow(g, g[p], k - 1)
    else None
  }

  ghost predicate Acyclic(g: Graph) {
    forall p: nat, k: nat :: 0 < k ==> Follow(g, p, k) != Some(p)
  }

  lemma {:induction false} FollowAdd(g: Graph, p: nat, j: nat, k: nat)
    ensures Follow(g, p, j + k) == match Follow(g, p, j) case None => None case Some(q) => Follow(g, q, k)
    decreases j
  {
    if j > 0 && p in g { FollowAdd(g, g[p], j - 1, k); }
  }

  /** After an edge to a process that waits for nobody, chains are as before or end there. */
  lemma {:induction false} FollowWithEdge(g: Graph, c: nat, r: nat, p: nat, k: nat)
    requires r !in g && r != c
    ensures var q := Follow(g[c := r], p, k); q == None || q == Some(r) || q == Follow(g, p, k)
    decreases k
  {
    if k > 0 && p in g[c := r] {
      if p == c {
        assert k > 1 ==> Follow(g[c := r], r, k - 1) == None;
      } else {
        FollowWithEdge(g, c, r, g[p], k - 1);
      }
    }
  }

  lemma AddEdge(g: Graph, c: nat, r: nat)
    requires Acyclic(g) && r !in g && r != c
    ensures Acyclic(g[c := r])
  {
    var g' := g[c := r];
    forall p: nat, k: nat | 0 < k ensures Follow(g', p, k) != Some(p) {
      FollowWithEdge(g, c, r, p, k);
    }
  }

  lemma {:induction false} FollowSubgraph(g: Graph, g': Graph, p: nat, k: nat)
    requires forall x :: x in g' ==> x in g && g[x] == g'[x]
    ensures Follow(g', p, k) == None || Follow(g', p, k) == Follow(g, p, k)
    decreases k
  {
    if k > 0 && p in g' { FollowSubgraph(g, g', g[p], k - 1); }
  }

  lemma RemoveEdges(g: Graph, g': Graph)
    requires Acyclic(g)
    requires forall x :: x in g' ==> x in g && g[x] == g'[x]
    ensures Acyclic(g')
  {
    forall p: nat, k: nat | 0 < k ensures Follow(g', p, k) != Some(p) {
      FollowSubgraph(g, g', p, k);
    }
  }

  /** The chain from p, as far as it is k steps long. */
  function Chain(g: Graph, p: nat, k: nat): (path: seq<nat>)
    requires Follow(g, p, k).Some?
    ensures |path| == k + 1
    decreases k
  {
    if k == 0 then [p] else [p] + Chain(g, g[p], k - 1)
  }

  lemma {:induction false} ChainIsFollow(g: Graph, p: nat, k: nat, i: nat)
    requires Follow(g, p, k).Some? && i <= k
    ensures Follow(g, p, i) == Some(Chain(g, p, k)[i])
    decreases k
  {
    if i > 0 { ChainIsFollow(g, g[p], k - 1, i - 1); }
  }

  /** In an acyclic graph over n processes every chain ends, within n steps, at a process
      that waits for nobody. */
  lemma ChainEnds(g: Graph, n: nat, p: nat) returns (k: nat, q: nat)
    requires Acyclic(g) && p < n
    requires forall x :: x in g ==> g[x] < n
    ensures k < n && Follow(g, p, k) == Some(q) && q !in g && q < n
  {
    k, q := 0, p;
    while q in g
      invariant Follow(g, p, k) == Some(q) && q < n && k < n
      decreases n - k
    {
      FollowAdd(g, p, k, 1);
      assert Follow(g, q, 1) == Some(g[q]) by { assert Follow(g, g[q], 0) == Some(g[q]); }
      k, q := k + 1, g[q];
      ChainBounded(g, n, p, k);
    }
  }

  lemma ChainBounded(g: Graph, n: nat, p: nat, k: nat)
    requires Acyclic(g) && p < n
    requires forall x :: x in g ==> g[x] < n
    requires Follow(g, p, k).Some?
    ensures k < n
  {
    var path := Chain(g, p, k);
    forall i | 0 <= i <= k ensures path[i] < n {
      ChainIsFollow(g, p, k, i);
      FollowBelow(g, n, p, i);
    }
    forall i, j | 0 <= i < j <= k ensures path[i] != path[j] {
      ChainIsFollow(g, p, k, i);
      ChainIsFollow(g, p, k, j);
      FollowAdd(g, p, i, j - i);
    }
    DistinctBelow(path, n);
  }

  lemma {:induction false} FollowBelow(g: Graph, n: nat, p: nat, k: nat)
    requires p < n && (forall x :: x in g ==> g[x] < n)
    ensures Follow(g, p, k).Some? ==> Follow(g, p, k).value < n
    decreases k
  {
    if k > 0 && p in g { FollowBelow(g, n, g[p], k - 1); }
  }
}
