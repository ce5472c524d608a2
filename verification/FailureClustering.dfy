/** Clustering of similar failure events: the clusters are the connected components of the graph
    whose edges join events at or above the similarity threshold. */
module FailureClustering {
  import opened Wrappers

  /** What similarity sees of an event: its normalised text and its set of stemmed tokens. */
  datatype Doc = Doc(text: string, tokens: set<string>)

  const MIN_TOKENS: nat := 3

  function Max(a: real, b: real): real {
    if a >= b then a else b
  }

  /** Rounds to three decimals, halves up. */
  function Round3(x: real): real {
    (x * 1000.0 + 0.5).Floor as real / 1000.0
  }

  function Similarity(left: Doc, right: Doc): real {
    if left.text != "" && left.text == right.text then 1.0
    else if |left.tokens| < MIN_TOKENS || |right.tokens| < MIN_TOKENS then 0.0
    else
      var common := |left.tokens * right.tokens|;
      if common < MIN_TOKENS then 0.0
      else
        assert left.tokens <= left.tokens + right.tokens && left.tokens != {};
        var jaccard := common as real / |left.tokens + right.tokens| as real;
        var containment := Max(common as real / |left.tokens| as real, common as real / |right.tokens| as real);
        Round3(Max(jaccard, containment * 0.72))
  }

  lemma SimilarityIsSymmetric(left: Doc, right: Doc)
    ensures Similarity(left, right) == Similarity(right, left)
  {
    assert left.tokens * right.tokens == right.tokens * left.tokens;
    assert left.tokens + right.tokens == right.tokens + left.tokens;
  }

  predicate Linked(events: seq<Doc>, threshold: real, i: nat, j: nat) {
    i < |events| && j < |events| && Similarity(events[i], events[j]) >= threshold
  }

  /** A chain of similar events from "i" to "j". */
  ghost predicate IsChain(events: seq<Doc>, threshold: real, p: seq<nat>, i: nat, j: nat) {
    && p != [] && p[0] == i && p[|p| - 1] == j
    && forall k :: 0 <= k < |p| - 1 ==> Linked(events, threshold, p[k], p[k + 1])
  }

  ghost predicate Connected(events: seq<Doc>, threshold: real, i: nat, j: nat) {
    exists p :: IsChain(events, threshold, p, i, j)
  }

  lemma SimilarityBounds(left: Doc, right: Doc)
    ensures 0.0 <= Similarity(left, right) <= 1.0
    ensures left.text != "" ==> Similarity(left, left) == 1.0
  {
    if left.text == "" || left.text != right.text {
      var a, b := left.tokens, right.tokens;
      assert a == (a * b) + (a - b) && b == (a * b) + (b - a) && a + b == a + (b - a);
      if |a| >= MIN_TOKENS && |b| >= MIN_TOKENS && |a * b| >= MIN_TOKENS {
        Ratio(|a * b|, |a|);
        Ratio(|a * b|, |b|);
        Ratio(|a * b|, |a + b|);
      }
    }
  }

  /** The larger of the share of common tokens among all and 0.72 times their share in the smaller
      event. */
  function ExactSimilarity(left: Doc, right: Doc): real
    requires left.tokens != {} && right.tokens != {}
  {
    var common, smaller := |left.tokens * right.tokens|, Min(|left.tokens|, |right.tokens|);
    assert left.tokens <= left.tokens + right.tokens;
    Max(common as real / |left.tokens + right.tokens| as real, 0.72 * (common as real / smaller as real))
  }

  /** Same texts are alike, events with fewer than three tokens in common are not, and others are as
      similar as their tokens, to the nearest thousandth. */
  lemma SimilarityMeans(left: Doc, right: Doc)
    ensures left.text == right.text != "" ==> Similarity(left, right) == 1.0
    ensures (left.text != right.text || left.text == "") && |left.tokens * right.tokens| < 3 ==>
      Similarity(left, right) == 0.0
    ensures (left.text != right.text || left.text == "") && |left.tokens * right.tokens| >= 3 ==>
      && left.tokens != {} && right.tokens != {}
      && var exact, rounded := ExactSimilarity(left, right), Similarity(left, right);
         -0.0005 < rounded - exact <= 0.0005 && (rounded * 1000.0).Floor as real == rounded * 1000.0
  {
    var a, b := left.tokens, right.tokens;
    assert a == (a * b) + (a - b) && b == (a * b) + (b - a);
    if (left.text != right.text || left.text == "") && |a * b| >= 3 {
      SmallerShare(|a * b|, |a|, |b|);
      RoundedToThousandths(ExactSimilarity(left, right));
    }
  }

  lemma SmallerShare(common: nat, a: nat, b: nat)
    requires 0 < a && 0 < b
    ensures Max(common as real / a as real, common as real / b as real) == common as real / Min(a, b) as real
  {
    if a <= b {
      QuotientsOrdered(common, a, b);
    } else {
      QuotientsOrdered(common, b, a);
    }
  }

  lemma QuotientsOrdered(n: nat, a: nat, b: nat)
    requires 0 < a <= b
    ensures n as real / a as real >= n as real / b as real
  {
  }

  lemma RoundedToThousandths(x: real)
    ensures -0.0005 < Round3(x) - x <= 0.0005 && (Round3(x) * 1000.0).Floor as real == Round3(x) * 1000.0
  {
    var n := (x * 1000.0 + 0.5).Floor;
    assert Round3(x) * 1000.0 == n as real;
  }

  lemma Ratio(part: nat, whole: nat)
    requires 0 < whole && part <= whole
    ensures 0.0 <= part as real / whole as real <= 1.0
  {
  }

  lemma ConnectedToItself(events: seq<Doc>, threshold: real, i: nat)
    ensures Connected(events, threshold, i, i)
  {
    assert IsChain(events, threshold, [i], i, i);
  }

  lemma ConnectedThrough(events: seq<Doc>, threshold: real, i: nat, j: nat, k: nat)
    requires Connected(events, threshold, i, j) && Linked(events, threshold, j, k)
    ensures Connected(events, threshold, i, k)
  {
    var p :| IsChain(events, threshold, p, i, j);
    var q := p + [k];
    forall m | 0 <= m < |q| - 1 ensures Linked(events, threshold, q[m], q[m + 1]) {
      if m < |p| - 1 {
        assert q[m] == p[m] && q[m + 1] == p[m + 1];
      }
    }
    assert IsChain(events, threshold, q, i, k);
  }

  lemma LinkedIsSymmetric(events: seq<Doc>, threshold: real, i: nat, j: nat)
    requires Linked(events, threshold, i, j)
    ensures Linked(events, threshold, j, i)
  {
    SimilarityIsSymmetric(events[i], events[j]);
  }

  lemma {:induction false} ConnectedBack(events: seq<Doc>, threshold: real, i: nat, j: nat, p: seq<nat>)
    requires IsChain(events, threshold, p, i, j)
    ensures Connected(events, threshold, j, i)
    decreases |p|
  {
    hide Linked, Connected;
    if |p| == 1 {
      ConnectedToItself(events, threshold, i);
    } else {
      var rest := p[1..];
      forall k | 0 <= k < |rest| - 1 ensures Linked(events, threshold, rest[k], rest[k + 1]) {
        assert Linked(events, threshold, p[k + 1], p[k + 1 + 1]);
      }
      ConnectedBack(events, threshold, p[1], j, rest);
      assert Linked(events, threshold, p[0], p[0 + 1]);
      LinkedIsSymmetric(events, threshold, i, p[1]);
      ConnectedThrough(events, threshold, j, p[1], i);
    }
  }

  // ----- Clusters -----

  ghost function Members(cluster: seq<nat>): set<nat> {
    set i | i in cluster
  }

  ghost function AllMembers(clusters: seq<seq<nat>>): set<nat> {
    set c, i | 0 <= c < |clusters| && i in clusters[c] :: i
  }

  predicate NoRepeats(cluster: seq<nat>) {
    forall a, b :: 0 <= a < b < |cluster| ==> cluster[a] != cluster[b]
  }

  /** Non-empty, without repeats, led by its smallest index, and reached from it. */
  ghost predicate IsComponent(events: seq<Doc>, threshold: real, cluster: seq<nat>) {
    && cluster != [] && NoRepeats(cluster)
    && forall a :: 0 <= a < |cluster| ==>
         cluster[0] <= cluster[a] && Connected(events, threshold, cluster[0], cluster[a])
  }

  /** No event of "some" is linked to one of "others". */
  ghost predicate Apart(events: seq<Doc>, threshold: real, some: seq<nat>, others: set<nat>) {
    forall a, b :: a in some && b in others ==> !Linked(events, threshold, a, b)
  }

  ghost predicate Disjoint(clusters: seq<seq<nat>>) {
    forall c, d, i :: 0 <= c < d < |clusters| && i in clusters[c] ==> i !in clusters[d]
  }

  ghost predicate AllApart(events: seq<Doc>, threshold: real, clusters: seq<seq<nat>>) {
    forall c, d :: 0 <= c < d < |clusters| ==> Apart(events, threshold, clusters[c], Members(clusters[d]))
  }

  ghost predicate InOrder(clusters: seq<seq<nat>>) {
    forall c, d :: 0 <= c < d < |clusters| && clusters[c] != [] && clusters[d] != [] ==> clusters[c][0] < clusters[d][0]
  }

  function Indices(n: nat): (s: set<nat>)
    ensures forall i: nat :: i in s <==> i < n
  {
    if n == 0 then {} else Indices(n - 1) + {n - 1}
  }

  lemma ComponentLead(events: seq<Doc>, threshold: real, cluster: seq<nat>)
    requires IsComponent(events, threshold, cluster)
    ensures cluster != []
  {
  }

  lemma MembersSnoc(cluster: seq<nat>, i: nat)
    ensures Members(cluster + [i]) == Members(cluster) + {i}
  {
  }

  lemma ExtendComponent(events: seq<Doc>, threshold: real, cluster: seq<nat>, from: nat, i: nat)
    requires IsComponent(events, threshold, cluster) && from in cluster && Linked(events, threshold, from, i)
    requires cluster[0] <= i && i !in Members(cluster)
    ensures IsComponent(events, threshold, cluster + [i])
  {
    hide Linked, Connected;
    ConnectedThrough(events, threshold, cluster[0], from, i);
  }

  method Smallest(s: set<nat>) returns (least: nat)
    requires s != {}
    ensures least in s && forall x :: x in s ==> least <= x
  {
    least :| least in s;
    var todo := s - {least};
    while todo != {}
      invariant todo <= s && least in s
      invariant forall x :: x in s && x !in todo ==> least <= x
    {
      var x :| x in todo;
      if x < least {
        least := x;
      }
      todo := todo - {x};
    }
  }

  /** Grows the component of the smallest remaining event until no remaining event is linked to it. */
  method Grow(events: seq<Doc>, threshold: real, seed: nat, others: set<nat>)
    returns (component: seq<nat>, remaining: set<nat>)
    requires seed < |events| && seed !in others && forall i :: i in others ==> seed < i < |events|
    ensures IsComponent(events, threshold, component) && component[0] == seed
    ensures remaining <= others && Members(component) == {seed} + (others - remaining)
    ensures Apart(events, threshold, component, remaining)
  {
    hide Linked, Connected;
    component, remaining := [seed], others;
    assert Members([seed]) == {seed} + (others - others);
    ConnectedToItself(events, threshold, seed);
    var cursor := 0;
    while cursor < |component|
      invariant 0 <= cursor <= |component|
      invariant IsComponent(events, threshold, component) && component[0] == seed
      invariant remaining <= others && Members(component) == {seed} + (others - remaining)
      invariant Apart(events, threshold, component[..cursor], remaining)
      decreases |remaining| + |component| - cursor
    {
      component, remaining := Visit(events, threshold, component, cursor, remaining, others);
      assert component[..cursor + 1] == component[..cursor] + [component[cursor]];
      cursor := cursor + 1;
    }
    assert component[..cursor] == component;
  }

  /** Moves every remaining event linked to the one at "cursor" into the component. */
  method Visit(events: seq<Doc>, threshold: real, component: seq<nat>, cursor: nat, remaining: set<nat>,
               ghost others: set<nat>)
    returns (grown: seq<nat>, left: set<nat>)
    requires cursor < |component| && IsComponent(events, threshold, component)
    requires component[0] !in others && forall i :: i in others ==> component[0] < i < |events|
    requires remaining <= others && Members(component) == {component[0]} + (others - remaining)
    requires Apart(events, threshold, component[..cursor], remaining)
    ensures component <= grown && left <= remaining && IsComponent(events, threshold, grown)
    ensures |grown| - |component| == |remaining| - |left|
    ensures Members(grown) == {component[0]} + (others - left)
    ensures Apart(events, threshold, grown[..cursor], left)
    ensures forall b :: b in left ==> !Linked(events, threshold, grown[cursor], b)
  {
    hide Linked, IsComponent, Members;
    var current := component[cursor];
    ComponentLead(events, threshold, component);
    grown, left := component, remaining;
    for candidate := 0 to |events|
      invariant component <= grown && left <= remaining && IsComponent(events, threshold, grown)
      invariant |grown| - |component| == |remaining| - |left|
      invariant Members(grown) == {component[0]} + (others - left)
      invariant forall b :: b in left && b < candidate ==> !Linked(events, threshold, current, b)
    {
      if candidate in left && Linked(events, threshold, current, candidate) {
        assert current == grown[cursor];
        ExtendComponent(events, threshold, grown, current, candidate);
        MembersSnoc(grown, candidate);
        grown := grown + [candidate];
        left := left - {candidate};
      }
    }
    assert grown[..cursor] == component[..cursor];
  }

  method ClusterSimilarFailureEvents(events: seq<Doc>, threshold: real) returns (clusters: seq<seq<nat>>)
    ensures IsClustering(events, threshold, clusters)
  {
    hide Linked, Connected, IsComponent;
    clusters := [];
    var remaining := Indices(|events|);
    ghost var all := remaining;
    while remaining != {}
      invariant remaining <= all
      invariant forall c :: 0 <= c < |clusters| ==> IsComponent(events, threshold, clusters[c])
      invariant AllMembers(clusters) == all - remaining
      invariant Disjoint(clusters) && AllApart(events, threshold, clusters) && InOrder(clusters)
      invariant forall c :: 0 <= c < |clusters| ==> Apart(events, threshold, clusters[c], remaining)
      invariant forall c, i :: 0 <= c < |clusters| && clusters[c] != [] && i in remaining ==> clusters[c][0] < i
    {
      var seed := Smallest(remaining);
      ghost var before := clusters;
      ghost var pool := remaining;
      var component;
      component, remaining := Grow(events, threshold, seed, remaining - {seed});
      clusters := clusters + [component];
      AddCluster(events, threshold, before, component, pool, remaining, all);
    }
  }

  lemma AddCluster(events: seq<Doc>, threshold: real, clusters: seq<seq<nat>>, component: seq<nat>,
                   pool: set<nat>, remaining: set<nat>, all: set<nat>)
    requires remaining <= pool <= all && component != [] && Members(component) == pool - remaining
    requires AllMembers(clusters) == all - pool
    requires Disjoint(clusters) && AllApart(events, threshold, clusters) && InOrder(clusters)
    requires forall c :: 0 <= c < |clusters| ==> Apart(events, threshold, clusters[c], pool)
    requires forall c, i :: 0 <= c < |clusters| && clusters[c] != [] && i in pool ==> clusters[c][0] < i
    ensures var more := clusters + [component];
            && AllMembers(more) == all - remaining
            && Disjoint(more) && AllApart(events, threshold, more) && InOrder(more)
  {
    hide Linked;
    var more := clusters + [component];
    assert forall i :: i in component <==> i in Members(component);
    forall i ensures i in AllMembers(more) <==> i in AllMembers(clusters) || i in component {
      if i in AllMembers(clusters) {
        var c :| 0 <= c < |clusters| && i in clusters[c];
        assert i in more[c];
      }
      if i in component {
        assert i in more[|clusters|];
      }
    }
    forall c, i | 0 <= c < |clusters| && i in clusters[c] ensures i !in component {
      assert i in AllMembers(clusters);
    }
    assert component[0] in Members(component);
    assert AllMembers(more) == AllMembers(clusters) + Members(component);
  }

  // ----- The clusters are the connected components -----

  ghost predicate IsClustering(events: seq<Doc>, threshold: real, clusters: seq<seq<nat>>) {
    && (forall c :: 0 <= c < |clusters| ==> IsComponent(events, threshold, clusters[c]))
    && AllMembers(clusters) == Indices(|events|)
    && Disjoint(clusters) && AllApart(events, threshold, clusters) && InOrder(clusters)
  }

  lemma ClusterOf(clusters: seq<seq<nat>>, i: nat) returns (c: nat)
    requires i in AllMembers(clusters)
    ensures c < |clusters| && i in clusters[c]
  {
    c :| 0 <= c < |clusters| && i in clusters[c];
  }

  lemma LinkStaysInCluster(events: seq<Doc>, threshold: real, clusters: seq<seq<nat>>, c: nat, i: nat, j: nat)
    requires IsClustering(events, threshold, clusters)
    requires c < |clusters| && i in clusters[c] && Linked(events, threshold, i, j)
    ensures j in clusters[c]
  {
    hide IsComponent;
    LinkedIsSymmetric(events, threshold, i, j);
    var d := ClusterOf(clusters, j);
    assert j in Members(clusters[d]) && i in Members(clusters[c]);
  }

  lemma {:induction false} ChainStaysInCluster(events: seq<Doc>, threshold: real, clusters: seq<seq<nat>>, c: nat,
                                              i: nat, j: nat, p: seq<nat>)
    requires IsClustering(events, threshold, clusters)
    requires c < |clusters| && i in clusters[c] && IsChain(events, threshold, p, i, j)
    ensures j in clusters[c]
    decreases |p|
  {
    hide IsClustering, Linked;
    if |p| > 1 {
      assert Linked(events, threshold, p[0], p[0 + 1]);
      LinkStaysInCluster(events, threshold, clusters, c, i, p[1]);
      var rest := p[1..];
      forall k | 0 <= k < |rest| - 1 ensures Linked(events, threshold, rest[k], rest[k + 1]) {
        assert Linked(events, threshold, p[k + 1], p[k + 1 + 1]);
      }
      ChainStaysInCluster(events, threshold, clusters, c, p[1], j, rest);
    }
  }

  lemma {:induction false} ConnectedTrans(events: seq<Doc>, threshold: real, i: nat, j: nat, k: nat, p: seq<nat>)
    requires Connected(events, threshold, i, j) && IsChain(events, threshold, p, j, k)
    ensures Connected(events, threshold, i, k)
    decreases |p|
  {
    hide Connected, Linked;
    if |p| > 1 {
      assert Linked(events, threshold, p[0], p[0 + 1]);
      ConnectedThrough(events, threshold, i, j, p[1]);
      var rest := p[1..];
      forall m | 0 <= m < |rest| - 1 ensures Linked(events, threshold, rest[m], rest[m + 1]) {
        assert Linked(events, threshold, p[m + 1], p[m + 1 + 1]);
      }
      ConnectedTrans(events, threshold, i, p[1], k, rest);
    }
  }

  /** Two events share a cluster if and only if a chain of pairs at or above the threshold joins
      them. */
  lemma SameClusterIffConnected(events: seq<Doc>, threshold: real, clusters: seq<seq<nat>>, c: nat, i: nat, j: nat)
    requires IsClustering(events, threshold, clusters)
    requires c < |clusters| && i in clusters[c]
    ensures j in clusters[c] <==> Connected(events, threshold, i, j)
  {
    hide Linked, IsChain;
    if j in clusters[c] {
      var lead := clusters[c][0];
      assert Connected(events, threshold, lead, i) && Connected(events, threshold, lead, j);
      var p :| IsChain(events, threshold, p, lead, i);
      ConnectedBack(events, threshold, lead, i, p);
      var q :| IsChain(events, threshold, q, lead, j);
      ConnectedTrans(events, threshold, i, lead, j, q);
    }
    if Connected(events, threshold, i, j) {
      var p :| IsChain(events, threshold, p, i, j);
      ChainStaysInCluster(events, threshold, clusters, c, i, j, p);
    }
  }
}
