/** Greedy capped clustering of near-duplicate memories, `src/autonomy.rs`. */
module Clusters {
  import opened Common
  import opened Memories
  import Embeddings

  const JACCARD_THRESHOLD: real := 0.55
  const COSINE_THRESHOLD: real := 0.75
  const MAX_CLUSTER_SIZE: nat := 8

  /** What a pair is judged by: word tokens, stored embeddings, a square root. */
  datatype Lens = Lens(
    tokens: string -> set<string>,
    embedding: Id -> Option<seq<real>>,
    sqrt: real -> real)

  function Jaccard(a: set<string>, b: set<string>): real {
    if a == {} && b == {} then 0.0 else |a * b| as real / |a + b| as real
  }

  lemma JaccardIsSimilarity(a: set<string>, b: set<string>)
    ensures Jaccard(a, b) == Jaccard(b, a)
    ensures 0.0 <= Jaccard(a, b) <= 1.0
    ensures Jaccard(a, b) == 1.0 <==> a == b && a != {}
  {
    assert a * b == b * a && a + b == b + a;
    if a != {} || b != {} {
      var both, any := a * b, a + b;
      var gap := any - both;
      assert any == both + gap && both !! gap;
      assert |any| == |both| + |gap|;
      Ratio(|both|, |any|);
      if a == b {
        assert gap == {};
      } else {
        var x: string :| (x in a) != (x in b);
        assert x in gap;
      }
    }
  }

  lemma Ratio(x: nat, y: nat)
    requires x <= y && y > 0
    ensures 0.0 <= x as real / y as real <= 1.0
    ensures x as real / y as real == 1.0 <==> x == y
  {}

  /** Both thresholds; a pair with a missing embedding never matches. */
  predicate Match(lens: Lens, a: Memory, b: Memory) {
    && Jaccard(lens.tokens(a.content), lens.tokens(b.content)) >= JACCARD_THRESHOLD
    && match (lens.embedding(a.id), lens.embedding(b.id))
       case (Some(x), Some(y)) => Embeddings.Cosine(lens.sqrt, x, y) >= COSINE_THRESHOLD
       case _ => false
  }

  lemma MatchSymmetric(lens: Lens, a: Memory, b: Memory)
    ensures Match(lens, a, b) == Match(lens, b, a)
  {
    JaccardIsSimilarity(lens.tokens(a.content), lens.tokens(b.content));
    match (lens.embedding(a.id), lens.embedding(b.id))
    case (Some(x), Some(y)) => Embeddings.CosineSymmetric(lens.sqrt, x, y);
    case _ =>
  }

  /**
   * The merge gate in numbers: both rows have an embedding, the cosine is at
   * least 0.75, and at least 55 in 100 of all their tokens are shared.
   */
  predicate NearDuplicates(lens: Lens, a: Memory, b: Memory) {
    var ta, tb := lens.tokens(a.content), lens.tokens(b.content);
    var ea, eb := lens.embedding(a.id), lens.embedding(b.id);
    && ea.Some? && eb.Some? && Embeddings.Cosine(lens.sqrt, ea.value, eb.value) >= 0.75
    && (ta != {} || tb != {}) && 100 * |ta * tb| >= 55 * |ta + tb|
  }

  /** A pair matches exactly when it passes the gate. */
  lemma MatchMeans(lens: Lens, a: Memory, b: Memory)
    ensures Match(lens, a, b) <==> NearDuplicates(lens, a, b)
  {
    SharedTokens(lens.tokens(a.content), lens.tokens(b.content));
    hide Jaccard, Embeddings.Cosine;
  }

  lemma SharedTokens(a: set<string>, b: set<string>)
    ensures Jaccard(a, b) >= JACCARD_THRESHOLD <==> (a != {} || b != {}) && 100 * |a * b| >= 55 * |a + b|
  {
    if a != {} || b != {} {
      var x: string :| x in a + b;
      RatioAtLeast(|a * b|, |a + b|);
    }
  }

  lemma RatioAtLeast(x: nat, y: nat)
    requires y > 0
    ensures x as real / y as real >= 0.55 <==> 100 * x >= 55 * y
  {
    TimesPositive(x as real / y as real, 0.55, y as real);
    Quotient(x as real, y as real);
    assert 0.55 * y as real <= x as real <==> 55 * y <= 100 * x;
  }

  lemma Quotient(x: real, y: real)
    requires y > 0.0
    ensures x / y * y == x
  {}

  lemma TimesPositive(q: real, c: real, y: real)
    requires y > 0.0
    ensures q >= c <==> q * y >= c * y
  {
    if q >= c {
      assert (q - c) * y >= 0.0;
    } else {
      assert (c - q) * y > 0.0;
    }
  }

  // ----- One namespace ---------------------------------------------------

  /** Positions that join the cluster of `seed`, scanning from `j`. */
  function Grow(lens: Lens, g: seq<Memory>, seed: nat, j: nat, used: set<nat>, acc: seq<nat>): seq<nat>
    requires seed < |g|
    decreases |g| - j
  {
    if j >= |g| then acc
    else if j in used then Grow(lens, g, seed, j + 1, used, acc)
    else if |acc| >= MAX_CLUSTER_SIZE then acc
    else if Match(lens, g[seed], g[j]) then Grow(lens, g, seed, j + 1, used, acc + [j])
    else Grow(lens, g, seed, j + 1, used, acc)
  }

  function Cover(c: seq<nat>): set<nat> {
    set x | x in c
  }

  /** The clusters formed by seeds from position `i` on, as positions. */
  function Walk(lens: Lens, g: seq<Memory>, i: nat, used: set<nat>): seq<seq<nat>>
    decreases |g| - i
  {
    if i >= |g| then []
    else if i in used then Walk(lens, g, i + 1, used)
    else
      var c := Grow(lens, g, i, i + 1, used + {i}, [i]);
      var rest := Walk(lens, g, i + 1, used + Cover(c));
      if |c| >= 2 then [c] + rest else rest
  }

  predicate Within(c: seq<nat>, n: nat) {
    forall i :: 0 <= i < |c| ==> c[i] < n
  }

  function Pick(g: seq<Memory>, c: seq<nat>): (ms: seq<Memory>)
    requires Within(c, |g|)
    ensures |ms| == |c| && forall i :: 0 <= i < |c| ==> ms[i] == g[c[i]]
  {
    if c == [] then [] else Pick(g, c[..|c| - 1]) + [g[c[|c| - 1]]]
  }

  function PickAll(g: seq<Memory>, cs: seq<seq<nat>>): (mss: seq<seq<Memory>>)
    requires forall c :: c in cs ==> Within(c, |g|)
    ensures |mss| == |cs| && forall i :: 0 <= i < |cs| ==> mss[i] == Pick(g, cs[i])
  {
    if cs == [] then [] else PickAll(g, cs[..|cs| - 1]) + [Pick(g, cs[|cs| - 1])]
  }

  /** A seed followed by later positions, each matching the seed, at most 8 in all. */
  predicate Star(lens: Lens, g: seq<Memory>, c: seq<nat>) {
    && 1 <= |c| <= MAX_CLUSTER_SIZE
    && Within(c, |g|)
    && (forall i, j :: 0 <= i < j < |c| ==> c[i] < c[j])
    && (forall i :: 1 <= i < |c| ==> Match(lens, g[c[0]], g[c[i]]))
  }

  /** A match `x` the cluster lacks: the cluster was full before reaching it. */
  predicate FullBefore(c: seq<nat>, x: nat) {
    |c| == MAX_CLUSTER_SIZE && forall y :: y in c ==> y < x
  }

  lemma StarJoin(lens: Lens, g: seq<Memory>, c: seq<nat>, j: nat)
    requires Star(lens, g, c) && |c| < MAX_CLUSTER_SIZE && c[|c| - 1] < j < |g|
    requires Match(lens, g[c[0]], g[j])
    ensures Star(lens, g, c + [j]) && |c| >= 1
  {
    hide Match;
  }

  lemma StarBelow(lens: Lens, g: seq<Memory>, c: seq<nat>, j: nat)
    requires Star(lens, g, c) && c[|c| - 1] < j
    ensures forall y :: y in c ==> y < j
  {
    hide Match;
    forall y | y in c ensures y < j {
      var i :| 0 <= i < |c| && c[i] == y;
    }
  }

  /** What growing `acc` from position `j` on ends with. */
  ghost predicate Grown(lens: Lens, g: seq<Memory>, seed: nat, j: nat, used: set<nat>, acc: seq<nat>, c: seq<nat>)
    requires seed < |g|
  {
    && |c| >= 1 && c[0] == seed
    && (forall x :: x in c ==> x in acc || (j <= x && x !in used))
    && (forall x :: x in acc ==> x in c)
    && (forall x :: j <= x < |g| && x !in used && Match(lens, g[seed], g[x]) ==> x in c || FullBefore(c, x))
  }

  lemma {:induction false} GrowFacts(lens: Lens, g: seq<Memory>, seed: nat, j: nat, used: set<nat>, acc: seq<nat>)
    requires Star(lens, g, acc) && acc[0] == seed < |g| && acc[|acc| - 1] < j
    ensures Star(lens, g, Grow(lens, g, seed, j, used, acc))
    ensures Grown(lens, g, seed, j, used, acc, Grow(lens, g, seed, j, used, acc))
    decreases |g| - j
  {
    hide Match, Star, Grown;
    if j < |g| {
      if j !in used && |acc| < MAX_CLUSTER_SIZE && Match(lens, g[seed], g[j]) {
        StarJoin(lens, g, acc, j);
        GrowFacts(lens, g, seed, j + 1, used, acc + [j]);
        GrownJoin(lens, g, seed, j, used, acc, Grow(lens, g, seed, j, used, acc));
      } else if j in used || |acc| < MAX_CLUSTER_SIZE {
        GrowFacts(lens, g, seed, j + 1, used, acc);
        GrownSkip(lens, g, seed, j, used, acc, Grow(lens, g, seed, j, used, acc));
      } else {
        GrownFull(lens, g, seed, j, used, acc);
      }
    } else {
      GrownEnd(lens, g, seed, j, used, acc);
    }
  }

  lemma GrownJoin(lens: Lens, g: seq<Memory>, seed: nat, j: nat, used: set<nat>, acc: seq<nat>, c: seq<nat>)
    requires seed < |g| && j !in used && Grown(lens, g, seed, j + 1, used, acc + [j], c)
    ensures Grown(lens, g, seed, j, used, acc, c)
  {
    hide Match, FullBefore;
    assert j in acc + [j];
    assert forall x :: x in acc ==> x in acc + [j];
  }

  lemma GrownSkip(lens: Lens, g: seq<Memory>, seed: nat, j: nat, used: set<nat>, acc: seq<nat>, c: seq<nat>)
    requires seed < |g| && Grown(lens, g, seed, j + 1, used, acc, c)
    requires j in used || (j < |g| && !Match(lens, g[seed], g[j]))
    ensures Grown(lens, g, seed, j, used, acc, c)
  {
    hide Match, FullBefore;
  }

  lemma GrownFull(lens: Lens, g: seq<Memory>, seed: nat, j: nat, used: set<nat>, acc: seq<nat>)
    requires Star(lens, g, acc) && acc[0] == seed < |g| && acc[|acc| - 1] < j && |acc| >= MAX_CLUSTER_SIZE
    ensures Grown(lens, g, seed, j, used, acc, acc)
  {
    StarBelow(lens, g, acc, j);
    hide Match;
    assert forall x :: j <= x ==> FullBefore(acc, x);
  }

  lemma GrownEnd(lens: Lens, g: seq<Memory>, seed: nat, j: nat, used: set<nat>, acc: seq<nat>)
    requires Star(lens, g, acc) && acc[0] == seed < |g| && |g| <= j
    ensures Grown(lens, g, seed, j, used, acc, acc)
  {
    hide Match;
  }

  function CoverAll(cs: seq<seq<nat>>): set<nat> {
    set c, x | c in cs && x in c :: x
  }

  /** What the clusters formed from position `i` on are. */
  ghost predicate Clustering(lens: Lens, g: seq<Memory>, i: nat, used: set<nat>, cs: seq<seq<nat>>) {
    && (forall k: nat :: k < |cs| ==> |cs[k]| >= 2 && Star(lens, g, cs[k]))
    && (forall k: nat, x: nat :: k < |cs| && x in cs[k] ==> i <= x)
    && (forall k: nat, x: nat :: k < |cs| && x in cs[k] ==> x !in used)
    // disjoint
    && (forall k: nat, l: nat, x: nat :: k < l < |cs| && x in cs[k] ==> x !in cs[l])
    // a later match missing from a cluster was taken before, or the cluster was full
    && (forall k: nat, x: nat :: k < |cs| && cs[k][0] < x < |g| && Match(lens, g[cs[k][0]], g[x]) ==>
          x in cs[k] || x in used || x in CoverAll(cs[..k]) || FullBefore(cs[k], x))
    // no two leftovers match
    && (forall x: nat, y: nat ::
          i <= x < y < |g| && x !in used && y !in used && x !in CoverAll(cs) && y !in CoverAll(cs) ==>
          !Match(lens, g[x], g[y]))
  }

  lemma {:induction false} WalkClusters(lens: Lens, g: seq<Memory>, i: nat, used: set<nat>)
    ensures Clustering(lens, g, i, used, Walk(lens, g, i, used))
    decreases |g| - i
  {
    hide Match, Clustering, Star;
    if i < |g| {
      if i in used {
        WalkClusters(lens, g, i + 1, used);
        SkipUsed(lens, g, i, used, Walk(lens, g, i + 1, used));
      } else {
        SoloStar(lens, g, i);
        var c := Grow(lens, g, i, i + 1, used + {i}, [i]);
        GrowFacts(lens, g, i, i + 1, used + {i}, [i]);
        GrownFromSeed(lens, g, i, used, c);
        var rest := Walk(lens, g, i + 1, used + Cover(c));
        WalkClusters(lens, g, i + 1, used + Cover(c));
        if |c| >= 2 {
          FirstCluster(lens, g, i, used, c, rest);
        } else {
          LoneSeed(lens, g, i, used, c, rest);
        }
      }
    } else {
      NothingLeft(lens, g, i, used);
    }
  }

  lemma GrownFromSeed(lens: Lens, g: seq<Memory>, i: nat, used: set<nat>, c: seq<nat>)
    requires i < |g| && Grown(lens, g, i, i + 1, used + {i}, [i], c)
    ensures c[0] == i && forall x :: x in c ==> x == i || (i < x && x !in used)
    ensures forall x :: i < x < |g| && x !in used && Match(lens, g[i], g[x]) ==> x in c || FullBefore(c, x)
  {
    hide Match, FullBefore;
  }

  lemma SoloStar(lens: Lens, g: seq<Memory>, i: nat)
    requires i < |g|
    ensures Star(lens, g, [i])
  {}

  lemma NothingLeft(lens: Lens, g: seq<Memory>, i: nat, used: set<nat>)
    requires |g| <= i
    ensures Clustering(lens, g, i, used, [])
  {}

  lemma SkipUsed(lens: Lens, g: seq<Memory>, i: nat, used: set<nat>, cs: seq<seq<nat>>)
    requires i in used && Clustering(lens, g, i + 1, used, cs)
    ensures Clustering(lens, g, i, used, cs)
  {
    hide Match, Star, CoverAll, FullBefore;
  }

  /** A seed that attracts nothing stays a leftover. */
  lemma LoneSeed(lens: Lens, g: seq<Memory>, i: nat, used: set<nat>, c: seq<nat>, rest: seq<seq<nat>>)
    requires i < |g| && i !in used
    requires |c| == 1 && c[0] == i
    requires forall x :: i < x < |g| && x !in used && Match(lens, g[i], g[x]) ==> x in c || FullBefore(c, x)
    requires Clustering(lens, g, i + 1, used + Cover(c), rest)
    ensures Clustering(lens, g, i, used, rest)
  {
    hide Match, Star, CoverAll;
    assert c == [i] && Cover(c) == {i};
    forall k: nat, x: nat | k < |rest| && rest[k][0] < x < |g| && Match(lens, g[rest[k][0]], g[x])
      ensures x in rest[k] || x in used || x in CoverAll(rest[..k]) || FullBefore(rest[k], x)
    {
      assert rest[k][0] in rest[k];
    }
  }

  lemma CoverCons(c: seq<nat>, rest: seq<seq<nat>>)
    ensures CoverAll([c] + rest) == Cover(c) + CoverAll(rest)
  {
    var cs := [c] + rest;
    assert c in cs && forall x :: x in rest ==> x in cs;
  }

  lemma FirstCluster(lens: Lens, g: seq<Memory>, i: nat, used: set<nat>, c: seq<nat>, rest: seq<seq<nat>>)
    requires i < |g| && i !in used
    requires |c| >= 2 && Star(lens, g, c) && c[0] == i
    requires forall x :: x in c ==> x == i || (i < x && x !in used)
    requires forall x :: i < x < |g| && x !in used && Match(lens, g[i], g[x]) ==> x in c || FullBefore(c, x)
    requires Clustering(lens, g, i + 1, used + Cover(c), rest)
    ensures Clustering(lens, g, i, used, [c] + rest)
  {
    hide Match, Star, CoverAll, FullBefore;
    var cs := [c] + rest;
    CoverCons(c, rest);
    forall k: nat, x: nat | k < |cs| && cs[k][0] < x < |g| && Match(lens, g[cs[k][0]], g[x])
      ensures x in cs[k] || x in used || x in CoverAll(cs[..k]) || FullBefore(cs[k], x)
    {
      if k > 0 {
        assert cs[..k] == [c] + rest[..k - 1];
        CoverCons(c, rest[..k - 1]);
        assert cs[k] == rest[k - 1];
      }
    }
    forall k: nat, l: nat, x: nat | k < l < |cs| && x in cs[k] ensures x !in cs[l] {
      if k == 0 {
        assert x in Cover(c) && cs[l] == rest[l - 1];
      }
    }
    assert i in Cover(c);
  }

  /** One seed's scan over the later members, with the flag array the program keeps. */
  method GrowCluster(lens: Lens, g: seq<Memory>, i: nat, used: array<bool>, ghost before: set<nat>)
    returns (cluster: seq<Memory>, ghost positions: seq<nat>)
    requires i < |g| == used.Length && i in before
    requires forall k :: 0 <= k < |g| ==> (used[k] <==> k in before)
    modifies used
    ensures Within(positions, |g|) && cluster == Pick(g, positions)
    ensures positions == Grow(lens, g, i, i + 1, before, [i])
    ensures forall k :: 0 <= k < |g| ==> (used[k] <==> k in before || k in positions)
  {
    hide Match;
    cluster := [g[i]];
    positions := [i];
    var j := i + 1;
    while j < |g|
      invariant i < j <= |g|
      invariant Within(positions, |g|) && cluster == Pick(g, positions)
      invariant forall x :: x in positions ==> x < j
      invariant forall k :: 0 <= k < |g| ==> (used[k] <==> k in before || k in positions)
      invariant Grow(lens, g, i, i + 1, before, [i]) == Grow(lens, g, i, j, before, positions)
    {
      if used[j] {
        assert j in before;
        j := j + 1;
        continue;
      }
      if |cluster| >= MAX_CLUSTER_SIZE {
        break;
      }
      if Match(lens, g[i], g[j]) {
        PickSnoc(g, positions, j);
        positions := positions + [j];
        cluster := cluster + [g[j]];
        used[j] := true;
      }
      j := j + 1;
    }
  }

  /** One namespace's members clustered. */
  method ClusterGroup(lens: Lens, g: seq<Memory>) returns (clusters: seq<seq<Memory>>)
    ensures clusters == GroupClusters(lens, g)
  {
    hide Match, Clustering, Grow, Walk, Pick, PickAll;
    var used := new bool[|g|](_ => false);
    clusters := [];
    ghost var done: seq<seq<nat>>, taken: set<nat> := [], {};
    StartOfWalk(lens, g);
    for i := 0 to |g|
      invariant forall k :: 0 <= k < |g| ==> (used[k] <==> k in taken)
      invariant Walk(lens, g, 0, {}) == done + Walk(lens, g, i, taken)
      invariant forall c :: c in done ==> Within(c, |g|)
      invariant clusters == PickAll(g, done)
    {
      WalkOne(lens, g, i, taken, done);
      if used[i] {
        continue;
      }
      used[i] := true;
      ghost var before := taken + {i};
      var cluster, positions := GrowCluster(lens, g, i, used, before);
      GrowKeepsSeed(lens, g, i, taken);
      taken := taken + Cover(positions);
      if |cluster| >= 2 {
        PickAllSnoc(g, done, positions);
        done := done + [positions];
        clusters := clusters + [cluster];
      }
    }
    StopOfWalk(lens, g, taken, done);
  }

  lemma StartOfWalk(lens: Lens, g: seq<Memory>)
    ensures Walk(lens, g, 0, {}) == [] + Walk(lens, g, 0, {}) && PickAll(g, []) == []
  {}

  lemma StopOfWalk(lens: Lens, g: seq<Memory>, taken: set<nat>, done: seq<seq<nat>>)
    ensures done + Walk(lens, g, |g|, taken) == done
  {}

  lemma WalkOne(lens: Lens, g: seq<Memory>, i: nat, taken: set<nat>, done: seq<seq<nat>>)
    requires i < |g|
    ensures var c := Grow(lens, g, i, i + 1, taken + {i}, [i]);
      done + Walk(lens, g, i, taken) ==
        if i in taken then done + Walk(lens, g, i + 1, taken)
        else if |c| >= 2 then (done + [c]) + Walk(lens, g, i + 1, taken + Cover(c))
        else done + Walk(lens, g, i + 1, taken + Cover(c))
  {
    hide Match, Grow;
    var c := Grow(lens, g, i, i + 1, taken + {i}, [i]);
    assert Walk(lens, g, i, taken) ==
      if i in taken then Walk(lens, g, i + 1, taken)
      else if |c| >= 2 then [c] + Walk(lens, g, i + 1, taken + Cover(c))
      else Walk(lens, g, i + 1, taken + Cover(c));
  }

  lemma GrowKeepsSeed(lens: Lens, g: seq<Memory>, i: nat, taken: set<nat>)
    requires i < |g|
    ensures i in Cover(Grow(lens, g, i, i + 1, taken + {i}, [i]))
  {
    SoloStar(lens, g, i);
    GrowFacts(lens, g, i, i + 1, taken + {i}, [i]);
    hide Match, Star, Grow;
    assert i in [i];
  }

  lemma PickSnoc(g: seq<Memory>, c: seq<nat>, x: nat)
    requires Within(c, |g|) && x < |g|
    ensures Within(c + [x], |g|) && Pick(g, c + [x]) == Pick(g, c) + [g[x]]
  {
    assert (c + [x])[..|c|] == c;
  }

  lemma PickAllSnoc(g: seq<Memory>, cs: seq<seq<nat>>, c: seq<nat>)
    requires (forall d :: d in cs ==> Within(d, |g|)) && Within(c, |g|)
    ensures PickAll(g, cs + [c]) == PickAll(g, cs) + [Pick(g, c)]
  {
    assert (cs + [c])[..|cs|] == cs;
  }

  // ----- All namespaces --------------------------------------------------

  predicate Reserved(namespace: string) {
    namespace != "" && namespace[0] == '_'
  }

  /** The candidates of one namespace, in order. */
  function Group(candidates: seq<Memory>, namespace: string): (g: seq<Memory>)
    ensures forall m :: m in g ==> m in candidates && m.namespace == namespace
  {
    if candidates == [] then []
    else
      var n := |candidates| - 1;
      var m := candidates[n];
      Group(candidates[..n], namespace) + if m.namespace == namespace then [m] else []
  }

  function Namespaces(candidates: seq<Memory>): set<string> {
    set m | m in candidates && !Reserved(m.namespace) :: m.namespace
  }

  function Names(order: seq<string>): set<string> {
    set ns | ns in order
  }

  /** A hash map's iteration order over the candidate namespaces. */
  predicate IsOrder(candidates: seq<Memory>, order: seq<string>) {
    && (forall i, j :: 0 <= i < j < |order| ==> order[i] != order[j])
    && Names(order) == Namespaces(candidates)
  }

  lemma WalkWithin(lens: Lens, g: seq<Memory>)
    ensures forall c :: c in Walk(lens, g, 0, {}) ==> Within(c, |g|)
  {
    hide Match, Walk;
    WalkClusters(lens, g, 0, {});
    var cs := Walk(lens, g, 0, {});
    forall c | c in cs ensures Within(c, |g|) {
      var k :| 0 <= k < |cs| && cs[k] == c;
      assert Star(lens, g, cs[k]);
    }
  }

  function GroupClusters(lens: Lens, g: seq<Memory>): seq<seq<Memory>> {
    WalkWithin(lens, g);
    PickAll(g, Walk(lens, g, 0, {}))
  }

  function ClustersIn(lens: Lens, candidates: seq<Memory>, order: seq<string>): seq<seq<Memory>> {
    if order == [] then []
    else ClustersIn(lens, candidates, order[..|order| - 1])
         + GroupClusters(lens, Group(candidates, order[|order| - 1]))
  }

  /** The candidates outside reserved namespaces, bucketed. */
  method GroupByNamespace(candidates: seq<Memory>) returns (byNs: map<string, seq<Memory>>)
    ensures byNs.Keys == Namespaces(candidates)
    ensures forall ns :: ns in byNs ==> byNs[ns] == Group(candidates, ns)
  {
    hide Namespaces, Group, Reserved;
    NoGroups();
    byNs := map[];
    assert candidates[..0] == [];
    for i := 0 to |candidates|
      invariant byNs.Keys == Namespaces(candidates[..i])
      invariant forall ns :: ns in byNs ==> byNs[ns] == Group(candidates[..i], ns)
    {
      var m := candidates[i];
      assert candidates[..i + 1] == candidates[..i] + [m];
      GroupSnoc(candidates[..i], m);
      if Reserved(m.namespace) {
        ReservedHasNoGroup(candidates[..i], m.namespace);
        continue;
      }
      byNs := byNs[m.namespace := (if m.namespace in byNs then byNs[m.namespace] else []) + [m]];
    }
    assert candidates[..|candidates|] == candidates;
  }

  lemma NoGroups()
    ensures Namespaces([]) == {}
  {}

  lemma ReservedHasNoGroup(candidates: seq<Memory>, namespace: string)
    requires Reserved(namespace)
    ensures namespace !in Namespaces(candidates)
  {}

  method FindConsolidationClusters(lens: Lens, candidates: seq<Memory>, order: seq<string>)
    returns (clusters: seq<seq<Memory>>)
    requires IsOrder(candidates, order)
    ensures clusters == ClustersIn(lens, candidates, order)
    ensures forall ms :: ms in clusters ==> GoodCluster(lens, candidates, ms)
    ensures LeftoversApart(lens, candidates, clusters)
  {
    hide GroupClusters, Group, Reserved, Namespaces, GoodCluster, LeftoversApart;
    var byNs := GroupByNamespace(candidates);
    clusters := [];
    for k := 0 to |order|
      invariant clusters == ClustersIn(lens, candidates, order[..k])
    {
      assert order[..k + 1][..k] == order[..k];
      assert order[k] in Names(order);
      var more := ClusterGroup(lens, byNs[order[k]]);
      clusters := clusters + more;
    }
    assert order[..|order|] == order;
    OrderIsUnreserved(candidates, order);
    ClustersAreGood(lens, candidates, order);
    LeftoversStayApart(lens, candidates, order);
  }

  lemma GroupSnoc(before: seq<Memory>, m: Memory)
    ensures Namespaces(before + [m]) == Namespaces(before) + if Reserved(m.namespace) then {} else {m.namespace}
    ensures forall ns :: Group(before + [m], ns) == Group(before, ns) + if m.namespace == ns then [m] else []
    ensures !Reserved(m.namespace) && m.namespace !in Namespaces(before) ==> Group(before, m.namespace) == []
  {
    NamespacesSnoc(before, m);
    OneMoreInGroup(before, m);
    hide Reserved, Group;
    if !Reserved(m.namespace) && m.namespace !in Namespaces(before) {
      NoSuchMember(before, m.namespace);
    }
  }

  lemma OneMoreInGroup(before: seq<Memory>, m: Memory)
    ensures forall ns :: Group(before + [m], ns) == Group(before, ns) + if m.namespace == ns then [m] else []
  {
    assert (before + [m])[..|before|] == before;
  }

  lemma NamespacesSnoc(before: seq<Memory>, m: Memory)
    ensures Namespaces(before + [m]) == Namespaces(before) + if Reserved(m.namespace) then {} else {m.namespace}
  {
    hide Reserved;
    assert m in before + [m] && forall x :: x in before ==> x in before + [m];
  }

  lemma {:induction false} NoSuchMember(candidates: seq<Memory>, namespace: string)
    requires forall m :: m in candidates ==> m.namespace != namespace
    ensures Group(candidates, namespace) == []
    decreases |candidates|
  {
    if candidates != [] {
      NoSuchMember(candidates[..|candidates| - 1], namespace);
    }
  }

  /**
   * Every cluster handed to consolidation has 2 to 8 members of one
   * namespace that does not start with '_', all candidates, each a
   * near-duplicate of the first.
   */
  predicate GoodCluster(lens: Lens, candidates: seq<Memory>, ms: seq<Memory>) {
    && 2 <= |ms| <= 8
    && (ms[0].namespace == "" || ms[0].namespace[0] != '_')
    && (forall m :: m in ms ==> m in candidates && m.namespace == ms[0].namespace)
    && (forall i :: 1 <= i < |ms| ==> NearDuplicates(lens, ms[0], ms[i]))
  }

  lemma {:induction false} ClustersAreGood(lens: Lens, candidates: seq<Memory>, order: seq<string>)
    requires forall ns :: ns in order ==> !Reserved(ns)
    ensures forall ms :: ms in ClustersIn(lens, candidates, order) ==> GoodCluster(lens, candidates, ms)
    decreases |order|
  {
    if order != [] {
      hide GroupClusters, Group, GoodCluster;
      var n := |order| - 1;
      ClustersAreGood(lens, candidates, order[..n]);
      GroupClustersAreGood(lens, candidates, order[n]);
    }
  }

  lemma GroupClustersAreGood(lens: Lens, candidates: seq<Memory>, namespace: string)
    requires !Reserved(namespace)
    ensures forall ms :: ms in GroupClusters(lens, Group(candidates, namespace)) ==> GoodCluster(lens, candidates, ms)
  {
    var g := Group(candidates, namespace);
    WalkClusters(lens, g, 0, {});
    var cs := Walk(lens, g, 0, {});
    hide Match, Group, Walk;
    forall k | 0 <= k < |cs| ensures GoodCluster(lens, candidates, PickAll(g, cs)[k]) {
      var c := cs[k];
      assert Star(lens, g, c);
      PickIsGood(lens, candidates, g, namespace, c);
    }
  }

  lemma PickIsGood(lens: Lens, candidates: seq<Memory>, g: seq<Memory>, namespace: string, c: seq<nat>)
    requires !Reserved(namespace) && g == Group(candidates, namespace)
    requires |c| >= 2 && Star(lens, g, c)
    ensures GoodCluster(lens, candidates, Pick(g, c))
  {
    hide Match, NearDuplicates;
    var ms := Pick(g, c);
    forall m | m in ms ensures m in candidates && m.namespace == namespace {
      var i :| 0 <= i < |ms| && ms[i] == m;
      assert m == g[c[i]] && m in g;
    }
    assert ms[0] in ms;
    forall i | 1 <= i < |ms| ensures NearDuplicates(lens, ms[0], ms[i]) {
      MatchMeans(lens, g[c[0]], g[c[i]]);
    }
  }

  // ----- What is left over -----------------------------------------------

  predicate Unclustered(clusters: seq<seq<Memory>>, m: Memory) {
    forall ms :: ms in clusters ==> m !in ms
  }

  /** No two rows of one unreserved namespace that are in no cluster pass the gate. */
  predicate LeftoversApart(lens: Lens, candidates: seq<Memory>, clusters: seq<seq<Memory>>) {
    forall i, j ::
      && 0 <= i < j < |candidates| && candidates[i].namespace == candidates[j].namespace
      && (candidates[i].namespace == "" || candidates[i].namespace[0] != '_')
      && Unclustered(clusters, candidates[i]) && Unclustered(clusters, candidates[j]) ==>
        !NearDuplicates(lens, candidates[i], candidates[j])
  }

  lemma LeftoversStayApart(lens: Lens, candidates: seq<Memory>, order: seq<string>)
    requires IsOrder(candidates, order)
    ensures LeftoversApart(lens, candidates, ClustersIn(lens, candidates, order))
  {
    var clusters := ClustersIn(lens, candidates, order);
    hide ClustersIn, NearDuplicates, Unclustered;
    forall i, j |
      && 0 <= i < j < |candidates| && candidates[i].namespace == candidates[j].namespace
      && !Reserved(candidates[i].namespace)
      && Unclustered(clusters, candidates[i]) && Unclustered(clusters, candidates[j])
      ensures !NearDuplicates(lens, candidates[i], candidates[j])
    {
      var ns := candidates[i].namespace;
      assert candidates[i] in candidates && ns in Names(order);
      var k :| 0 <= k < |order| && order[k] == ns;
      GroupInClusters(lens, candidates, order, k, candidates[i]);
      GroupInClusters(lens, candidates, order, k, candidates[j]);
      LeftoverPair(lens, candidates, i, j);
    }
  }

  lemma {:induction false} GroupInClusters(lens: Lens, candidates: seq<Memory>, order: seq<string>, k: nat, m: Memory)
    requires k < |order| && Unclustered(ClustersIn(lens, candidates, order), m)
    ensures Unclustered(GroupClusters(lens, Group(candidates, order[k])), m)
    decreases |order|
  {
    hide GroupClusters, Group;
    var n := |order| - 1;
    if k < n {
      GroupInClusters(lens, candidates, order[..n], k, m);
    }
  }

  lemma LeftoverPair(lens: Lens, candidates: seq<Memory>, i: nat, j: nat)
    requires i < j < |candidates| && candidates[i].namespace == candidates[j].namespace
    requires var clusters := GroupClusters(lens, Group(candidates, candidates[i].namespace));
             Unclustered(clusters, candidates[i]) && Unclustered(clusters, candidates[j])
    ensures !NearDuplicates(lens, candidates[i], candidates[j])
  {
    var g := Group(candidates, candidates[i].namespace);
    var x, y := PlacesInGroup(candidates, i, j);
    WalkClusters(lens, g, 0, {});
    hide Match, Walk, Group, Clustering, Unclustered, NearDuplicates;
    NotCovered(lens, g, x);
    NotCovered(lens, g, y);
    NoMatchLeft(lens, g, Walk(lens, g, 0, {}), x, y);
    MatchMeans(lens, g[x], g[y]);
  }

  lemma NoMatchLeft(lens: Lens, g: seq<Memory>, cs: seq<seq<nat>>, x: nat, y: nat)
    requires Clustering(lens, g, 0, {}, cs) && x < y < |g| && x !in CoverAll(cs) && y !in CoverAll(cs)
    ensures !Match(lens, g[x], g[y])
  {
    hide Match, Star, CoverAll, FullBefore;
  }

  lemma NotCovered(lens: Lens, g: seq<Memory>, x: nat)
    requires x < |g| && Unclustered(GroupClusters(lens, g), g[x])
    ensures x !in CoverAll(Walk(lens, g, 0, {}))
  {
    WalkWithin(lens, g);
    hide Match, Walk;
    var cs := Walk(lens, g, 0, {});
    if c :| c in cs && x in c {
      var k :| 0 <= k < |cs| && cs[k] == c;
      var i :| 0 <= i < |c| && c[i] == x;
      assert Pick(g, c)[i] == g[x];
      assert PickAll(g, cs)[k] in PickAll(g, cs);
    }
  }

  lemma {:induction false} PlacesInGroup(candidates: seq<Memory>, i: nat, j: nat) returns (x: nat, y: nat)
    requires i < j < |candidates| && candidates[i].namespace == candidates[j].namespace
    ensures var g := Group(candidates, candidates[i].namespace);
      x < y < |g| && g[x] == candidates[i] && g[y] == candidates[j]
    decreases |candidates|
  {
    var n := |candidates| - 1;
    var ns := candidates[i].namespace;
    if j < n {
      x, y := PlacesInGroup(candidates[..n], i, j);
    } else {
      x := PlaceInGroup(candidates[..n], i);
      y := |Group(candidates[..n], ns)|;
    }
  }

  lemma {:induction false} PlaceInGroup(candidates: seq<Memory>, i: nat) returns (x: nat)
    requires i < |candidates|
    ensures var g := Group(candidates, candidates[i].namespace); x < |g| && g[x] == candidates[i]
    decreases |candidates|
  {
    var n := |candidates| - 1;
    if i < n {
      x := PlaceInGroup(candidates[..n], i);
    } else {
      x := |Group(candidates[..n], candidates[i].namespace)|;
    }
  }

  lemma OrderIsUnreserved(candidates: seq<Memory>, order: seq<string>)
    requires IsOrder(candidates, order)
    ensures forall ns :: ns in order ==> !Reserved(ns)
  {
    forall ns | ns in order ensures !Reserved(ns) {
      assert ns in Namespaces(candidates);
    }
  }

  // ----- The iteration order does not matter -----------------------------

  function TotalSize(clusters: seq<seq<Memory>>): nat {
    if clusters == [] then 0 else TotalSize(clusters[..|clusters| - 1]) + |clusters[|clusters| - 1]|
  }

  lemma {:induction false} TotalSizeAppend(a: seq<seq<Memory>>, b: seq<seq<Memory>>)
    ensures TotalSize(a + b) == TotalSize(a) + TotalSize(b)
    decreases |b|
  {
    if b == [] {
      assert a + b == a;
    } else {
      var n := |b| - 1;
      assert (a + b)[..|a| + n] == a + b[..n];
      TotalSizeAppend(a, b[..n]);
    }
  }

  lemma {:induction false} MoveLast(lens: Lens, candidates: seq<Memory>, a: seq<string>, ns: string, b: seq<string>)
    ensures var whole, without := ClustersIn(lens, candidates, a + [ns] + b), ClustersIn(lens, candidates, a + b);
      var own := GroupClusters(lens, Group(candidates, ns));
      && multiset(whole) == multiset(without) + multiset(own)
      && TotalSize(whole) == TotalSize(without) + TotalSize(own)
    decreases |b|
  {
    hide GroupClusters, Group, ClustersIn, TotalSize;
    var own := GroupClusters(lens, Group(candidates, ns));
    if b == [] {
      assert a + [ns] + b == a + [ns] && a + b == a;
      ClustersSnoc(lens, candidates, a, ns);
    } else {
      var n := |b| - 1;
      MoveLast(lens, candidates, a, ns, b[..n]);
      assert a + [ns] + b == (a + [ns] + b[..n]) + [b[n]];
      assert a + b == (a + b[..n]) + [b[n]];
      ClustersSnoc(lens, candidates, a + [ns] + b[..n], b[n]);
      ClustersSnoc(lens, candidates, a + b[..n], b[n]);
    }
  }

  lemma ClustersSnoc(lens: Lens, candidates: seq<Memory>, order: seq<string>, ns: string)
    ensures var before, own := ClustersIn(lens, candidates, order), GroupClusters(lens, Group(candidates, ns));
      var whole := ClustersIn(lens, candidates, order + [ns]);
      && multiset(whole) == multiset(before) + multiset(own)
      && TotalSize(whole) == TotalSize(before) + TotalSize(own)
  {
    hide GroupClusters, Group, TotalSize;
    assert (order + [ns])[..|order|] == order;
    TotalSizeAppend(ClustersIn(lens, candidates, order), GroupClusters(lens, Group(candidates, ns)));
  }

  /** Whatever order the namespaces are visited in, the same clusters are formed. */
  lemma {:induction false} OrderIrrelevant(lens: Lens, candidates: seq<Memory>, o: seq<string>, p: seq<string>)
    requires forall i, j :: 0 <= i < j < |o| ==> o[i] != o[j]
    requires forall i, j :: 0 <= i < j < |p| ==> p[i] != p[j]
    requires Names(o) == Names(p)
    ensures var x, y := ClustersIn(lens, candidates, o), ClustersIn(lens, candidates, p);
      multiset(x) == multiset(y) && |x| == |y| && TotalSize(x) == TotalSize(y)
    decreases |o|
  {
    hide ClustersIn, TotalSize;
    SomeNames(o);
    SomeNames(p);
    if o != [] {
      var n := |o| - 1;
      var a, b := SplitAt(o[n], o, p);
      assert o == o[..n] + [o[n]] + [] && o[..n] + [] == o[..n];
      MoveLast(lens, candidates, o[..n], o[n], []);
      MoveLast(lens, candidates, a, o[n], b);
      OrderIrrelevant(lens, candidates, o[..n], a + b);
      var x, y := ClustersIn(lens, candidates, o), ClustersIn(lens, candidates, p);
      assert |x| == |multiset(x)| == |multiset(y)| == |y|;
    }
  }

  lemma SomeNames(o: seq<string>)
    ensures o == [] <==> Names(o) == {}
  {
    if o != [] {
      assert o[0] in Names(o);
    }
  }

  lemma SplitAt(last: string, o: seq<string>, p: seq<string>) returns (a: seq<string>, b: seq<string>)
    requires o != [] && o[|o| - 1] == last
    requires forall i, j :: 0 <= i < j < |o| ==> o[i] != o[j]
    requires forall i, j :: 0 <= i < j < |p| ==> p[i] != p[j]
    requires Names(o) == Names(p)
    ensures p == a + [last] + b
    ensures forall i, j :: 0 <= i < j < |a + b| ==> (a + b)[i] != (a + b)[j]
    ensures Names(o[..|o| - 1]) == Names(a + b)
  {
    var n := |o| - 1;
    assert last in Names(o) && last in Names(p);
    var k :| 0 <= k < |p| && p[k] == last;
    a, b := p[..k], p[k + 1..];
    assert p == a + [last] + b;
    assert o == o[..n] + [last];
    assert Names(o) == Names(o[..n]) + {last};
    assert Names(p) == Names(a + b) + {last};
    assert last !in Names(o[..n]) && last !in Names(a + b);
    assert Names(o[..n]) == Names(a + b);
  }
}
