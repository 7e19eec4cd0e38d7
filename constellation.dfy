/** The ConstellationNetwork effect of src/components/atoms/ParticleEffects.tsx:
    its size parameters, the connection builder run once on mount, and the
    resize check. Node positions come from sines and cosines of random
    phases; the builder only sees their pairwise distances, so these are an
    n-by-n matrix of reals given as input. Random draws are a stream
    rand(0), rand(1), … consumed in order. */
module ConstellationNetwork {
  import opened Seqs

  const MinNodes: nat := 15
  const MaxNodes: nat := 30
  const AreaPerNode: nat := 50000
  const MobileBreakpoint: nat := 768

  /** Math.min(Math.max(15, Math.floor(area / 50000)), 30) for whole-pixel
      window sizes. */
  function NodeCount(width: nat, height: nat): (n: nat)
    ensures MinNodes <= n <= MaxNodes
    ensures var f := width * height / AreaPerNode;
            && (f < MinNodes ==> n == MinNodes)
            && (MinNodes <= f <= MaxNodes ==> n == f)
            && (f > MaxNodes ==> n == MaxNodes)
  {
    var f := width * height / AreaPerNode;
    if f < MinNodes then MinNodes else if f > MaxNodes then MaxNodes else f
  }

  /** The distance under which two nodes may be joined: 150 on narrow
      screens, 250 otherwise. */
  function MaxDistance(width: nat): (r: real)
    ensures width < MobileBreakpoint ==> r == 150.0
    ensures width >= MobileBreakpoint ==> r == 250.0
  {
    if width < MobileBreakpoint then 150.0 else 250.0
  }

  /** The number of nearest neighbours each node considers: 3 on narrow
      screens, 4 otherwise. */
  function MaxConnectionsPerNode(width: nat): (k: nat)
    ensures width < MobileBreakpoint ==> k == 3
    ensures width >= MobileBreakpoint ==> k == 4
  {
    if width < MobileBreakpoint then 3 else 4
  }

  /* ---------- Candidates and their order ---------- */

  /** A candidate neighbour j of a node, with its distance. */
  datatype Cand = Cand(j: nat, distance: real)

  /** Nearer first; at equal distance, lower index first. */
  predicate Before(a: Cand, b: Cand) {
    a.distance < b.distance || (a.distance == b.distance && a.j < b.j)
  }

  /** d is a square matrix: one row per node, one column per node. */
  predicate Square(d: seq<seq<real>>) {
    forall r :: 0 <= r < |d| ==> |d[r]| == |d|
  }

  predicate JAscending(s: seq<Cand>) {
    forall a, b :: 0 <= a < b < |s| ==> s[a].j < s[b].j
  }

  predicate InOrder(s: seq<Cand>) {
    forall a, b :: 0 <= a < b < |s| ==> Before(s[a], s[b])
  }

  /** The candidates list after the inner loop has seen j = 0 … m-1: every
      other node, in index order, with its distance from node i. */
  function CandsUpTo(d: seq<seq<real>>, i: nat, m: nat): (r: seq<Cand>)
    requires Square(d) && i < |d| && m <= |d|
    ensures JAscending(r)
    ensures forall k :: 0 <= k < |r| ==> r[k].j < m && r[k].j != i && r[k].distance == d[i][r[k].j]
    ensures forall j :: 0 <= j < m && j != i ==> Cand(j, d[i][j]) in r
    decreases m
  {
    if m == 0 then []
    else
      var init := CandsUpTo(d, i, m - 1);
      if m - 1 != i then init + [Cand(m - 1, d[i][m - 1])] else init
  }

  function CandidatesOf(d: seq<seq<real>>, i: nat): seq<Cand>
    requires Square(d) && i < |d|
  {
    CandsUpTo(d, i, |d|)
  }

  /** Insert x before the first element at least as far away. */
  function Insert(x: Cand, l: seq<Cand>): (r: seq<Cand>)
    ensures |r| == |l| + 1
    ensures multiset(r) == multiset(l) + multiset{x}
    decreases |l|
  {
    if l == [] then [x]
    else if x.distance <= l[0].distance then [x] + l
    else
      assert l == [l[0]] + l[1..];
      [l[0]] + Insert(x, l[1..])
  }

  /** candidates.sort((a, b) => a.distance - b.distance), a stable sort:
      insertion sort, each element placed before the equal ones after it. */
  function SortByDistance(s: seq<Cand>): (r: seq<Cand>)
    ensures |r| == |s|
    ensures multiset(r) == multiset(s)
    decreases |s|
  {
    if s == [] then []
    else
      assert s == [s[0]] + s[1..];
      Insert(s[0], SortByDistance(s[1..]))
  }

  /** Every element of an insertion is the inserted one or one of the list's. */
  lemma {:induction false} InsertFrom(x: Cand, l: seq<Cand>)
    ensures forall k :: 0 <= k < |Insert(x, l)| ==> Insert(x, l)[k] == x || Insert(x, l)[k] in l
    decreases |l|
  {
    if l != [] && x.distance > l[0].distance {
      InsertFrom(x, l[1..]);
      var rest := Insert(x, l[1..]);
      assert Insert(x, l) == [l[0]] + rest;
      forall k | 1 <= k < |Insert(x, l)| ensures Insert(x, l)[k] == x || Insert(x, l)[k] in l {
        assert Insert(x, l)[k] == rest[k - 1];
      }
    }
  }

  /** An element before every element of an ordered list can head it. */
  lemma ConsInOrder(h: Cand, rest: seq<Cand>)
    requires InOrder(rest)
    requires forall k :: 0 <= k < |rest| ==> Before(h, rest[k])
    ensures InOrder([h] + rest)
  {
    var r := [h] + rest;
    forall a, b | 0 <= a < b < |r| ensures Before(r[a], r[b]) {
      if a == 0 {
        assert r[b] == rest[b - 1];
      } else {
        assert r[a] == rest[a - 1] && r[b] == rest[b - 1];
      }
    }
  }

  /** Inserting an element whose index is below every index of an ordered
      list keeps it ordered. */
  lemma {:induction false} InsertInOrder(x: Cand, l: seq<Cand>)
    requires InOrder(l)
    requires forall k :: 0 <= k < |l| ==> x.j < l[k].j
    ensures InOrder(Insert(x, l))
    decreases |l|
  {
    if l != [] && x.distance > l[0].distance {
      var tail := l[1..];
      var rest := Insert(x, tail);
      InsertInOrder(x, tail);
      InsertFrom(x, tail);
      forall k | 0 <= k < |rest| ensures Before(l[0], rest[k]) {
        if rest[k] != x {
          var q :| 0 <= q < |tail| && tail[q] == rest[k];
          assert l[q + 1] == rest[k];
        }
      }
      assert Insert(x, l) == [l[0]] + rest;
      ConsInOrder(l[0], rest);
    }
  }

  /** Sorting a list in index order by distance orders it by Before: the
      stable sort breaks ties by the lower index. */
  lemma {:induction false} SortInOrder(s: seq<Cand>)
    requires JAscending(s)
    ensures InOrder(SortByDistance(s))
    decreases |s|
  {
    if s != [] {
      var rest := SortByDistance(s[1..]);
      SortInOrder(s[1..]);
      forall k | 0 <= k < |rest| ensures s[0].j < rest[k].j {
        assert rest[k] in multiset(rest);
        assert rest[k] in multiset(s[1..]);
        assert rest[k] in s[1..];
        var q :| 0 <= q < |s[1..]| && s[1..][q] == rest[k];
        assert s[q + 1] == rest[k];
      }
      InsertInOrder(s[0], rest);
    }
  }

  /** candidates.slice(0, k). */
  function Take(s: seq<Cand>, k: nat): (r: seq<Cand>)
    ensures |r| == if |s| < k then |s| else k
    ensures r == s[..|r|]
  {
    if |s| <= k then s else s[..k]
  }

  /** selectedConnections of node i. */
  function Selected(d: seq<seq<real>>, i: nat, k: nat): seq<Cand>
    requires Square(d) && i < |d|
  {
    Take(SortByDistance(CandidatesOf(d, i)), k)
  }

  /** Every selected neighbour is another node at its own distance from i,
      and no neighbour is selected twice. */
  lemma SelectedFacts(d: seq<seq<real>>, i: nat, k: nat)
    requires Square(d) && i < |d|
    ensures var sel := Selected(d, i, k);
            && |sel| <= k
            && (forall p :: 0 <= p < |sel| ==>
                  sel[p].j < |d| && sel[p].j != i && sel[p].distance == d[i][sel[p].j])
            && (forall p, q :: 0 <= p < q < |sel| ==> sel[p].j != sel[q].j)
  {
    var c := CandidatesOf(d, i);
    var s := SortByDistance(c);
    var sel := Selected(d, i, k);
    SortInOrder(c);
    forall p | 0 <= p < |s| ensures s[p].j < |d| && s[p].j != i && s[p].distance == d[i][s[p].j] {
      InCandidates(c, s, p);
    }
    forall p, q | 0 <= p < q < |sel| ensures sel[p].j != sel[q].j {
      assert Before(s[p], s[q]);
    }
  }

  /** An element of the sorted list is one of the candidates. */
  lemma InCandidates(c: seq<Cand>, s: seq<Cand>, p: nat)
    requires multiset(s) == multiset(c) && p < |s|
    ensures s[p] in c
  {
    assert s[p] in multiset(s);
  }

  /** The selection is the k nearest candidates: it has min(k, n - 1)
      members, all candidates, and each selected candidate comes Before
      every candidate left out (nearer, or as near with a lower index). */
  lemma {:induction false} SelectedNearest(d: seq<seq<real>>, i: nat, k: nat)
    requires Square(d) && i < |d|
    ensures var sel := Selected(d, i, k); var c := CandidatesOf(d, i);
            && |sel| == (if |c| < k then |c| else k)
            && |c| == |d| - 1
            && (forall p :: 0 <= p < |sel| ==> sel[p] in c)
            && (forall p, y :: 0 <= p < |sel| && y in c && y !in sel ==> Before(sel[p], y))
  {
    var c := CandidatesOf(d, i);
    var s := SortByDistance(c);
    var sel := Selected(d, i, k);
    SortInOrder(c);
    CandidateCount(d, i, |d|);
    forall p | 0 <= p < |sel| ensures sel[p] in c {
      InCandidates(c, s, p);
    }
    forall p, y | 0 <= p < |sel| && y in c && y !in sel ensures Before(sel[p], y) {
      LeftOutComesAfter(c, s, |sel|, p, y);
    }
  }

  /** In a sorted permutation of c, a candidate outside the first m comes
      after each of them. */
  lemma LeftOutComesAfter(c: seq<Cand>, s: seq<Cand>, m: nat, p: nat, y: Cand)
    requires multiset(s) == multiset(c) && InOrder(s)
    requires p < m <= |s| && y in c && y !in s[..m]
    ensures Before(s[p], y)
  {
    assert y in multiset(c);
    assert y in multiset(s);
    var q :| 0 <= q < |s| && s[q] == y;
    assert forall r :: 0 <= r < m ==> s[..m][r] == s[r];
  }

  /** There is one candidate per other node. */
  lemma {:induction false} CandidateCount(d: seq<seq<real>>, i: nat, m: nat)
    requires Square(d) && i < |d| && m <= |d|
    ensures |CandsUpTo(d, i, m)| == if i < m then m - 1 else m
    decreases m
  {
    if m > 0 {
      CandidateCount(d, i, m - 1);
    }
  }

  /* ---------- Connections ---------- */

  /** One entry of connectionsCache. */
  datatype Connection = Connection(i: nat, j: nat, shouldConnect: bool, opacity1: real, opacity2: real)

  /** The selectedConnections of every node, in node order. */
  function Selections(d: seq<seq<real>>, k: nat): (r: seq<seq<Cand>>)
    requires Square(d)
    ensures |r| == |d| && forall i :: 0 <= i < |d| ==> r[i] == Selected(d, i, k)
  {
    seq(|d|, i requires 0 <= i < |d| => Selected(d, i, k))
  }

  /** The facts about the selections the connection lemmas rest on: each
      node has at most k selected neighbours, all other nodes below n, no
      neighbour twice. */
  predicate WellFormed(sels: seq<seq<Cand>>, n: nat, k: nat) {
    forall i :: 0 <= i < |sels| ==>
      && |sels[i]| <= k
      && (forall p :: 0 <= p < |sels[i]| ==> sels[i][p].j < n)
      && (forall p, q :: 0 <= p < q < |sels[i]| ==> sels[i][p].j != sels[i][q].j)
  }

  lemma SelectionsWellFormed(d: seq<seq<real>>, k: nat)
    requires Square(d)
    ensures WellFormed(Selections(d, k), |d|, k)
  {
    var sels: seq<seq<Cand>> := Selections(d, k);
    forall i | 0 <= i < |sels|
      ensures && |sels[i]| <= k
              && (forall p :: 0 <= p < |sels[i]| ==> sels[i][p].j < |d|)
              && (forall p, q :: 0 <= p < q < |sels[i]| ==> sels[i][p].j != sels[i][q].j)
    {
      SelectedFacts(d, i, k);
    }
  }

  /** The endpoints of node i's connections: the selected neighbours j
      with i < j, in selection order. */
  function BlockPairs(sel: seq<Cand>, i: nat): (r: seq<(nat, nat)>)
    ensures |r| <= |sel|
    ensures forall t :: 0 <= t < |r| ==> r[t].0 == i && i < r[t].1
    decreases |sel|
  {
    if sel == [] then []
    else
      var last := sel[|sel| - 1];
      BlockPairs(sel[..|sel| - 1], i) + (if i < last.j then [(i, last.j)] else [])
  }

  /** Extending the scanned prefix of a selection by one neighbour adds that
      neighbour's pair exactly when its index is higher. */
  lemma BlockPairsStep(sel: seq<Cand>, m: nat, i: nat)
    requires m < |sel|
    ensures BlockPairs(sel[..m + 1], i)
            == BlockPairs(sel[..m], i) + (if i < sel[m].j then [(i, sel[m].j)] else [])
  {
    assert sel[..m + 1][..m] == sel[..m];
  }

  /** The endpoints of all connections made by nodes 0 … m-1. */
  function PairsOf(sels: seq<seq<Cand>>, m: nat): seq<(nat, nat)>
    requires m <= |sels|
    decreases m
  {
    if m == 0 then [] else PairsOf(sels, m - 1) + BlockPairs(sels[m - 1], m - 1)
  }

  function Pairs(cs: seq<Connection>): (r: seq<(nat, nat)>)
    ensures |r| == |cs| && forall t :: 0 <= t < |cs| ==> r[t] == (cs[t].i, cs[t].j)
  {
    seq(|cs|, t requires 0 <= t < |cs| => (cs[t].i, cs[t].j))
  }

  ghost predicate AllDraws(rand: nat -> real) {
    forall t: nat :: 0.0 <= rand(t) < 1.0
  }

  /** What the builder promises of each connection it records: a lower
      node joined to a higher one, a shown line only under maxDistance, and
      opacities in their ranges. */
  predicate ConnectionsValid(cs: seq<Connection>, d: seq<seq<real>>, maxDistance: real)
    requires Square(d)
  {
    forall t :: 0 <= t < |cs| ==>
      && cs[t].i < cs[t].j < |d|
      && (cs[t].shouldConnect ==> d[cs[t].i][cs[t].j] < maxDistance)
      && 0.1 <= cs[t].opacity1 < 0.3 && 0.2 <= cs[t].opacity2 < 0.5
  }

  /** Recording one more connection records its pair last. */
  lemma PairsSnoc(cs: seq<Connection>, c: Connection)
    ensures Pairs(cs + [c]) == Pairs(cs) + [(c.i, c.j)]
  {
    assert forall t :: 0 <= t < |cs| ==> (cs + [c])[t] == cs[t];
  }

  /** A valid connection keeps the recorded list valid. */
  lemma ValidSnoc(cs: seq<Connection>, c: Connection, d: seq<seq<real>>, maxDistance: real)
    requires Square(d) && ConnectionsValid(cs, d, maxDistance)
    requires c.i < c.j < |d| && (c.shouldConnect ==> d[c.i][c.j] < maxDistance)
    requires 0.1 <= c.opacity1 < 0.3 && 0.2 <= c.opacity2 < 0.5
    ensures ConnectionsValid(cs + [c], d, maxDistance)
  {
    assert forall t :: 0 <= t < |cs| ==> (cs + [c])[t] == cs[t];
  }

  /** The inner loop over j: every other node with its distance, by index. */
  method CollectCandidates(d: seq<seq<real>>, i: nat) returns (candidates: seq<Cand>)
    requires Square(d) && i < |d|
    ensures candidates == CandidatesOf(d, i)
  {
    candidates := [];
    for j := 0 to |d|
      invariant candidates == CandsUpTo(d, i, j)
    {
      if i != j {
        candidates := candidates + [Cand(j, d[i][j])];
      }
    }
  }

  /** The loop over node i's selected neighbours: a connection to each one
      of higher index. shouldConnect needs the distance under maxDistance
      and, only then, a draw under 0.8; two more draws give the opacities. */
  method ConnectSelected(d: seq<seq<real>>, maxDistance: real, rand: nat -> real, i: nat,
                         selected: seq<Cand>, connections0: seq<Connection>, used0: nat)
    returns (connections: seq<Connection>, used: nat)
    requires Square(d) && AllDraws(rand) && i < |d|
    requires forall p :: 0 <= p < |selected| ==>
               selected[p].j < |d| && selected[p].distance == d[i][selected[p].j]
    requires ConnectionsValid(connections0, d, maxDistance)
    ensures Pairs(connections) == Pairs(connections0) + BlockPairs(selected, i)
    ensures ConnectionsValid(connections, d, maxDistance)
  {
    connections, used := connections0, used0;
    for m := 0 to |selected|
      invariant Pairs(connections) == Pairs(connections0) + BlockPairs(selected[..m], i)
      invariant ConnectionsValid(connections, d, maxDistance)
    {
      var cand := selected[m];
      BlockPairsStep(selected, m, i);
      if i < cand.j {
        var shouldConnect := false;
        if cand.distance < maxDistance {
          shouldConnect := rand(used) < 0.8;
          used := used + 1;
        }
        var opacity1 := 0.1 + rand(used) * 0.2;
        used := used + 1;
        var opacity2 := 0.2 + rand(used) * 0.3;
        used := used + 1;
        var conn := Connection(i, cand.j, shouldConnect, opacity1, opacity2);
        PairsSnoc(connections, conn);
        AppendAssoc(Pairs(connections0), BlockPairs(selected[..m], i), [(i, cand.j)]);
        ValidSnoc(connections, conn, d, maxDistance);
        connections := connections + [conn];
      }
    }
    assert selected[..|selected|] == selected;
  }

  /** The mount effect's connection builder: for each node, collect the
      other nodes with their distances, sort them by distance, keep the
      first maxConnectionsPerNode, and connect it to the kept nodes of
      higher index. rand(t) is the t-th Math.random() draw; used counts the
      draws taken. */
  method BuildConnections(d: seq<seq<real>>, maxDistance: real, maxConnections: nat, rand: nat -> real)
    returns (connections: seq<Connection>, used: nat)
    requires Square(d) && AllDraws(rand)
    ensures Pairs(connections) == PairsOf(Selections(d, maxConnections), |d|)
    ensures ConnectionsValid(connections, d, maxDistance)
  {
    ghost var sels := Selections(d, maxConnections);
    connections, used := [], 0;
    for i := 0 to |d|
      invariant Pairs(connections) == PairsOf(sels, i)
      invariant ConnectionsValid(connections, d, maxDistance)
    {
      var candidates := CollectCandidates(d, i);
      var selected := Take(SortByDistance(candidates), maxConnections);
      assert selected == sels[i];
      SelectedFacts(d, i, maxConnections);
      connections, used := ConnectSelected(d, maxDistance, rand, i, selected, connections, used);
    }
  }

  /* ---------- Properties of the connection set ---------- */

  /** j is one of the selected neighbours in sel. */
  predicate Chosen(sel: seq<Cand>, j: nat) {
    exists p :: 0 <= p < |sel| && sel[p].j == j
  }

  /** A block's pairs are (i, j) for selected neighbours j of node i. */
  lemma {:induction false} BlockPairsFrom(sel: seq<Cand>, i: nat, t: nat)
    requires t < |BlockPairs(sel, i)|
    ensures Chosen(sel, BlockPairs(sel, i)[t].1)
    decreases |sel|
  {
    var init := sel[..|sel| - 1];
    var ri := BlockPairs(init, i);
    if t < |ri| {
      BlockPairsFrom(init, i, t);
      var p :| 0 <= p < |init| && init[p].j == ri[t].1;
      assert sel[p] == init[p];
      assert BlockPairs(sel, i)[t] == ri[t];
    } else {
      assert BlockPairs(sel, i)[t].1 == sel[|sel| - 1].j;
      assert 0 <= |sel| - 1 < |sel|;
    }
  }

  /** Every selected neighbour of higher index gets its pair in the block. */
  lemma {:induction false} BlockPairsComplete(sel: seq<Cand>, i: nat, p: nat)
    requires p < |sel| && i < sel[p].j
    ensures (i, sel[p].j) in BlockPairs(sel, i)
    decreases |sel|
  {
    var init := sel[..|sel| - 1];
    if p < |sel| - 1 {
      BlockPairsComplete(init, i, p);
      assert init[p] == sel[p];
    }
  }

  /** With distinct neighbour indices, a block has no repeated pair. */
  lemma {:induction false} BlockPairsDistinct(sel: seq<Cand>, i: nat)
    requires forall p, q :: 0 <= p < q < |sel| ==> sel[p].j != sel[q].j
    ensures forall a, b :: 0 <= a < b < |BlockPairs(sel, i)| ==> BlockPairs(sel, i)[a] != BlockPairs(sel, i)[b]
    decreases |sel|
  {
    if sel != [] {
      var init := sel[..|sel| - 1];
      var last := sel[|sel| - 1];
      BlockPairsDistinct(init, i);
      var r := BlockPairs(sel, i);
      var ri := BlockPairs(init, i);
      forall a, b | 0 <= a < b < |r| ensures r[a] != r[b] {
        if b >= |ri| {
          assert r[b] == (i, last.j);
          assert r[a] == ri[a];
          BlockPairsFrom(init, i, a);
          var p :| 0 <= p < |init| && init[p].j == ri[a].1;
          assert sel[p] == init[p];
        } else {
          assert r[a] == ri[a] && r[b] == ri[b];
        }
      }
    }
  }

  /** Pair t of the first m blocks, located in its block. */
  lemma {:induction false} PairsOfAt(sels: seq<seq<Cand>>, m: nat, t: nat)
    requires m <= |sels| && t < |PairsOf(sels, m)|
    ensures var pr := PairsOf(sels, m)[t];
            pr.0 < m && pr in BlockPairs(sels[pr.0], pr.0)
    decreases m
  {
    var prev := PairsOf(sels, m - 1);
    var block := BlockPairs(sels[m - 1], m - 1);
    assert PairsOf(sels, m) == prev + block;
    if t < |prev| {
      PairsOfAt(sels, m - 1, t);
      assert PairsOf(sels, m)[t] == prev[t];
    } else {
      assert PairsOf(sels, m)[t] == block[t - |prev|];
    }
  }

  /** Every connection joins a lower-index node to a higher-index one, and
      links it to one of that node's selected nearest neighbours. */
  lemma ConnectionsAreSelected(sels: seq<seq<Cand>>, n: nat, k: nat, t: nat)
    requires WellFormed(sels, n, k) && t < |PairsOf(sels, |sels|)|
    ensures var (i, j) := PairsOf(sels, |sels|)[t];
            && i < j < n
            && i < |sels|
            && Chosen(sels[i], j)
  {
    var pr := PairsOf(sels, |sels|)[t];
    PairsOfAt(sels, |sels|, t);
    var block := BlockPairs(sels[pr.0], pr.0);
    var u :| 0 <= u < |block| && block[u] == pr;
    BlockPairsFrom(sels[pr.0], pr.0, u);
  }

  /** Every selected neighbour of higher index is connected. */
  lemma {:induction false} SelectedAreConnected(sels: seq<seq<Cand>>, m: nat, i: nat, p: nat)
    requires m <= |sels| && i < m && p < |sels[i]| && i < sels[i][p].j
    ensures (i, sels[i][p].j) in PairsOf(sels, m)
    decreases m
  {
    assert PairsOf(sels, m) == PairsOf(sels, m - 1) + BlockPairs(sels[m - 1], m - 1);
    if i == m - 1 {
      BlockPairsComplete(sels[i], i, p);
    } else {
      SelectedAreConnected(sels, m - 1, i, p);
    }
  }

  /** No pair of nodes is connected twice. */
  lemma {:induction false} PairsDistinct(sels: seq<seq<Cand>>, n: nat, k: nat, m: nat)
    requires WellFormed(sels, n, k) && m <= |sels|
    ensures forall a, b :: 0 <= a < b < |PairsOf(sels, m)| ==> PairsOf(sels, m)[a] != PairsOf(sels, m)[b]
    decreases m
  {
    if m > 0 {
      PairsDistinct(sels, n, k, m - 1);
      var prev := PairsOf(sels, m - 1);
      var block := BlockPairs(sels[m - 1], m - 1);
      BlockPairsDistinct(sels[m - 1], m - 1);
      var r := PairsOf(sels, m);
      assert r == prev + block;
      forall a, b | 0 <= a < b < |r| ensures r[a] != r[b] {
        if b < |prev| {
          assert r[a] == prev[a] && r[b] == prev[b];
        } else if a < |prev| {
          PairsOfAt(sels, m - 1, a);
          assert r[a] == prev[a] && r[b] == block[b - |prev|];
        } else {
          assert r[a] == block[a - |prev|] && r[b] == block[b - |prev|];
        }
      }
    }
  }

  /** A predicate choosing the connections whose lower endpoint is node i. */
  function LowerIs(i: nat): ((nat, nat)) -> bool {
    (pr: (nat, nat)) => pr.0 == i
  }

  /** Node i is the lower endpoint of at most k connections. */
  lemma {:induction false} NodeDegree(sels: seq<seq<Cand>>, n: nat, k: nat, m: nat, i: nat)
    requires WellFormed(sels, n, k) && m <= |sels|
    ensures |Filter(PairsOf(sels, m), LowerIs(i))| <= k
    ensures i >= m ==> Filter(PairsOf(sels, m), LowerIs(i)) == []
    decreases m
  {
    if m > 0 {
      NodeDegree(sels, n, k, m - 1, i);
      assert |sels[m - 1]| <= k;
      DegreeStep(PairsOf(sels, m - 1), sels[m - 1], m - 1, k, i);
    }
  }

  /** Appending node b's block to pairs of lower nodes only below b keeps
      node i's degree within k. */
  lemma DegreeStep(prev: seq<(nat, nat)>, sel: seq<Cand>, b: nat, k: nat, i: nat)
    requires |Filter(prev, LowerIs(i))| <= k
    requires i >= b ==> Filter(prev, LowerIs(i)) == []
    requires |sel| <= k
    ensures |Filter(prev + BlockPairs(sel, b), LowerIs(i))| <= k
    ensures i >= b + 1 ==> Filter(prev + BlockPairs(sel, b), LowerIs(i)) == []
  {
    var block := BlockPairs(sel, b);
    FilterConcat(prev, block, LowerIs(i));
    BlockDegree(sel, b, i);
  }

  /** Node b's block holds only pairs with lower endpoint b. */
  lemma BlockDegree(sel: seq<Cand>, b: nat, i: nat)
    ensures b == i ==> Filter(BlockPairs(sel, b), LowerIs(i)) == BlockPairs(sel, b)
    ensures b != i ==> Filter(BlockPairs(sel, b), LowerIs(i)) == []
  {
    var block := BlockPairs(sel, b);
    if b == i {
      FilterKeepsAll(block, LowerIs(i));
    } else {
      FilterDropsAll(block, LowerIs(i));
    }
  }

  /** Every connection the builder produces joins a node to a higher-index
      node that is one of its selected nearest neighbours. */
  lemma ConnectionsFromSelections(d: seq<seq<real>>, k: nat)
    requires Square(d)
    ensures var ps := PairsOf(Selections(d, k), |d|);
            forall t :: 0 <= t < |ps| ==>
              ps[t].0 < ps[t].1 < |d| && Chosen(Selected(d, ps[t].0, k), ps[t].1)
  {
    var sels := Selections(d, k);
    SelectionsWellFormed(d, k);
    var ps := PairsOf(sels, |d|);
    forall t | 0 <= t < |ps|
      ensures ps[t].0 < ps[t].1 < |d| && Chosen(Selected(d, ps[t].0, k), ps[t].1)
    {
      ConnectionsAreSelected(sels, |d|, k, t);
    }
  }

  /** No pair of nodes is connected twice. */
  lemma ConnectionsDistinct(d: seq<seq<real>>, k: nat)
    requires Square(d)
    ensures var ps := PairsOf(Selections(d, k), |d|);
            forall a, b :: 0 <= a < b < |ps| ==> ps[a] != ps[b]
  {
    SelectionsWellFormed(d, k);
    PairsDistinct(Selections(d, k), |d|, k, |d|);
  }

  /** Every selected neighbour of higher index is connected. */
  lemma ConnectionsComplete(d: seq<seq<real>>, k: nat)
    requires Square(d)
    ensures var ps := PairsOf(Selections(d, k), |d|);
            forall i, p :: 0 <= i < |d| && 0 <= p < |Selected(d, i, k)| && i < Selected(d, i, k)[p].j ==>
              (i, Selected(d, i, k)[p].j) in ps
  {
    var sels := Selections(d, k);
    forall i, p | 0 <= i < |d| && 0 <= p < |Selected(d, i, k)| && i < Selected(d, i, k)[p].j
      ensures (i, Selected(d, i, k)[p].j) in PairsOf(sels, |d|)
    {
      SelectedAreConnected(sels, |d|, i, p);
    }
  }

  /** Each node is the lower endpoint of at most maxConnections connections. */
  lemma ConnectionDegree(d: seq<seq<real>>, k: nat)
    requires Square(d)
    ensures var ps := PairsOf(Selections(d, k), |d|);
            forall i :: 0 <= i < |d| ==> |Filter(ps, LowerIs(i))| <= k
  {
    var sels := Selections(d, k);
    SelectionsWellFormed(d, k);
    forall i | 0 <= i < |d| ensures |Filter(PairsOf(sels, |d|), LowerIs(i))| <= k {
      NodeDegree(sels, |d|, k, |d|, i);
    }
  }

  /* ---------- Resize ---------- */

  /** handleResize as written: the second test compares the new maxDistance
      with the same expression, so it can never hold. */
  function ShouldReloadAsWritten(newWidth: nat, newHeight: nat, nodesLength: nat): bool {
    NodeCount(newWidth, newHeight) != nodesLength
      || MaxDistance(newWidth) != MaxDistance(newWidth)
  }

  /** As written, only a change in node count reloads the page. */
  lemma OnlyNodeCountReloads(newWidth: nat, newHeight: nat, nodesLength: nat)
    ensures ShouldReloadAsWritten(newWidth, newHeight, nodesLength)
            <==> NodeCount(newWidth, newHeight) != nodesLength
  {
  }

  /** Narrowing a 1000 by 750 window to 500 by 750 crosses the mobile
      breakpoint (maxDistance 250 to 150) with 15 nodes before and after,
      and the check as written does not reload. */
  lemma BreakpointCrossingIgnored()
    ensures NodeCount(1000, 750) == NodeCount(500, 750) == 15
    ensures MaxDistance(1000) != MaxDistance(500)
    ensures !ShouldReloadAsWritten(500, 750, NodeCount(1000, 750))
  {
  }

  /** The evident intent: reload when the node count or the connection
      distance differs from what the network was built with. */
  function ShouldReload(oldWidth: nat, newWidth: nat, newHeight: nat, nodesLength: nat): bool {
    NodeCount(newWidth, newHeight) != nodesLength || MaxDistance(newWidth) != MaxDistance(oldWidth)
  }

  /** The corrected check reloads exactly when the node count changes or
      the resize crosses the 768-pixel breakpoint. */
  lemma ShouldReloadMeaning(oldWidth: nat, newWidth: nat, newHeight: nat, nodesLength: nat)
    ensures ShouldReload(oldWidth, newWidth, newHeight, nodesLength) <==>
              NodeCount(newWidth, newHeight) != nodesLength
              || ((oldWidth < MobileBreakpoint) != (newWidth < MobileBreakpoint))
    ensures ShouldReloadAsWritten(newWidth, newHeight, nodesLength) ==>
              ShouldReload(oldWidth, newWidth, newHeight, nodesLength)
  {
  }
}
