/** Paths: the ancestry walk is deterministic, ends in one of the four roots, and names each node uniquely. */
module Namespace7 {
  import opened Bytes
  import opened Format7
  import opened Generation7

  const SLASH: Byte := 47

  /** `"/" + "/".join(reversed(names))` for the names a walk met from a node up to its root. */
  function Slashed(names: seq<seq<Byte>>): (p: seq<Byte>)
  {
    if names == [] then [] else Slashed(names[1..]) + [SLASH] + names[0]
  }

  function NamesOf(nodes: seq<Option<Node>>, c: seq<int>): (names: seq<seq<Byte>>)
    requires forall k :: 0 <= k < |c| ==> Live(nodes, c[k])
    ensures |names| == |c|
  {
    seq(|c|, k requires 0 <= k < |c| => assert Live(nodes, c[k]); nodes[c[k]].value.name)
  }

  lemma {:induction false} ChainLive(nodes: seq<Option<Node>>, c: seq<int>, k: nat)
    requires Chain(nodes, c) && k < |c|
    ensures Live(nodes, c[k])
    ensures Chain(nodes, c[k..])
    ensures k + 1 < |c| ==> ParentOf(nodes, c[k], c[k + 1])
    ensures k + 1 == |c| ==> nodes[c[k]].value.parent == 0
  {
    if k > 0 {
      ChainLive(nodes, c[1..], k - 1);
      assert c[1..][k - 1..] == c[k..];
    } else {
      assert c[0..] == c;
    }
  }

  /** The path string of a node, given its chain of ancestors. */
  ghost function PathOf(nodes: seq<Option<Node>>, c: seq<int>): seq<Byte>
    requires Chain(nodes, c)
  {
    forall k | 0 <= k < |c| ensures Live(nodes, c[k]) { ChainLive(nodes, c, k); }
    Slashed(NamesOf(nodes, c))
  }

  lemma PathStep(nodes: seq<Option<Node>>, c: seq<int>)
    requires Chain(nodes, c)
    ensures |c| == 1 ==> PathOf(nodes, c) == [] + [SLASH] + nodes[c[0]].value.name
    ensures |c| > 1 ==> PathOf(nodes, c) == PathOf(nodes, c[1..]) + [SLASH] + nodes[c[0]].value.name
  {
    forall k | 0 <= k < |c| ensures Live(nodes, c[k]) { ChainLive(nodes, c, k); }
    var names := NamesOf(nodes, c);
    assert names[0] == nodes[c[0]].value.name;
    if |c| > 1 {
      assert names[1..] == NamesOf(nodes, c[1..]);
    } else {
      assert names[1..] == [];
      assert Slashed(names) == Slashed([]) + [SLASH] + names[0];
    }
  }

  // ---- The walk is deterministic ----------------------------------------------

  /** A node has one chain of ancestors. */
  lemma {:induction false} ChainUnique(nodes: seq<Option<Node>>, c: seq<int>, d: seq<int>)
    requires IdsDistinct(nodes) && Chain(nodes, c) && Chain(nodes, d) && c[0] == d[0]
    ensures c == d
  {
    if |c| == 1 || |d| == 1 {
      assert c == d;
    } else {
      assert c[1] == d[1];
      ChainUnique(nodes, c[1..], d[1..]);
      assert c == [c[0]] + c[1..] && d == [d[0]] + d[1..];
    }
  }

  /** A chain never visits a slot twice. */
  lemma ChainAcyclic(nodes: seq<Option<Node>>, c: seq<int>, i: nat, j: nat)
    requires IdsDistinct(nodes) && Chain(nodes, c) && i < j < |c|
    ensures c[i] != c[j]
  {
    if c[i] == c[j] {
      ChainLive(nodes, c, i);
      ChainLive(nodes, c, j);
      ChainUnique(nodes, c[i..], c[j..]);
      assert false;
    }
  }

  /** Every accepted node reaches one of the four roots, within its own space. */
  lemma {:induction false} ReachesRoot(nodes: seq<Option<Node>>, c: seq<int>)
    requires RootsOk(nodes) && Chain(nodes, c)
    ensures Live(nodes, c[|c| - 1])
    ensures var root := nodes[c[|c| - 1]].value;
      RootShape(root) && root.parent == 0 && root.id == nodes[c[0]].value.space
  {
    if |c| > 1 {
      ReachesRoot(nodes, c[1..]);
    }
  }

  // ---- Paths are unique -------------------------------------------------------

  predicate NoSlash(name: seq<Byte>)
  {
    forall i :: 0 <= i < |name| ==> name[i] != SLASH
  }

  lemma SplitAtLastSlash(a: seq<Byte>, n: seq<Byte>, b: seq<Byte>, m: seq<Byte>)
    requires NoSlash(n) && NoSlash(m)
    requires a + [SLASH] + n == b + [SLASH] + m
    ensures a == b && n == m
  {
    var p, q := a + [SLASH] + n, b + [SLASH] + m;
    assert p[|a|] == SLASH && q[|b|] == SLASH;
    assert forall i :: |a| < i < |p| ==> p[i] == n[i - |a| - 1] != SLASH;
    assert forall i :: |b| < i < |q| ==> q[i] == m[i - |b| - 1] != SLASH;
    assert |a| == |b|;
    assert a == p[..|a|] && b == q[..|b|];
    assert n == p[|a| + 1..] && m == q[|b| + 1..];
  }

  lemma PathNonEmpty(nodes: seq<Option<Node>>, c: seq<int>)
    requires Chain(nodes, c)
    ensures |PathOf(nodes, c)| > 0
  {
    PathStep(nodes, c);
  }

  /** Distinct nodes have distinct path strings, so a map keyed by path loses no file. */
  lemma {:induction false} PathsDistinct(g: Generation, c: seq<int>, d: seq<int>)
    requires NodesBounded(g) && IdsDistinct(g.nodes) && SiblingsDistinct(g.nodes)
    requires Chain(g.nodes, c) && Chain(g.nodes, d)
    requires PathOf(g.nodes, c) == PathOf(g.nodes, d)
    ensures c[0] == d[0]
  {
    var a, b := g.nodes[c[0]].value, g.nodes[d[0]].value;
    assert NodeOk(a) && NodeOk(b);
    PathStep(g.nodes, c);
    PathStep(g.nodes, d);
    var before := if |c| == 1 then [] else PathOf(g.nodes, c[1..]);
    var behind := if |d| == 1 then [] else PathOf(g.nodes, d[1..]);
    SplitAtLastSlash(before, a.name, behind, b.name);
    if |c| > 1 { PathNonEmpty(g.nodes, c[1..]); }
    if |d| > 1 { PathNonEmpty(g.nodes, d[1..]); }
    if |c| > 1 {
      PathsDistinct(g, c[1..], d[1..]);
    }
    assert SameSibling(a, b);
  }
}
