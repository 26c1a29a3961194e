/**
 * The derivation graph of activities and the check that keeps it acyclic
 * (crates/postproject-storage-sqlite/src/transaction.rs).
 */
module Lineage {
  import opened Identity
  import Provenance

  type Graph = map<Uuid, Provenance.Activity>

  function Representations(edges: seq<Provenance.Edge>): set<Uuid> {
    set i | 0 <= i < |edges| :: edges[i].representation
  }

  predicate Consumes(a: Provenance.Activity, sources: set<Uuid>) {
    Representations(a.inputs) * sources != {}
  }

  // ---- The check, as the recursive query computes it ----

  /** Outputs of the activities that consume one of the sources. */
  function Successors(g: Graph, sources: set<Uuid>): set<Uuid> {
    set a, o | a in g.Keys && o in Representations(g[a].outputs) && Consumes(g[a], sources) :: o
  }

  function Produced(g: Graph): set<Uuid> {
    set a, o | a in g.Keys && o in Representations(g[a].outputs) :: o
  }

  /** Adding successors until nothing new appears. */
  function Descendants(g: Graph, found: set<Uuid>): set<Uuid>
    decreases |Produced(g) - found|
  {
    var next := found + Successors(g, found);
    if next == found then
      found
    else
      MoreAreFound(g, found);
      Descendants(g, next)
  }

  lemma MoreAreFound(g: Graph, found: set<Uuid>)
    requires found + Successors(g, found) != found
    ensures |Produced(g) - (found + Successors(g, found))| < |Produced(g) - found|
  {
    var o :| o in Successors(g, found) && o !in found;
    assert Produced(g) - (found + Successors(g, found)) <= Produced(g) - found - {o};
    Fewer(Produced(g) - (found + Successors(g, found)), Produced(g) - found - {o});
  }

  lemma {:induction false} Fewer(a: set<Uuid>, b: set<Uuid>)
    requires a <= b
    ensures |a| <= |b|
  {
    if a != {} {
      var x :| x in a;
      Fewer(a - {x}, b - {x});
    }
  }

  /** `activity_creates_cycle`: some input of the stored activity descends from its outputs. */
  predicate CreatesCycle(g: Graph, id: Uuid)
    requires id in g
  {
    Consumes(g[id], Descendants(g, Representations(g[id].outputs)))
  }

  // ---- Paths ----

  /** One activity derives the second representation from the first. */
  ghost predicate Derives(g: Graph, x: Uuid, y: Uuid) {
    exists a :: a in g && x in Representations(g[a].inputs) && y in Representations(g[a].outputs)
  }

  ghost predicate IsPath(g: Graph, p: seq<Uuid>) {
    p != [] && forall i :: 0 <= i < |p| - 1 ==> Derives(g, p[i], p[i + 1])
  }

  ghost predicate Connects(g: Graph, p: seq<Uuid>, x: Uuid, y: Uuid) {
    IsPath(g, p) && p[0] == x && p[|p| - 1] == y
  }

  ghost predicate Reaches(g: Graph, x: Uuid, y: Uuid) {
    exists p :: Connects(g, p, x, y)
  }

  /** No representation descends from itself. */
  ghost predicate Acyclic(g: Graph) {
    forall p :: IsPath(g, p) && |p| > 1 ==> p[0] != p[|p| - 1]
  }

  lemma NothingIsAcyclic()
    ensures Acyclic(map[])
  {
    forall p
      ensures IsPath(map[], p) ==> |p| <= 1
    {
      assert |p| > 1 ==> !Derives(map[], p[0], p[1]);
    }
  }

  lemma ReachesItself(g: Graph, x: Uuid)
    ensures Reaches(g, x, x)
  {
    assert Connects(g, [x], x, x);
  }

  lemma ReachesFurther(g: Graph, x: Uuid, y: Uuid, z: Uuid)
    requires Reaches(g, x, y) && Derives(g, y, z)
    ensures Reaches(g, x, z)
  {
    var p :| Connects(g, p, x, y);
    assert Connects(g, p + [z], x, z);
  }

  ghost predicate ReachedFrom(g: Graph, starts: set<Uuid>, y: Uuid) {
    exists x :: x in starts && Reaches(g, x, y)
  }

  /** The query finds only representations that are reached. */
  lemma {:induction false} FoundAreReached(g: Graph, starts: set<Uuid>, found: set<Uuid>)
    requires forall y :: y in found ==> ReachedFrom(g, starts, y)
    ensures forall y :: y in Descendants(g, found) ==> ReachedFrom(g, starts, y)
    decreases |Produced(g) - found|
  {
    hide Reaches;
    var next := found + Successors(g, found);
    if next != found {
      MoreAreFound(g, found);
      forall z | z in next
        ensures ReachedFrom(g, starts, z)
      {
        if z !in found {
          var a :| a in g && z in Representations(g[a].outputs) && Consumes(g[a], found);
          var y :| y in Representations(g[a].inputs) * found;
          var x :| x in starts && Reaches(g, x, y);
          assert Derives(g, y, z);
          ReachesFurther(g, x, y, z);
        }
      }
      FoundAreReached(g, starts, next);
    }
  }

  /** The result is closed: it contains the start and every successor of its own. */
  lemma {:induction false} DescendantsAreClosed(g: Graph, found: set<Uuid>)
    ensures found <= Descendants(g, found)
    ensures Successors(g, Descendants(g, found)) <= Descendants(g, found)
    decreases |Produced(g) - found|
  {
    var next := found + Successors(g, found);
    if next != found {
      MoreAreFound(g, found);
      DescendantsAreClosed(g, next);
    }
  }

  lemma {:induction false} PathStaysInside(g: Graph, inside: set<Uuid>, p: seq<Uuid>)
    requires Successors(g, inside) <= inside && IsPath(g, p) && p[0] in inside
    ensures p[|p| - 1] in inside
  {
    if |p| > 1 {
      var n := |p| - 1;
      assert IsPath(g, p[..n]) by {
        assert forall i :: 0 <= i < n - 1 ==> Derives(g, p[i], p[i + 1]);
      }
      PathStaysInside(g, inside, p[..n]);
      assert Derives(g, p[n - 1], p[n]);
      var a :| a in g && p[n - 1] in Representations(g[a].inputs) && p[n] in Representations(g[a].outputs);
      assert p[n - 1] in Representations(g[a].inputs) * inside;
      assert p[n] in Successors(g, inside);
    }
  }

  /** The recursive query computes exactly the representations that are reached. */
  lemma DescendantsAreReached(g: Graph, starts: set<Uuid>, y: Uuid)
    ensures y in Descendants(g, starts) <==> ReachedFrom(g, starts, y)
  {
    forall x | x in starts
      ensures ReachedFrom(g, starts, x)
    {
      ReachesItself(g, x);
    }
    FoundAreReached(g, starts, starts);
    if ReachedFrom(g, starts, y) {
      var x :| x in starts && Reaches(g, x, y);
      var p :| Connects(g, p, x, y);
      DescendantsAreClosed(g, starts);
      PathStaysInside(g, Descendants(g, starts), p);
    }
  }

  // ---- The check decides whether the graph stays acyclic ----

  ghost predicate DerivesBy(a: Provenance.Activity, x: Uuid, y: Uuid) {
    x in Representations(a.inputs) && y in Representations(a.outputs)
  }

  /** A new activity closes a cycle exactly when the check says so. */
  lemma CycleIsDetectedExactly(g: Graph, id: Uuid, a: Provenance.Activity)
    requires Acyclic(g) && id !in g
    ensures Acyclic(g[id := a]) <==> !CreatesCycle(g[id := a], id)
  {
    hide Descendants;
    var h := g[id := a];
    var outputs := Representations(a.outputs);
    if CreatesCycle(h, id) {
      var y :| y in Representations(a.inputs) * Descendants(h, outputs);
      DescendantsAreReached(h, outputs, y);
      var x :| x in outputs && Reaches(h, x, y);
      var p :| Connects(h, p, x, y);
      assert Derives(h, y, x);
      assert IsPath(h, p + [x]);
    }
    if !Acyclic(h) {
      var p :| IsPath(h, p) && |p| > 1 && p[0] == p[|p| - 1];
      CycleUsesTheNewActivity(g, id, a, p);
      var k :| 0 <= k < |p| - 1 && DerivesBy(a, p[k], p[k + 1]);
      Rotated(h, p, k);
      assert Reaches(h, p[k + 1], p[k]);
      DescendantsAreReached(h, outputs, p[k]);
      assert p[k] in Representations(a.inputs) * Descendants(h, outputs);
    }
  }

  lemma CycleUsesTheNewActivity(g: Graph, id: Uuid, a: Provenance.Activity, p: seq<Uuid>)
    requires Acyclic(g) && id !in g
    requires IsPath(g[id := a], p) && |p| > 1 && p[0] == p[|p| - 1]
    ensures exists k :: 0 <= k < |p| - 1 && DerivesBy(a, p[k], p[k + 1])
  {
    OldPath(g, id, a, p);
  }

  lemma OldPath(g: Graph, id: Uuid, a: Provenance.Activity, p: seq<Uuid>)
    requires id !in g && IsPath(g[id := a], p)
    ensures IsPath(g, p) || exists k :: 0 <= k < |p| - 1 && DerivesBy(a, p[k], p[k + 1])
  {
    if forall k :: 0 <= k < |p| - 1 ==> !DerivesBy(a, p[k], p[k + 1]) {
      forall i | 0 <= i < |p| - 1
        ensures Derives(g, p[i], p[i + 1])
      {
        assert Derives(g[id := a], p[i], p[i + 1]);
      }
    }
  }

  /** A closed path read from any of its steps onwards. */
  lemma Rotated(g: Graph, p: seq<Uuid>, k: nat)
    requires IsPath(g, p) && k < |p| - 1 && p[0] == p[|p| - 1]
    ensures Reaches(g, p[k + 1], p[k])
  {
    var q := p[k + 1..] + p[1..k + 1];
    forall i | 0 <= i < |q| - 1
      ensures Derives(g, q[i], q[i + 1])
    {
      var j := if i < |p| - k - 2 then k + 1 + i else i - (|p| - k - 2);
      assert Derives(g, p[j], p[j + 1]);
    }
    assert Connects(g, q, p[k + 1], p[k]);
  }

  /** Nothing descends from an output that no activity consumes. */
  lemma UnusedOutputsMakeNoCycle(g: Graph, id: Uuid)
    requires id in g
    requires forall a :: a in g ==> !Consumes(g[a], Representations(g[id].outputs))
    ensures !CreatesCycle(g, id)
  {
    assert Successors(g, Representations(g[id].outputs)) == {};
  }
}
