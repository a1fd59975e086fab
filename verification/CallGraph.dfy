/** Reachability in the call graph of macros. */
module CallGraph {
  type Id = string
  type Graph = map<Id, seq<Id>>

  function Succ(g: Graph, a: Id): seq<Id> {
    if a in g then g[a] else []
  }

  /** `p` lists the macros of a chain of calls from `a` to `b`. */
  ghost predicate Path(g: Graph, p: seq<Id>, a: Id, b: Id) {
    p != [] && p[0] == a && if |p| == 1 then a == b else p[1] in Succ(g, a) && Path(g, p[1..], p[1], b)
  }

  /** `b` is reached from `a` in zero or more calls. */
  ghost predicate Reaches(g: Graph, a: Id, b: Id) {
    exists p :: Path(g, p, a, b)
  }

  /** `b` is reached from `a` in one or more calls. */
  ghost predicate Calls(g: Graph, a: Id, b: Id) {
    exists t :: t in Succ(g, a) && Reaches(g, t, b)
  }

  ghost predicate Acyclic(g: Graph) {
    forall a :: !Calls(g, a, a)
  }

  lemma ReachesSelf(g: Graph, a: Id)
    ensures Reaches(g, a, a)
  {
    assert Path(g, [a], a, a);
  }

  lemma ReachesStep(g: Graph, a: Id, t: Id, b: Id)
    requires t in Succ(g, a) && Reaches(g, t, b)
    ensures Reaches(g, a, b)
  {
    var p :| Path(g, p, t, b);
    assert ([a] + p)[1..] == p;
    assert Path(g, [a] + p, a, b);
  }

  lemma {:induction false} PathJoin(g: Graph, p: seq<Id>, a: Id, b: Id, c: Id)
    requires Path(g, p, a, b) && Reaches(g, b, c)
    ensures Reaches(g, a, c)
    decreases |p|
  {
    if |p| > 1 {
      PathJoin(g, p[1..], p[1], b, c);
      ReachesStep(g, a, p[1], c);
    }
  }

  lemma ReachesTransitive(g: Graph, a: Id, b: Id, c: Id)
    requires Reaches(g, a, b) && Reaches(g, b, c)
    ensures Reaches(g, a, c)
  {
    var p :| Path(g, p, a, b);
    PathJoin(g, p, a, b, c);
  }

  lemma CallsThen(g: Graph, a: Id, b: Id, c: Id)
    requires Calls(g, a, b) && Reaches(g, b, c)
    ensures Calls(g, a, c)
  {
    var t :| t in Succ(g, a) && Reaches(g, t, b);
    ReachesTransitive(g, t, b, c);
  }

  ghost predicate Closed(g: Graph, s: set<Id>) {
    forall v, t | v in s && t in Succ(g, v) :: t in s
  }

  lemma {:induction false} PathStaysInside(g: Graph, s: set<Id>, p: seq<Id>, a: Id, b: Id)
    requires Closed(g, s) && a in s && Path(g, p, a, b)
    ensures b in s
    decreases |p|
  {
    if |p| > 1 {
      PathStaysInside(g, s, p[1..], p[1], b);
    }
  }

  lemma ClosedHoldsReachable(g: Graph, s: set<Id>, a: Id, b: Id)
    requires Closed(g, s) && a in s && Reaches(g, a, b)
    ensures b in s
  {
    var p :| Path(g, p, a, b);
    PathStaysInside(g, s, p, a, b);
  }

  // ---- Adding one call ---------------------------------------------------------------------

  function WithCall(g: Graph, a: Id, b: Id): Graph {
    g[a := Succ(g, a) + [b]]
  }

  /** A path in the graph with the extra call either avoids it or goes through it. */
  lemma {:induction false} PathWithCall(g: Graph, a: Id, b: Id, p: seq<Id>, u: Id, v: Id)
    requires Path(WithCall(g, a, b), p, u, v)
    ensures Reaches(g, u, v) || (Reaches(g, u, a) && Reaches(g, b, v))
    decreases |p|
  {
    if |p| == 1 {
      ReachesSelf(g, u);
    } else {
      var w := p[1];
      PathWithCall(g, a, b, p[1..], w, v);
      if w in Succ(g, u) {
        if Reaches(g, w, v) { ReachesStep(g, u, w, v); } else { ReachesStep(g, u, w, a); }
      } else {
        assert u == a && w == b;
        ReachesSelf(g, a);
      }
    }
  }

  lemma {:induction false} PathSurvivesCall(g: Graph, a: Id, b: Id, p: seq<Id>, u: Id, v: Id)
    requires Path(g, p, u, v)
    ensures Path(WithCall(g, a, b), p, u, v)
    decreases |p|
  {
    if |p| > 1 {
      PathSurvivesCall(g, a, b, p[1..], p[1], v);
    }
  }

  /** Adding a call from `a` to `b` to an acyclic graph keeps it acyclic unless `b` reaches `a`. */
  lemma NewCallAcyclicIff(g: Graph, a: Id, b: Id)
    requires Acyclic(g)
    ensures Acyclic(WithCall(g, a, b)) <==> !Reaches(g, b, a)
  {
    var g' := WithCall(g, a, b);
    if Reaches(g, b, a) {
      var p :| Path(g, p, b, a);
      PathSurvivesCall(g, a, b, p, b, a);
      assert b in Succ(g', a) && Reaches(g', b, a);
      assert Calls(g', a, a);
    } else {
      forall x ensures !Calls(g', x, x) {
        forall t | t in Succ(g', x) ensures !Reaches(g', t, x) {
          NoCycleThrough(g, a, b, x, t);
        }
      }
    }
  }

  lemma NoCycleThrough(g: Graph, a: Id, b: Id, x: Id, t: Id)
    requires Acyclic(g) && !Reaches(g, b, a) && t in Succ(WithCall(g, a, b), x)
    ensures !Reaches(WithCall(g, a, b), t, x)
  {
    forall p ensures !Path(WithCall(g, a, b), p, t, x) {
      if Path(WithCall(g, a, b), p, t, x) {
        PathWithCall(g, a, b, p, t, x);
        if t in Succ(g, x) {
          assert !Calls(g, x, x);
          ReachesStep(g, x, t, a);
          ReachesTransitive(g, b, x, a);
        }
        assert false;
      }
    }
  }
}
