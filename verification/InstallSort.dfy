/** Ordering the packages to install by a depth-first walk over their dependencies. */
module InstallSort {
  import opened Basics
  import opened DependencyTrees
  import opened PackageDb
  import opened InstallRuns

  /** What is to be installed, with the packages each one depends on. */
  datatype Job = Job(cpv: CPV, needs: set<Dep>)

  type Plan = map<CP, Job>

  /** Every package has its own version string. */
  ghost predicate Distinct(plan: Plan) {
    forall a, b :: a in plan && b in plan && plan[a].cpv == plan[b].cpv ==> a == b
  }

  /** `a` depends on `b`, and both are to be installed. */
  ghost predicate Link(plan: Plan, a: CP, b: CP) {
    a in plan && b in plan && exists d :: d in plan[a].needs && d.cp == b
  }

  ghost predicate Chain(plan: Plan, p: seq<CP>) {
    && (forall i :: 0 <= i < |p| ==> p[i] in plan)
    && forall i :: 0 <= i < |p| - 1 ==> Link(plan, p[i], p[i + 1])
  }

  /** `b` can be reached from `a` along one or more dependencies, staying within the installs. */
  ghost predicate Reaches(plan: Plan, a: CP, b: CP) {
    exists p :: |p| > 1 && p[0] == a && p[|p| - 1] == b && Chain(plan, p)
  }

  ghost predicate Acyclic(plan: Plan) {
    forall a :: !Reaches(plan, a, a)
  }

  /** In the finished order a dependency follows its dependent only along a cycle. */
  ghost predicate WellOrdered(plan: Plan, order: seq<CP>) {
    forall i, j :: 0 <= i < j < |order| && Link(plan, order[i], order[j]) ==> Reaches(plan, order[j], order[i])
  }

  ghost predicate Permutes(plan: Plan, order: seq<CP>) {
    NoDup(order) && forall cp :: cp in order <==> cp in plan
  }

  function Cpvs(plan: Plan, order: seq<CP>): seq<CPV>
    requires forall cp :: cp in order ==> cp in plan
  {
    seq(|order|, i requires 0 <= i < |order| => var c := order[i]; assert c in order; plan[c].cpv)
  }

  /** Each install once, in an order that respects dependencies as far as cycles let it. */
  ghost predicate Sorted(plan: Plan, sorted: seq<CPV>) {
    exists order :: Permutes(plan, order) && WellOrdered(plan, order) && sorted == Cpvs(plan, order)
  }

  /** On acyclic installs every dependency precedes its dependent. */
  lemma AcyclicMeansDependenciesFirst(plan: Plan, order: seq<CP>, a: CP, b: CP)
    requires Permutes(plan, order) && WellOrdered(plan, order) && Acyclic(plan)
    requires Link(plan, a, b)
    ensures Precedes(order, b, a)
  {
    var i :| 0 <= i < |order| && order[i] == a;
    var j :| 0 <= j < |order| && order[j] == b;
    if a == b {
      Closes(plan, [a, a], a);
    } else if i < j {
      var p :| |p| > 1 && p[0] == b && p[|p| - 1] == a && Chain(plan, p);
      var q := p + [b];
      assert Chain(plan, q) by {
        forall k | 0 <= k < |q| - 1 ensures Link(plan, q[k], q[k + 1]) {
          if k < |p| - 1 {
            assert Link(plan, p[k], p[k + 1]);
          }
        }
      }
      Closes(plan, q, b);
    }
  }

  lemma Closes(plan: Plan, q: seq<CP>, b: CP)
    requires Chain(plan, q) && |q| > 1 && q[0] == b && q[|q| - 1] == b
    ensures !Acyclic(plan)
  {
    assert Reaches(plan, b, b);
  }

  lemma ChainExtend(plan: Plan, p: seq<CP>, c: CP)
    requires Chain(plan, p) && c in plan && (p != [] ==> Link(plan, p[|p| - 1], c))
    ensures Chain(plan, p + [c])
  {
    var q := p + [c];
    forall i | 0 <= i < |q| - 1 ensures Link(plan, q[i], q[i + 1]) {
      if i < |p| - 1 {
        assert Link(plan, p[i], p[i + 1]);
      }
    }
  }

  lemma ChainSuffix(plan: Plan, p: seq<CP>, i: nat)
    requires Chain(plan, p) && i <= |p|
    ensures Chain(plan, p[i..])
  {
    var q := p[i..];
    forall j | 0 <= j < |q| - 1 ensures Link(plan, q[j], q[j + 1]) {
      assert Link(plan, p[i + j], p[i + j + 1]);
    }
  }

  /** What one depth-first walk keeps: the packages not yet visited, the path being walked, and those emitted. */
  class Sorter {
    const plan: Plan
    var notVisited: set<CP>
    var currPath: seq<CPV>
    var sorted: seq<CPV>
    /** The packages on the current path and those emitted, outermost and earliest first. */
    ghost var stack: seq<CP>
    ghost var order: seq<CP>

    constructor (plan: Plan)
      ensures this.plan == plan
      ensures notVisited == plan.Keys && currPath == [] && sorted == [] && stack == [] && order == []
    {
      this.plan := plan;
      notVisited, currPath, sorted, stack, order := plan.Keys, [], [], [], [];
    }

    /** Every install but `entering` is unvisited, or on the path, or emitted, and only one of these. */
    ghost predicate Partition(entering: set<CP>)
      reads this
    {
      && (forall cp :: cp in plan && cp !in entering ==> cp in notVisited || cp in stack || cp in order)
      && (forall cp :: cp in notVisited || cp in stack || cp in order ==> cp in plan && cp !in entering)
      && (forall cp :: cp in notVisited ==> cp !in stack && cp !in order)
      && (forall cp :: cp in stack ==> cp !in order)
      && NoDup(stack) && NoDup(order)
    }

    /** An emitted package's dependencies are emitted before it, or reach it. */
    ghost predicate Emitted()
      reads this
    {
      forall i, b :: 0 <= i < |order| && Link(plan, order[i], b) ==> b in order[..i] || Reaches(plan, b, order[i])
    }

    ghost predicate Valid(entering: set<CP>)
      reads this
    {
      && Distinct(plan)
      && Partition(entering)
      && Chain(plan, stack)
      && Emitted()
      && currPath == Cpvs(plan, stack)
      && sorted == Cpvs(plan, order)
    }

    lemma CpvsSnoc(s: seq<CP>, cp: CP)
      requires cp in plan && forall c :: c in s ==> c in plan
      ensures forall c :: c in s + [cp] ==> c in plan
      ensures Cpvs(plan, s + [cp]) == Cpvs(plan, s) + [plan[cp].cpv]
    {
    }

    /** A dependency that is on the current path reaches the package whose turn it is. */
    lemma OnPathReaches(path: seq<CP>, b: CP)
      requires path != [] && Chain(plan, path) && b in path && Link(plan, path[|path| - 1], b)
      ensures Reaches(plan, b, path[|path| - 1])
    {
      var i :| 0 <= i < |path| && path[i] == b;
      if i == |path| - 1 {
        var p := [b, b];
        assert Chain(plan, p) && p[0] == b && p[|p| - 1] == b;
      } else {
        ChainSuffix(plan, path, i);
        assert path[i..][0] == b;
      }
    }

    /** The version of a package that is not on the path is not on it either. */
    lemma NotOnPath(cp: CP)
      requires Valid({cp}) && cp in plan
      ensures plan[cp].cpv !in currPath
    {
      forall i | 0 <= i < |currPath| ensures currPath[i] != plan[cp].cpv {
        var c := stack[i];
        assert c in stack;
      }
    }

    /**
      Emits everything `cp` depends on that is still unvisited, then `cp`.
      The cycle check never fires: a package is entered only once, when it is
      taken from `notVisited`.
     */
    method SortFrom(cp: CP)
      requires Valid({cp}) && cp in plan
      requires stack != [] ==> Link(plan, stack[|stack| - 1], cp)
      modifies this
      ensures Valid({})
      ensures stack == old(stack) && old(order) < order && order[|order| - 1] == cp
      ensures notVisited <= old(notVisited)
      decreases notVisited
    {
      var cpv := plan[cp].cpv;
      Enter(cp, cpv);
      var deps := plan[cp].needs;
      while deps != {}
        invariant deps <= plan[cp].needs
        invariant Valid({}) && stack == old(stack) + [cp] && old(order) <= order
        invariant notVisited <= old(notVisited)
        invariant forall d :: d in plan[cp].needs && d !in deps ==> d.cp !in notVisited
      {
        var d :| d in deps;
        deps := deps - {d};
        if d.cp in notVisited {
          assert Link(plan, cp, d.cp);
          notVisited := notVisited - {d.cp};
          SortFrom(d.cp);
        }
      }
      Emit(cp, cpv);
    }

    /** Puts a package on the path, having checked that it is not there yet. */
    method Enter(cp: CP, cpv: CPV)
      requires Valid({cp}) && cp in plan && cpv == plan[cp].cpv
      requires stack != [] ==> Link(plan, stack[|stack| - 1], cp)
      modifies this`currPath, this`stack
      ensures Valid({})
      ensures stack == old(stack) + [cp]
    {
      NotOnPath(cp);
      if cpv in currPath {
        assert false;
      }
      ChainExtend(plan, stack, cp);
      CpvsSnoc(stack, cp);
      ghost var path := stack + [cp];
      assert forall x :: x in path <==> x in stack || x == cp;
      currPath, stack := currPath + [cpv], path;
    }

    /** The package on top of the path is done: all it depends on has been visited. */
    method Emit(cp: CP, cpv: CPV)
      requires Valid({}) && stack != [] && stack[|stack| - 1] == cp && cpv == plan[cp].cpv
      requires forall b :: Link(plan, cp, b) ==> b !in notVisited
      modifies this`sorted, this`currPath, this`stack, this`order
      ensures Valid({})
      ensures stack == old(stack)[..|old(stack)| - 1] && order == old(order) + [cp]
    {
      ghost var rest := stack[..|stack| - 1];
      assert stack == rest + [cp];
      LeavePath(rest, cp);
      CpvsSnoc(order, cp);
      CpvsSnoc(rest, cp);
      forall b | Link(plan, cp, b) ensures b in order || Reaches(plan, b, cp) {
        if b in stack {
          OnPathReaches(stack, b);
        }
      }
      EmittedSnoc(order, cp);
      sorted := sorted + [cpv];
      currPath := currPath[..|currPath| - 1];
      order := order + [cp];
      stack := rest;
    }

    /** The package on top of the path can move to the end of the order. */
    lemma LeavePath(rest: seq<CP>, cp: CP)
      requires Partition({}) && Chain(plan, stack) && stack == rest + [cp]
      ensures cp in plan && NoDup(rest) && NoDup(order + [cp]) && Chain(plan, rest)
      ensures forall x :: x in stack <==> x in rest || x == cp
      ensures cp !in rest && cp !in order && cp !in notVisited
    {
      ChainPrefix(rest, cp);
      assert stack[|rest|] == cp && cp in stack;
      forall i | 0 <= i < |rest| ensures rest[i] != cp {
        assert stack[i] != stack[|rest|];
      }
      forall i, j | 0 <= i < j < |rest| ensures rest[i] != rest[j] {
        assert stack[i] != stack[j];
      }
    }

    lemma ChainPrefix(rest: seq<CP>, cp: CP)
      requires Chain(plan, rest + [cp])
      ensures Chain(plan, rest)
    {
      var p := rest + [cp];
      forall i | 0 <= i < |rest| - 1 ensures Link(plan, rest[i], rest[i + 1]) {
        assert Link(plan, p[i], p[i + 1]);
      }
      forall i | 0 <= i < |rest| ensures rest[i] in plan {
        assert p[i] in plan;
      }
    }

    lemma EmittedSnoc(s: seq<CP>, cp: CP)
      requires forall i, b :: 0 <= i < |s| && Link(plan, s[i], b) ==> b in s[..i] || Reaches(plan, b, s[i])
      requires forall b :: Link(plan, cp, b) ==> b in s || Reaches(plan, b, cp)
      ensures var t := s + [cp];
        forall i, b :: 0 <= i < |t| && Link(plan, t[i], b) ==> b in t[..i] || Reaches(plan, b, t[i])
    {
      var t := s + [cp];
      forall i, b | 0 <= i < |t| && Link(plan, t[i], b) ensures b in t[..i] || Reaches(plan, b, t[i]) {
        if i < |s| {
          assert t[..i] == s[..i];
        } else {
          assert t[..i] == s;
        }
      }
    }
  }

  /**
    Sorts the installs: each package exactly once, and a dependency after its
    dependent only where the dependency reaches the dependent in turn.
   */
  method SortInstalls(plan: Plan) returns (sorted: seq<CPV>)
    requires Distinct(plan)
    ensures Sorted(plan, sorted)
  {
    var s := new Sorter(plan);
    while s.notVisited != {}
      invariant fresh(s) && s.Valid({}) && s.stack == [] && s.plan == plan
      decreases s.notVisited
    {
      var cp :| cp in s.notVisited;
      s.notVisited := s.notVisited - {cp};
      s.SortFrom(cp);
    }
    sorted := s.sorted;
    ghost var order := s.order;
    forall i, j | 0 <= i < j < |order| && Link(plan, order[i], order[j]) ensures Reaches(plan, order[j], order[i]) {
      assert forall k :: 0 <= k < i ==> order[k] != order[j];
      assert order[j] !in order[..i];
    }
  }
}
