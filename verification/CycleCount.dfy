module CycleCount {
  // Cycles of a partial parent function, and the single-pass counter of
  // scripts/audit_conversation_export.py (`_cycle_count`).
  //
  // A cycle is defined without the algorithm: a non-empty set of keys that the
  // parent function maps into itself and in which every member reaches every
  // other.  The counter keeps one shared `completed` set, so the proof has to
  // show that no cycle is missed or counted twice because of it.

  import opened Common

  type Id = string
  type Parents = map<Id, Option<Id>>

  // ---------------------------------------------------------------- ancestors

  /** The n-th ancestor of `x`; None once a parentless or unknown id is passed. */
  ghost function Walk(p: Parents, x: Id, n: nat): Option<Id> {
    if n == 0 then Some(x)
    else
      match Walk(p, x, n - 1)
      case None => None
      case Some(y) => if y in p then p[y] else None
  }

  ghost predicate Reaches(p: Parents, x: Id, y: Id) {
    exists n: nat :: Walk(p, x, n) == Some(y)
  }

  /** The chain of `x` runs into a parentless message or out of the domain. */
  ghost predicate Leaves(p: Parents, x: Id) {
    exists n: nat :: Outside(p, Walk(p, x, n))
  }

  ghost predicate Outside(p: Parents, y: Option<Id>) {
    y.None? || y.value !in p
  }

  ghost predicate OnCycle(p: Parents, x: Id) {
    exists n: nat :: n > 0 && Walk(p, x, n) == Some(x)
  }

  /** Independent definition of a cycle, as a set of ids. */
  ghost predicate IsCycle(p: Parents, c: set<Id>) {
    && c != {}
    && (forall x :: x in c ==> x in p && p[x].Some? && p[x].value in c)
    && (forall x, y :: x in c && y in c ==> Reaches(p, x, y))
  }

  /** The keys reachable from `x`. */
  ghost function Orbit(p: Parents, x: Id): set<Id> {
    set y | y in p.Keys && Reaches(p, x, y)
  }

  /** Every cycle that passes through `xs`. */
  ghost function CyclesThrough(p: Parents, xs: set<Id>): set<set<Id>> {
    set x | x in xs && x in p.Keys && OnCycle(p, x) :: Orbit(p, x)
  }

  ghost function Cycles(p: Parents): set<set<Id>> {
    CyclesThrough(p, p.Keys)
  }

  lemma {:induction false} WalkAdds(p: Parents, x: Id, a: nat, b: nat)
    requires Walk(p, x, a).Some?
    ensures Walk(p, x, a + b) == Walk(p, Walk(p, x, a).value, b)
  {
    if b > 0 {
      WalkAdds(p, x, a, b - 1);
      assert Walk(p, x, a + b) ==
             match Walk(p, x, a + b - 1) { case None => None case Some(y) => if y in p then p[y] else None };
    }
  }

  lemma {:induction false} WalkStaysNone(p: Parents, x: Id, a: nat, b: nat)
    requires a <= b && Walk(p, x, a).None?
    ensures Walk(p, x, b).None?
  {
    if a < b {
      WalkStaysNone(p, x, a, b - 1);
    }
  }

  lemma ReachesTrans(p: Parents, x: Id, y: Id, z: Id)
    requires Reaches(p, x, y) && Reaches(p, y, z)
    ensures Reaches(p, x, z)
  {
    var a: nat :| Walk(p, x, a) == Some(y);
    var b: nat :| Walk(p, y, b) == Some(z);
    WalkAdds(p, x, a, b);
    assert Walk(p, x, a + b) == Some(z);
  }

  /** Going round the cycle any number of times comes back to the start. */
  lemma {:induction false} WalkMultiple(p: Parents, x: Id, n: nat, k: nat)
    requires Walk(p, x, n) == Some(x)
    ensures Walk(p, x, n * k) == Some(x)
  {
    if k > 0 {
      WalkMultiple(p, x, n, k - 1);
      WalkAdds(p, x, n * (k - 1), n);
      assert n * (k - 1) + n == n * k;
    } else {
      assert n * k == 0;
    }
  }

  // ------------------------------------------------- sets that trap the walk

  /** No parent link leads out of `s`, except out of the domain altogether. */
  ghost predicate Absorbing(p: Parents, s: set<Id>) {
    forall x :: x in s && x in p && p[x].Some? && p[x].value in p ==> p[x].value in s
  }

  lemma {:induction false} Trapped(p: Parents, s: set<Id>, x: Id, a: nat, b: nat)
    requires Absorbing(p, s) && a <= b
    requires Outside(p, Walk(p, x, a)) || Walk(p, x, a).value in s
    ensures Outside(p, Walk(p, x, b)) || Walk(p, x, b).value in s
  {
    if a < b {
      Trapped(p, s, x, a, b - 1);
    }
  }

  /** An id outside an absorbing set that its chain enters, or that leaves the domain, is on no cycle. */
  lemma TrappedIsNotOnCycle(p: Parents, s: set<Id>, x: Id, a: nat)
    requires Absorbing(p, s) && x in p && x !in s
    requires Outside(p, Walk(p, x, a)) || Walk(p, x, a).value in s
    ensures !OnCycle(p, x)
  {
    if OnCycle(p, x) {
      var n: nat :| n > 0 && Walk(p, x, n) == Some(x);
      WalkMultiple(p, x, n, a);
      assert n * a >= a by {
        MulAtLeast(n, a);
      }
      Trapped(p, s, x, a, n * a);
      assert false;
    }
  }

  lemma MulAtLeast(n: nat, a: nat)
    requires n > 0
    ensures n * a >= a
  {
    assert n * a == a + (n - 1) * a;
    assert (n - 1) * a >= 0;
  }

  // ------------------------------------------------------------------- rings

  /** `r` lists the members of one cycle in parent order. */
  ghost predicate Ring(p: Parents, r: seq<Id>) {
    && |r| > 0
    && (forall i :: 0 <= i < |r| ==> r[i] in p)
    && (forall i {:trigger p[r[i]]} :: 0 <= i < |r| - 1 ==> p[r[i]] == Some(r[i + 1]))
    && p[r[|r| - 1]] == Some(r[0])
  }

  lemma {:induction false} RingReaches(p: Parents, r: seq<Id>, i: nat, j: nat)
    requires Ring(p, r) && i <= j < |r|
    ensures Walk(p, r[i], j - i) == Some(r[j])
  {
    if i < j {
      RingReaches(p, r, i, j - 1);
      assert p[r[j - 1]] == Some(r[j]);
    }
  }

  lemma RingConnected(p: Parents, r: seq<Id>, i: nat, j: nat)
    requires Ring(p, r) && i < |r| && j < |r|
    ensures Reaches(p, r[i], r[j])
  {
    var last := |r| - 1;
    RingReaches(p, r, i, last);
    assert Reaches(p, r[i], r[last]);
    assert Walk(p, r[last], 0) == Some(r[last]);
    assert Walk(p, r[last], 1) == Some(r[0]);
    assert Reaches(p, r[last], r[0]);
    RingReaches(p, r, 0, j);
    assert Reaches(p, r[0], r[j]);
    ReachesTrans(p, r[i], r[last], r[0]);
    ReachesTrans(p, r[i], r[0], r[j]);
  }

  lemma RingIsCycle(p: Parents, r: seq<Id>)
    requires Ring(p, r)
    ensures IsCycle(p, Elements(r))
  {
    var c := Elements(r);
    assert r[0] in c;
    forall x | x in c
      ensures x in p && p[x].Some? && p[x].value in c
    {
      var i :| 0 <= i < |r| && r[i] == x;
      if i < |r| - 1 {
        assert p[r[i]] == Some(r[i + 1]);
        assert r[i + 1] in r;
      } else {
        assert r[0] in r;
      }
    }
    forall x, y | x in c && y in c
      ensures Reaches(p, x, y)
    {
      var i :| 0 <= i < |r| && r[i] == x;
      var j :| 0 <= j < |r| && r[j] == y;
      RingConnected(p, r, i, j);
    }
  }

  // ------------------------------------------- orbits and the set definition

  lemma CycleMemberOnCycle(p: Parents, c: set<Id>, x: Id)
    requires IsCycle(p, c) && x in c
    ensures x in p && OnCycle(p, x)
  {
    var y := p[x].value;
    assert Walk(p, x, 0) == Some(x);
    assert Walk(p, x, 1) == Some(y);
    assert Reaches(p, y, x);
    var n: nat :| Walk(p, y, n) == Some(x);
    WalkAdds(p, x, 1, n);
    assert Walk(p, x, 1 + n) == Some(x);
  }

  lemma CycleTraps(p: Parents, c: set<Id>, x: Id, z: Id)
    requires IsCycle(p, c) && x in c && Reaches(p, x, z) && z in p
    ensures z in c
  {
    var k: nat :| Walk(p, x, k) == Some(z);
    assert Absorbing(p, c);
    assert Walk(p, x, 0) == Some(x);
    Trapped(p, c, x, 0, k);
  }

  /** Every member of a cycle lies on it, and the cycle is exactly what it reaches. */
  lemma CycleIsOrbit(p: Parents, c: set<Id>, x: Id)
    requires IsCycle(p, c) && x in c
    ensures x in p && OnCycle(p, x) && Orbit(p, x) == c
  {
    CycleMemberOnCycle(p, c, x);
    forall z | z in Orbit(p, x)
      ensures z in c
    {
      CycleTraps(p, c, x, z);
    }
    forall z | z in c
      ensures z in Orbit(p, x)
    {
      assert Reaches(p, x, z);
    }
  }

  /** From any id on the orbit of a cycle member the walk comes back. */
  lemma OrbitReturns(p: Parents, x: Id, y: Id)
    requires OnCycle(p, x) && Reaches(p, x, y)
    ensures exists b: nat :: b > 0 && Walk(p, y, b) == Some(x)
  {
    var n: nat :| n > 0 && Walk(p, x, n) == Some(x);
    var a: nat :| Walk(p, x, a) == Some(y);
    WalkMultiple(p, x, n, a + 1);
    MulAtLeast(n, a + 1);
    WalkAdds(p, x, a, n * (a + 1) - a);
    assert Walk(p, y, n * (a + 1) - a) == Some(x);
  }

  /** The first step of a walk that arrives somewhere. */
  lemma {:induction false} FirstStep(p: Parents, y: Id, b: nat)
    requires b > 0 && Walk(p, y, b).Some?
    ensures y in p && p[y].Some? && Walk(p, p[y].value, b - 1) == Walk(p, y, b)
  {
    assert Walk(p, y, 0) == Some(y);
    if Walk(p, y, 1).None? {
      WalkStaysNone(p, y, 1, b);
    }
    WalkAdds(p, y, 1, b - 1);
  }

  /** Conversely, the orbit of an id that is on a cycle is a cycle. */
  lemma OrbitIsCycle(p: Parents, x: Id)
    requires x in p && OnCycle(p, x)
    ensures IsCycle(p, Orbit(p, x)) && x in Orbit(p, x)
  {
    var c := Orbit(p, x);
    assert Walk(p, x, 0) == Some(x);
    assert Reaches(p, x, x);
    forall y | y in c
      ensures Reaches(p, y, x) && p[y].Some? && p[y].value in c
    {
      OrbitReturns(p, x, y);
      var b: nat :| b > 0 && Walk(p, y, b) == Some(x);
      FirstStep(p, y, b);
      var z := p[y].value;
      assert Walk(p, y, 0) == Some(y);
      assert Walk(p, y, 1) == Some(z);
      assert Reaches(p, y, z);
      ReachesTrans(p, x, y, z);
      if b > 1 {
        FirstStep(p, z, b - 1);
      }
    }
    forall y, z | y in c && z in c
      ensures Reaches(p, y, z)
    {
      ReachesTrans(p, y, x, z);
    }
  }

  /** `Cycles` is exactly the set of cycles in the sense of `IsCycle`. */
  lemma CyclesAreExact(p: Parents, c: set<Id>)
    ensures c in Cycles(p) <==> IsCycle(p, c)
  {
    if c in Cycles(p) {
      var x :| x in p.Keys && OnCycle(p, x) && c == Orbit(p, x);
      OrbitIsCycle(p, x);
    }
    if IsCycle(p, c) {
      var x :| x in c;
      CycleIsOrbit(p, c, x);
    }
  }

  /** Two cycles that share a member are the same cycle. */
  lemma CyclesAreDisjoint(p: Parents, c: set<Id>, d: set<Id>)
    requires IsCycle(p, c) && IsCycle(p, d) && c != d
    ensures c !! d
  {
    if x :| x in c && x in d {
      CycleIsOrbit(p, c, x);
      CycleIsOrbit(p, d, x);
    }
  }

  // --------------------------------------------------------- the counter loop

  /** The walk that fills `path` from `start`, as the inner loop sees it. */
  ghost predicate PathInv(p: Parents, completed: set<Id>, start: Id, path: seq<Id>, current: Option<Id>) {
    && (forall i :: 0 <= i < |path| ==> path[i] in p && path[i] !in completed)
    && (forall i {:trigger p[path[i]]} :: 0 <= i < |path| - 1 ==> p[path[i]] == Some(path[i + 1]))
    && (if path == [] then current == Some(start)
        else path[0] == start && p[path[|path| - 1]] == current)
  }

  lemma {:induction false} PathWalk(p: Parents, completed: set<Id>, start: Id, path: seq<Id>, current: Option<Id>, i: nat, j: nat)
    requires PathInv(p, completed, start, path, current) && i <= j < |path|
    ensures Walk(p, path[i], j - i) == Some(path[j])
    ensures j == |path| - 1 ==> Walk(p, path[i], j - i + 1) == current
  {
    if i < j {
      PathWalk(p, completed, start, path, current, i, j - 1);
      assert p[path[j - 1]] == Some(path[j]);
    }
  }

  /** The path ended outside the domain or in finished territory: it adds no cycle. */
  lemma OpenPath(p: Parents, completed: set<Id>, start: Id, path: seq<Id>, current: Option<Id>)
    requires Absorbing(p, completed) && PathInv(p, completed, start, path, current)
    requires Outside(p, current) || current.value in completed
    ensures Absorbing(p, completed + Elements(path))
    ensures CyclesThrough(p, completed + Elements(path)) == CyclesThrough(p, completed)
  {
    forall x | x in Elements(path)
      ensures !OnCycle(p, x)
    {
      var i :| 0 <= i < |path| && path[i] == x;
      PathWalk(p, completed, start, path, current, i, |path| - 1);
      TrappedIsNotOnCycle(p, completed, x, |path| - i);
    }
    PathAbsorbing(p, completed, start, path, current);
  }

  lemma PathAbsorbing(p: Parents, completed: set<Id>, start: Id, path: seq<Id>, current: Option<Id>)
    requires Absorbing(p, completed) && PathInv(p, completed, start, path, current)
    requires Outside(p, current) || current.value in completed || current.value in path
    ensures Absorbing(p, completed + Elements(path))
  {
    var s := completed + Elements(path);
    forall x | x in s && x in p && p[x].Some? && p[x].value in p
      ensures p[x].value in s
    {
      if x !in completed {
        var i :| 0 <= i < |path| && path[i] == x;
        if i < |path| - 1 {
          assert p[path[i]] == Some(path[i + 1]);
          assert path[i + 1] in path;
        }
      }
    }
  }

  /** The tail of a path that ran into itself at `pos` is a cycle. */
  lemma TailIsCycle(p: Parents, completed: set<Id>, start: Id, path: seq<Id>, current: Option<Id>, pos: nat)
    requires PathInv(p, completed, start, path, current)
    requires pos < |path| && current == Some(path[pos])
    ensures IsCycle(p, Elements(path[pos..]))
  {
    var r := path[pos..];
    forall i | 0 <= i < |r| - 1
      ensures p[r[i]] == Some(r[i + 1])
    {
      assert p[path[pos + i]] == Some(path[pos + i + 1]);
    }
    RingIsCycle(p, r);
  }

  /** The part of that path before `pos` only leads into the cycle. */
  lemma HeadIsNotOnCycle(p: Parents, completed: set<Id>, start: Id, path: seq<Id>, current: Option<Id>, pos: nat, i: nat)
    requires PathInv(p, completed, start, path, current)
    requires i < pos < |path| && current == Some(path[pos])
    requires forall i, j :: 0 <= i < j < |path| ==> path[i] != path[j]
    ensures !OnCycle(p, path[i])
  {
    var c := Elements(path[pos..]);
    TailIsCycle(p, completed, start, path, current, pos);
    assert Absorbing(p, c);
    PathWalk(p, completed, start, path, current, i, pos);
    assert path[pos..][0] == path[pos];
    assert path[pos] in c;
    TrappedIsNotOnCycle(p, c, path[i], pos - i);
  }

  /** The path ran into itself at `pos`: its tail is the one new cycle. */
  lemma ClosedPath(p: Parents, completed: set<Id>, start: Id, path: seq<Id>, current: Option<Id>, pos: nat)
    requires Absorbing(p, completed) && PathInv(p, completed, start, path, current)
    requires pos < |path| && current == Some(path[pos])
    requires forall i, j :: 0 <= i < j < |path| ==> path[i] != path[j]
    ensures Absorbing(p, completed + Elements(path))
    ensures CyclesThrough(p, completed + Elements(path))
         == CyclesThrough(p, completed) + {Elements(path[pos..])}
  {
    PathAbsorbing(p, completed, start, path, current);
    var c := Elements(path[pos..]);
    TailIsCycle(p, completed, start, path, current, pos);
    var s := completed + Elements(path);
    forall d | d in CyclesThrough(p, s)
      ensures d in CyclesThrough(p, completed) || d == c
    {
      var x :| x in s && x in p.Keys && OnCycle(p, x) && d == Orbit(p, x);
      if x !in completed {
        var i: nat :| i < |path| && path[i] == x;
        if i < pos {
          HeadIsNotOnCycle(p, completed, start, path, current, pos, i);
        } else {
          assert path[pos..][i - pos] == x;
          CycleIsOrbit(p, c, x);
        }
      }
    }
    assert path[pos..][0] == path[pos];
    assert path[pos] in c && path[pos] in s;
    CycleIsOrbit(p, c, path[pos]);
    assert c in CyclesThrough(p, s);
    forall d | d in CyclesThrough(p, completed)
      ensures d in CyclesThrough(p, s)
    {
      var x :| x in completed && x in p.Keys && OnCycle(p, x) && d == Orbit(p, x);
      assert x in s;
    }
  }

  /**
   * The counter.  `order` is the iteration order of the dictionary; the result
   * does not depend on it.
   */
  method CountCycles(p: Parents, order: seq<Id>) returns (count: nat)
    requires forall x :: x in order <==> x in p
    ensures count == |Cycles(p)|
  {
    var completed: set<Id> := {};
    var cycles: set<set<Id>> := {};
    assert Absorbing(p, completed);
    for k := 0 to |order|
      invariant completed <= p.Keys
      invariant forall i :: 0 <= i < k ==> order[i] in completed
      invariant Absorbing(p, completed)
      invariant cycles == CyclesThrough(p, completed)
    {
      var start := order[k];
      if start in completed {
        continue;
      }
      var path: seq<Id> := [];
      var positions: map<Id, nat> := map[];
      var current := Some(start);
      ghost var closedAt: Option<nat> := None;
      while current.Some? && current.value in p
        invariant PathInv(p, completed, start, path, current)
        invariant forall x :: x in positions <==> x in path
        invariant forall x :: x in positions ==> positions[x] < |path| && path[positions[x]] == x
        invariant forall i, j :: 0 <= i < j < |path| ==> path[i] != path[j]
        invariant cycles == CyclesThrough(p, completed)
        invariant closedAt.None?
        decreases p.Keys - Elements(path)
      {
        if current.value in positions {
          cycles := cycles + {Elements(path[positions[current.value]..])};
          closedAt := Some(positions[current.value]);
          break;
        }
        if current.value in completed {
          break;
        }
        assert current.value in p.Keys - Elements(path);
        positions := positions[current.value := |path|];
        path := path + [current.value];
        current := p[current.value];
      }
      if closedAt.Some? {
        ClosedPath(p, completed, start, path, current, closedAt.value);
      } else {
        OpenPath(p, completed, start, path, current);
      }
      assert start in completed + Elements(path);
      completed := completed + Elements(path);
    }
    assert completed == p.Keys;
    count := |cycles|;
  }

  // ------------------------------------------------------------ consequences

  lemma LeavesByParent(p: Parents, x: Id)
    requires x in p
    ensures Leaves(p, x) <==> Outside(p, p[x]) || Leaves(p, p[x].value)
  {
    assert Walk(p, x, 0) == Some(x);
    assert Walk(p, x, 1) == p[x];
    if Leaves(p, x) {
      var n: nat :| Outside(p, Walk(p, x, n));
      if p[x].Some? {
        WalkAdds(p, x, 1, n - 1);
        assert Outside(p, Walk(p, p[x].value, n - 1));
      }
    }
    if Outside(p, p[x]) {
      assert Outside(p, Walk(p, x, 1));
    } else if Leaves(p, p[x].value) {
      var k: nat :| Outside(p, Walk(p, p[x].value, k));
      WalkAdds(p, x, 1, k);
      assert Outside(p, Walk(p, x, 1 + k));
    }
  }

  /** A chain that never leaves a finite domain runs into a cycle. */
  lemma {:induction false} PigeonHole(p: Parents, x: Id, seen: set<Id>)
    requires x in p && seen <= p.Keys && x !in seen
    requires forall y :: y in seen ==> Reaches(p, y, x)
    requires !Leaves(p, x)
    ensures exists y :: y in p && OnCycle(p, y)
    decreases p.Keys - seen
  {
    LeavesByParent(p, x);
    var z := p[x].value;
    assert Walk(p, x, 0) == Some(x);
    assert Walk(p, x, 1) == Some(z);
    assert Reaches(p, x, x) && Reaches(p, x, z);
    var seen' := seen + {x};
    if z in seen' {
      var a: nat :| Walk(p, z, a) == Some(x);
      WalkAdds(p, x, 1, a);
      assert Walk(p, x, 1 + a) == Some(x);
      assert OnCycle(p, x);
    } else {
      forall y | y in seen'
        ensures Reaches(p, y, z)
      {
        ReachesTrans(p, y, x, z);
      }
      assert x in p.Keys - seen;
      PigeonHole(p, z, seen');
    }
  }

  /** There is no cycle exactly when every parent chain leaves the domain. */
  lemma NoCyclesIffAllLeave(p: Parents)
    ensures |Cycles(p)| == 0 <==> forall x :: x in p ==> Leaves(p, x)
  {
    if forall x :: x in p ==> Leaves(p, x) {
      forall x | x in p.Keys
        ensures !OnCycle(p, x)
      {
        var n: nat :| Outside(p, Walk(p, x, n));
        TrappedIsNotOnCycle(p, {}, x, n);
      }
      assert Cycles(p) == {};
    } else {
      var x :| x in p && !Leaves(p, x);
      PigeonHole(p, x, {});
      var y :| y in p && OnCycle(p, y);
      assert y in p.Keys;
      assert Orbit(p, y) in Cycles(p);
    }
  }
}
