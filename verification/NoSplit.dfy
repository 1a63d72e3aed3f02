/** The ledger that bounds the stack of nosplit call chains (arm64/nosplit_measure.go):
    every grant is charged to all functions that share a chain with its receiver. */
module NoSplit {
  import opened Graphs

  type Edges = map<nat, seq<nat>>

  function Next(e: Edges, a: nat): seq<nat> {
    if a in e then e[a] else []
  }

  ghost predicate Calls(e: Edges, a: nat, b: nat) {
    b in Next(e, a)
  }

  ghost predicate Path(e: Edges, p: seq<nat>) {
    |p| > 0 && forall i, j :: 0 <= i && j == i + 1 && j < |p| ==> Calls(e, p[i], p[j])
  }

  /** A path from a to b whose later functions all avoid a set. */
  ghost predicate Avoiding(e: Edges, p: seq<nat>, bad: set<nat>, a: nat, b: nat) {
    Path(e, p) && |p| > 1 && p[0] == a && p[|p| - 1] == b && forall i :: 0 < i < |p| ==> p[i] !in bad
  }

  ghost predicate Reaches(e: Edges, bad: set<nat>, a: nat, b: nat) {
    exists p :: Avoiding(e, p, bad, a, b)
  }

  /** At least one call leads from a to b. */
  ghost predicate Below(e: Edges, a: nat, b: nat) {
    Reaches(e, {}, a, b)
  }

  lemma ReachesStep(e: Edges, bad: set<nat>, a: nat, b: nat, c: nat)
    requires (a == b || Reaches(e, bad, a, b)) && Calls(e, b, c) && c !in bad
    ensures Reaches(e, bad, a, c)
  {
    var p := [a];
    if a != b {
      p :| Avoiding(e, p, bad, a, b);
    }
    var q := p + [c];
    forall i, j | 0 <= i && j == i + 1 && j < |q|
      ensures Calls(e, q[i], q[j])
    {
      assert j < |p| ==> Calls(e, p[i], p[j]);
    }
    assert Avoiding(e, q, bad, a, c);
  }

  // ----- reach -----

  ghost predicate Targets(e: Edges, all: set<nat>) {
    forall a, b :: Calls(e, a, b) ==> b in all
  }

  /** A function already searched: the origin, or one newly visited. */
  ghost predicate Searched(visited0: set<nat>, visited: set<nat>, origin: nat, x: nat) {
    x == origin || (x in visited && x !in visited0)
  }

  ghost predicate SearchInv(e: Edges, visited0: set<nat>, visited: set<nat>, origin: nat, stack: seq<nat>) {
    && visited0 <= visited
    && (forall x :: x in visited && x !in visited0 ==> Reaches(e, visited0, origin, x))
    && (forall x :: x in stack ==> Searched(visited0, visited, origin, x))
    && (forall x, y :: Searched(visited0, visited, origin, x) && x !in stack && Calls(e, x, y) ==> y in visited)
  }

  /** A finished search has everything an avoiding path leads to. */
  lemma {:induction false} SearchCovers(e: Edges, visited0: set<nat>, visited: set<nat>, origin: nat, p: seq<nat>, k: nat)
    requires SearchInv(e, visited0, visited, origin, []) && Path(e, p) && p[0] == origin && k < |p|
    requires forall i :: 0 < i < |p| ==> p[i] !in visited0
    ensures Searched(visited0, visited, origin, p[k])
  {
    if k > 0 {
      var h := k - 1;
      SearchCovers(e, visited0, visited, origin, p, h);
      assert Calls(e, p[h], p[k]);
    }
  }

  /** One function's calls: the unvisited ones are marked and pushed. */
  method Expand(e: Edges, ghost visited0: set<nat>, vis0: set<nat>, ghost origin: nat, name: nat, stack0: seq<nat>, ghost all: set<nat>)
    returns (visited: set<nat>, stack: seq<nat>)
    requires SearchInv(e, visited0, vis0, origin, stack0 + [name]) && Targets(e, all)
    ensures SearchInv(e, visited0, visited, origin, stack) && vis0 <= visited
    ensures if visited == vis0 then stack == stack0 else exists x :: x in visited && x !in vis0 && x in all
  {
    hide Reaches, Calls;
    visited, stack := vis0, stack0;
    var nexts := Next(e, name);
    assert Searched(visited0, vis0, origin, name) by {
      assert (stack0 + [name])[|stack0|] == name;
    }
    for j := 0 to |nexts|
      invariant vis0 <= visited && visited0 <= visited
      invariant forall x :: x in visited && x !in visited0 ==> Reaches(e, visited0, origin, x)
      invariant forall x :: x in stack ==> Searched(visited0, visited, origin, x)
      invariant forall x :: x in stack0 ==> x in stack
      invariant forall x :: x in visited && x !in vis0 ==> x in stack && x in all
      invariant forall i :: 0 <= i < j ==> nexts[i] in visited
      invariant visited == vis0 ==> stack == stack0
    {
      var n := nexts[j];
      if n !in visited {
        CallsNext(e, name, j);
        if name != origin {
          assert Reaches(e, visited0, origin, name);
        }
        ReachesStep(e, visited0, origin, name, n);
        visited := visited + {n};
        stack := stack + [n];
      }
    }
    forall x, y | Searched(visited0, visited, origin, x) && x !in stack && Calls(e, x, y)
      ensures y in visited
    {
      if x == name {
        CallsIs(e, x, y);
      } else {
        assert x !in stack0 + [name];
      }
    }
  }

  lemma CallsNext(e: Edges, a: nat, j: nat)
    requires j < |Next(e, a)|
    ensures Calls(e, a, Next(e, a)[j])
  {
  }

  lemma CallsIs(e: Edges, a: nat, b: nat)
    requires Calls(e, a, b)
    ensures exists j :: 0 <= j < |Next(e, a)| && Next(e, a)[j] == b
  {
  }

  /** Adds what the edges lead to from origin, never passing what was visited before. */
  method Reach(e: Edges, visited0: set<nat>, origin: nat) returns (visited: set<nat>)
    requires origin in visited0
    ensures forall x :: x in visited <==> x in visited0 || Reaches(e, visited0, origin, x)
  {
    hide Reaches, SearchInv;
    ghost var all := set a, b | a in e && b in e[a] :: b;
    visited := visited0;
    var stack := [origin];
    SearchStart(e, visited0, origin, all);
    while |stack| > 0
      invariant SearchInv(e, visited0, visited, origin, stack)
      decreases all - visited, |stack|
    {
      var top := |stack| - 1;
      assert stack == stack[..top] + [stack[top]];
      ghost var before := visited;
      visited, stack := Expand(e, visited0, visited, origin, stack[top], stack[..top], all);
      if visited != before {
        var x :| x in visited && x !in before && x in all;
        assert x in all - before && x !in all - visited;
      }
    }
    assert stack == [];
    forall x
      ensures x in visited <==> x in visited0 || Reaches(e, visited0, origin, x)
    {
      SearchDone(e, visited0, visited, origin, x);
    }
  }

  lemma SearchStart(e: Edges, visited0: set<nat>, origin: nat, all: set<nat>)
    requires all == (set a, b | a in e && b in e[a] :: b) && origin in visited0
    ensures SearchInv(e, visited0, visited0, origin, [origin]) && Targets(e, all)
  {
  }

  lemma SearchDone(e: Edges, visited0: set<nat>, visited: set<nat>, origin: nat, x: nat)
    requires SearchInv(e, visited0, visited, origin, []) && origin in visited0
    ensures x in visited <==> x in visited0 || Reaches(e, visited0, origin, x)
  {
    if p :| Avoiding(e, p, visited0, origin, x) {
      SearchCovers(e, visited0, visited, origin, p, |p| - 1);
    }
  }

  // ----- sharing -----

  ghost predicate Acyclic(e: Edges) {
    forall a :: !Below(e, a, a)
  }

  ghost predicate Inverse(callees: Edges, callers: Edges) {
    forall a, b :: Calls(callees, a, b) <==> Calls(callers, b, a)
  }

  lemma {:induction false} ReversePath(e: Edges, r: Edges, p: seq<nat>, q: seq<nat>)
    requires Inverse(e, r) && Path(e, p) && |q| == |p| && forall i :: 0 <= i < |p| ==> q[i] == p[|p| - 1 - i]
    ensures Path(r, q)
  {
    hide Calls;
    forall i, j | 0 <= i && j == i + 1 && j < |q|
      ensures Calls(r, q[i], q[j])
    {
      var x, y := |p| - 1 - j, |p| - 1 - i;
      assert Calls(e, p[x], p[y]);
    }
  }

  lemma BelowReversed(e: Edges, r: Edges, a: nat, b: nat)
    requires Inverse(e, r) && Below(e, a, b)
    ensures Below(r, b, a)
  {
    var p :| Avoiding(e, p, {}, a, b);
    var q := seq(|p|, i requires 0 <= i < |p| => p[|p| - 1 - i]);
    ReversePath(e, r, p, q);
    assert Avoiding(r, q, {}, b, a);
  }

  lemma InverseSymmetric(e: Edges, r: Edges)
    requires Inverse(e, r)
    ensures Inverse(r, e)
  {
  }

  /** The part of a path from its last visit to the origin. */
  lemma {:induction false} SkipOrigin(e: Edges, p: seq<nat>, a: nat, b: nat)
    requires Avoiding(e, p, {}, a, b) && a != b
    ensures Reaches(e, {a}, a, b)
    decreases |p|
  {
    hide Calls;
    if i :| 0 < i < |p| && p[i] == a {
      var q := p[i..];
      forall x, y | 0 <= x && y == x + 1 && y < |q|
        ensures Calls(e, q[x], q[y])
      {
        assert Calls(e, p[i + x], p[i + y]);
      }
      SkipOrigin(e, q, a, b);
    } else {
      assert Avoiding(e, p, {a}, a, b);
    }
  }

  lemma ReachesIsBelow(e: Edges, bad: set<nat>, a: nat, b: nat)
    requires Reaches(e, bad, a, b)
    ensures Below(e, a, b)
  {
    var p :| Avoiding(e, p, bad, a, b);
    assert Avoiding(e, p, {}, a, b);
  }

  /** Down is name and everything below it. */
  ghost predicate IsDown(e: Edges, name: nat, down: set<nat>) {
    forall x :: x in down <==> x == name || Below(e, name, x)
  }

  lemma DownIs(e: Edges, name: nat, down: set<nat>)
    requires forall x :: x in down <==> x in {name} || Reaches(e, {name}, name, x)
    ensures IsDown(e, name, down)
  {
    forall x
      ensures x in down <==> x == name || Below(e, name, x)
    {
      if Reaches(e, {name}, name, x) {
        ReachesIsBelow(e, {name}, name, x);
      }
      if x != name && Below(e, name, x) {
        var p :| Avoiding(e, p, {}, name, x);
        SkipOrigin(e, p, name, x);
      }
    }
  }

  ghost predicate SharesAll(e: Edges, name: nat, shared: set<nat>) {
    forall x :: x in shared <==> x == name || Below(e, name, x) || Below(e, x, name)
  }

  /** x is outside down and calls a function of down, other than name, that leads back
      to name: it calls into a cycle through name. */
  ghost predicate EntersCycle(callees: Edges, name: nat, down: set<nat>, x: nat, y: nat) {
    x !in down && y in down && y != name && Calls(callees, x, y) && Below(callees, y, name)
  }

  /** Every such caller also leads to name by calls that stay outside down. */
  ghost predicate CyclesAvoided(callees: Edges, callers: Edges, name: nat, down: set<nat>) {
    forall x, y :: EntersCycle(callees, name, down, x, y) ==> Reaches(callers, down, name, x)
  }

  lemma BelowJoins(e: Edges, a: nat, b: nat, c: nat)
    requires Below(e, a, b) && Below(e, b, c)
    ensures Below(e, a, c)
  {
    hide Calls;
    var p :| Avoiding(e, p, {}, a, b);
    var q :| Avoiding(e, q, {}, b, c);
    var r := p + q[1..];
    forall i, j | 0 <= i && j == i + 1 && j < |r|
      ensures Calls(e, r[i], r[j])
    {
      if i < |p| - 1 {
        assert Calls(e, p[i], p[j]);
      } else {
        var x, y := i - |p| + 1, j - |p| + 1;
        assert r[i] == q[x] && r[j] == q[y];
        assert Calls(e, q[x], q[y]);
      }
    }
    assert Avoiding(e, r, {}, a, c);
  }

  lemma UpIsAbove(callees: Edges, callers: Edges, name: nat, down: set<nat>, x: nat)
    requires Inverse(callees, callers) && Reaches(callers, down, name, x)
    ensures Below(callees, x, name)
  {
    InverseSymmetric(callees, callers);
    ReachesIsBelow(callers, down, name, x);
    BelowReversed(callers, callees, name, x);
  }

  /** Joining avoiding paths. */
  lemma ReachesJoins(e: Edges, bad: set<nat>, a: nat, b: nat, q: seq<nat>, c: nat)
    requires (a == b || Reaches(e, bad, a, b)) && Path(e, q) && q[0] == b && q[|q| - 1] == c && |q| > 1
    requires forall i :: 0 < i < |q| ==> q[i] !in bad
    ensures Reaches(e, bad, a, c)
  {
    hide Calls;
    if a == b {
      assert Avoiding(e, q, bad, a, c);
    } else {
      var p :| Avoiding(e, p, bad, a, b);
      var r := p + q[1..];
      forall i, j | 0 <= i && j == i + 1 && j < |r|
        ensures Calls(e, r[i], r[j])
      {
        if i < |p| - 1 {
          assert Calls(e, p[i], p[j]);
        } else {
          var x, y := i - |p| + 1, j - |p| + 1;
          assert r[i] == q[x] && r[j] == q[y];
          assert Calls(e, q[x], q[y]);
        }
      }
      assert Avoiding(e, r, bad, a, c);
    }
  }

  lemma PathPart(e: Edges, p: seq<nat>, i: nat, j: nat)
    requires Path(e, p) && i <= j < |p|
    ensures Path(e, p[i..j + 1])
  {
    hide Calls;
    var q := p[i..j + 1];
    forall x, y | 0 <= x && y == x + 1 && y < |q|
      ensures Calls(e, q[x], q[y])
    {
      assert Calls(e, p[i + x], p[i + y]);
    }
  }

  /** Where a path to name from outside first enters down: at name, or into a cycle
      through it. */
  lemma AboveIsFound(callees: Edges, callers: Edges, name: nat, down: set<nat>, p: seq<nat>, k: nat)
    requires Inverse(callees, callers) && IsDown(callees, name, down) && CyclesAvoided(callees, callers, name, down)
    requires Path(callees, p) && p[|p| - 1] == name && 0 < k < |p| && p[k] in down && forall i :: 0 <= i < k ==> p[i] !in down
    ensures Reaches(callers, down, name, p[0])
  {
    hide Calls, IsDown;
    var h := k - 1;
    assert Calls(callees, p[h], p[k]);
    if p[k] == name {
      PathPart(callees, p, 0, k);
      var q := p[0..k + 1];
      var r := seq(|q|, i requires 0 <= i < |q| => q[|q| - 1 - i]);
      ReversePath(callees, callers, q, r);
      assert Avoiding(callers, r, down, name, p[0]);
    } else {
      PathPart(callees, p, k, |p| - 1);
      var tail := p[k..|p| - 1 + 1];
      assert tail[0] == p[k] && tail[|tail| - 1] == name;
      assert Avoiding(callees, tail, {}, p[k], name);
      assert EntersCycle(callees, name, down, p[h], p[k]);
      if h > 0 {
        PathPart(callees, p, 0, h);
        var q := p[0..h + 1];
        var r := seq(|q|, i requires 0 <= i < |q| => q[|q| - 1 - i]);
        ReversePath(callees, callers, q, r);
        ReachesJoins(callers, down, name, p[h], r, p[0]);
      }
    }
  }

  lemma FirstIn(p: seq<nat>, down: set<nat>) returns (k: nat)
    requires |p| > 0 && p[|p| - 1] in down
    ensures k < |p| && p[k] in down && forall i :: 0 <= i < k ==> p[i] !in down
  {
    k := 0;
    while p[k] !in down
      invariant k < |p| && forall i :: 0 <= i < k ==> p[i] !in down
      decreases |p| - k
    {
      assert k != |p| - 1;
      k := k + 1;
    }
  }

  /** The two searches find everything above and below name exactly when every caller
      of a cycle through name also leads to it outside what is below. */
  lemma SharesAllExactly(callees: Edges, callers: Edges, name: nat, down: set<nat>, shared: set<nat>)
    requires Inverse(callees, callers) && IsDown(callees, name, down)
    requires forall x :: x in shared <==> x in down || Reaches(callers, down, name, x)
    ensures SharesAll(callees, name, shared) <==> CyclesAvoided(callees, callers, name, down)
  {
    hide Reaches, Calls;
    forall x | Reaches(callers, down, name, x)
      ensures Below(callees, x, name)
    {
      UpIsAbove(callees, callers, name, down, x);
    }
    if CyclesAvoided(callees, callers, name, down) {
      forall x | Below(callees, x, name) && x !in down
        ensures Reaches(callers, down, name, x)
      {
        AboveFound(callees, callers, name, down, x);
      }
    }
    if SharesAll(callees, name, shared) {
      forall x, y | EntersCycle(callees, name, down, x, y)
        ensures Reaches(callers, down, name, x)
      {
        CallerIsAbove(callees, x, y, name);
      }
    }
  }

  lemma AboveFound(callees: Edges, callers: Edges, name: nat, down: set<nat>, x: nat)
    requires Inverse(callees, callers) && IsDown(callees, name, down) && CyclesAvoided(callees, callers, name, down)
    requires Below(callees, x, name) && x !in down
    ensures Reaches(callers, down, name, x)
  {
    hide Calls, CyclesAvoided;
    var p :| Avoiding(callees, p, {}, x, name);
    var k := FirstIn(p, down);
    AboveIsFound(callees, callers, name, down, p, k);
  }

  lemma CallerIsAbove(e: Edges, x: nat, y: nat, z: nat)
    requires Calls(e, x, y) && Below(e, y, z)
    ensures Below(e, x, z)
  {
    assert Avoiding(e, [x, y], {}, x, y);
    BelowJoins(e, x, y, z);
  }

  /** Without cycles there is no such caller. */
  lemma AcyclicAvoids(callees: Edges, callers: Edges, name: nat, down: set<nat>)
    requires Acyclic(callees) && IsDown(callees, name, down)
    ensures CyclesAvoided(callees, callers, name, down)
  {
    hide Calls, Below;
    forall x: nat, y: nat
      ensures !EntersCycle(callees, name, down, x, y)
    {
      if Below(callees, name, y) && Below(callees, y, name) {
        BelowJoins(callees, name, y, name);
      }
    }
  }

  /** The functions on a chain with name: found by searching down, then up past none of
      what the first search found. */
  method Sharing(callees: Edges, callers: Edges, name: nat) returns (shared: set<nat>, ghost down: set<nat>)
    requires Inverse(callees, callers)
    ensures IsDown(callees, name, down) && forall x :: x in shared <==> x in down || Reaches(callers, down, name, x)
    ensures SharesAll(callees, name, shared) <==> CyclesAvoided(callees, callers, name, down)
    ensures Acyclic(callees) ==> SharesAll(callees, name, shared)
  {
    hide Reaches, IsDown, SharesAll, CyclesAvoided;
    var found := Reach(callees, {name}, name);
    down := found;
    DownIs(callees, name, down);
    shared := Reach(callers, found, name);
    SharesAllExactly(callees, callers, name, down, shared);
    if Acyclic(callees) {
      AcyclicAvoids(callees, callers, name, down);
    }
  }

  /** On a cycle the second search can stop short: 2 calls 1 calls 0, but 1 is also
      called by 0, so 2 is not found to share a chain with 0. */
  lemma CycleHidesCaller(callees: Edges, callers: Edges, down: set<nat>)
    requires callees == map[0 := [1], 1 := [0], 2 := [1]] && callers == map[0 := [1], 1 := [0, 2]] && IsDown(callees, 0, down)
    ensures Below(callees, 2, 0) && 2 !in down && !Reaches(callers, down, 0, 2)
  {
    assert Avoiding(callees, [2, 1, 0], {}, 2, 0);
    assert Avoiding(callees, [0, 1], {}, 0, 1);
    assert Below(callees, 0, 1);
    forall p, x | Avoiding(callees, p, {}, 0, x)
      ensures x != 2
    {
      StaysInCycle(callees, p, |p| - 1);
    }
    assert forall p :: Path(callers, p) && |p| > 1 && p[0] == 0 ==> Calls(callers, p[0], p[1]);
  }

  /** A caller of the cycle that also calls name itself is found all the same. */
  lemma DirectCallerFound(callees: Edges, callers: Edges, down: set<nat>)
    requires callees == map[0 := [1], 1 := [0], 2 := [1, 0]] && callers == map[0 := [1, 2], 1 := [0, 2]] && IsDown(callees, 0, down)
    ensures EntersCycle(callees, 0, down, 2, 1) && Reaches(callers, down, 0, 2)
  {
    assert Avoiding(callees, [1, 0], {}, 1, 0);
    assert Avoiding(callees, [0, 1], {}, 0, 1);
    assert Below(callees, 0, 1) && Below(callees, 1, 0);
    forall p, x | Avoiding(callees, p, {}, 0, x)
      ensures x != 2
    {
      StaysInCycle(callees, p, |p| - 1);
    }
    assert Avoiding(callers, [0, 2], down, 0, 2);
  }

  lemma {:induction false} StaysInCycle(callees: Edges, p: seq<nat>, k: nat)
    requires Next(callees, 0) == [1] && Next(callees, 1) == [0] && Path(callees, p) && p[0] == 0 && k < |p|
    ensures p[k] == 0 || p[k] == 1
  {
    if k > 0 {
      var h := k - 1;
      StaysInCycle(callees, p, h);
      assert Calls(callees, p[h], p[k]);
    }
  }

  /** What the walk knows of a function. */
  datatype Fn = Fn(name: nat, noSplit: bool, calls: seq<nat>)

  ghost predicate IsNoSplit(fs: seq<Fn>, x: nat) {
    exists i :: 0 <= i < |fs| && fs[i].noSplit && fs[i].name == x
  }

  /** The calls a chain can make: between nosplit functions, not to oneself. */
  ghost predicate ChainCall(fs: seq<Fn>, a: nat, b: nat) {
    IsNoSplit(fs, b) && a != b && exists i :: 0 <= i < |fs| && CallsFrom(fs[i], a, b)
  }

  ghost predicate CallsFrom(f: Fn, a: nat, b: nat) {
    f.noSplit && f.name == a && b in f.calls
  }

  function Link(e: Edges, a: nat, b: nat): (r: Edges)
    ensures forall x: nat, y: nat :: Calls(r, x, y) <==> Calls(e, x, y) || (x == a && y == b)
  {
    e[a := Next(e, a) + [b]]
  }

  method CollectCalls(names: set<nat>, f: Fn, callees0: Edges, callers0: Edges) returns (callees: Edges, callers: Edges)
    requires f.noSplit && Inverse(callees0, callers0)
    ensures Inverse(callees, callers)
    ensures forall a: nat, b: nat :: Calls(callees, a, b) <==> Calls(callees0, a, b) || (b in names && a != b && CallsFrom(f, a, b))
  {
    hide Calls;
    callees, callers := callees0, callers0;
    for j := 0 to |f.calls|
      invariant Inverse(callees, callers)
      invariant forall a: nat, b: nat :: Calls(callees, a, b) <==> Calls(callees0, a, b) || (b in names && a != b && f.name == a && b in f.calls[..j])
    {
      var callee := f.calls[j];
      assert f.calls[..j + 1] == f.calls[..j] + [callee];
      if callee in names && callee != f.name {
        callees := Link(callees, f.name, callee);
        callers := Link(callers, callee, f.name);
      }
    }
    assert f.calls[..|f.calls|] == f.calls;
  }

  /** Every nosplit function with all that share a chain with it. */
  method ChainSharing(fs: seq<Fn>) returns (sharing: map<nat, seq<nat>>, ghost e: Edges, ghost fns: set<nat>)
    ensures (forall x :: x in fns <==> IsNoSplit(fs, x)) && forall a: nat, b: nat :: Calls(e, a, b) <==> ChainCall(fs, a, b)
    ensures (forall x :: x in sharing <==> x in fns) && forall x :: x in sharing ==> Distinct(sharing[x])
    ensures Acyclic(e) ==> SharingOk(e, fns, sharing)
    ensures Acyclic(e) ==> forall a, b :: a in sharing && b in sharing[a] ==> OneChain(e, a, b)
  {
    hide Calls, SharesAll, Reaches, Acyclic;
    var names := NoSplitNames(fs);
    fns := names;
    var callees: Edges, callers: Edges := map[], map[];
    NoCalls();
    for i := 0 to |fs|
      invariant Inverse(callees, callers)
      invariant forall a: nat, b: nat :: Calls(callees, a, b) <==> (b in names && a != b && exists j :: 0 <= j < i && CallsFrom(fs[j], a, b))
    {
      if fs[i].noSplit {
        callees, callers := CollectCalls(names, fs[i], callees, callers);
      }
    }
    e := callees;
    sharing := map[];
    var rest := names;
    while rest != {}
      invariant rest <= names && (forall x :: x in sharing <==> x in names - rest)
      invariant forall x :: x in sharing ==> Distinct(sharing[x])
      invariant Acyclic(e) ==> forall x :: x in sharing ==> SharesList(e, x, sharing[x])
      decreases rest
    {
      var name :| name in rest;
      var shared;
      ghost var down;
      shared, down := Sharing(callees, callers, name);
      var list := Listed(shared);
      if Acyclic(e) {
        SharesListed(e, name, shared, list);
      }
      sharing := sharing[name := list];
      rest := rest - {name};
    }
    if Acyclic(e) {
      SharingDone(e, fns, sharing);
    }
  }

  ghost predicate SharesList(e: Edges, name: nat, list: seq<nat>) {
    forall x :: x in list <==> OneChain(e, name, x)
  }

  lemma SharesListed(e: Edges, name: nat, shared: set<nat>, list: seq<nat>)
    requires SharesAll(e, name, shared) && forall x :: x in list <==> x in shared
    ensures SharesList(e, name, list)
  {
    hide Below;
  }

  lemma SharingDone(e: Edges, fns: set<nat>, sharing: map<nat, seq<nat>>)
    requires (forall x :: x in sharing <==> x in fns) && forall x :: x in sharing ==> SharesList(e, x, sharing[x])
    ensures SharingOk(e, fns, sharing) && forall a, b :: a in sharing && b in sharing[a] ==> OneChain(e, a, b)
  {
    hide OneChain;
  }

  lemma NoCalls()
    ensures Inverse(map[], map[]) && forall a: nat, b: nat :: !Calls(map[], a, b)
  {
  }

  method NoSplitNames(fs: seq<Fn>) returns (names: set<nat>)
    ensures forall x :: x in names <==> IsNoSplit(fs, x)
  {
    names := {};
    for i := 0 to |fs|
      invariant forall x :: x in names <==> exists j :: 0 <= j < i && fs[j].noSplit && fs[j].name == x
    {
      if fs[i].noSplit {
        names := names + {fs[i].name};
      }
    }
  }

  method Listed(s: set<nat>) returns (r: seq<nat>)
    ensures Distinct(r) && forall x :: x in r <==> x in s
  {
    r := [];
    var rest := s;
    while rest != {}
      invariant rest <= s && Distinct(r) && forall x :: x in r <==> x in s - rest
      decreases rest
    {
      var x :| x in rest;
      assert x !in r;
      r, rest := r + [x], rest - {x};
    }
  }

  // ----- the ledger -----

  function Spent(charged: map<nat, nat>, x: nat): nat {
    if x in charged then charged[x] else 0
  }

  class Budget {
    const headroom: map<nat, int>
    const sharing: map<nat, seq<nat>>
    var charged: map<nat, nat>

    /** The charges made so far. */
    ghost var grants: seq<Grant>

    ghost predicate Valid() reads this {
      && (forall x :: x in sharing ==> Distinct(sharing[x]))
      && forall x: nat :: Spent(charged, x) == Charges(sharing, grants, x)
    }

    constructor (headroom: map<nat, int>, sharing: map<nat, seq<nat>>)
      requires forall x :: x in sharing ==> Distinct(sharing[x])
      ensures Valid() && this.headroom == headroom && this.sharing == sharing && grants == []
    {
      this.headroom, this.sharing, charged, grants := headroom, sharing, map[], [];
    }

    /** What a function may still grow by; nothing for one that was not measured. */
    function Headroom(name: nat): (room: int)
      requires Valid()
      reads this
      ensures room == Room(headroom, sharing, grants, name)
    {
      if name in headroom then headroom[name] - Spent(charged, name) else 0
    }

    /** Takes bytes from everything that shares a chain with name. */
    method Charge(name: nat, bytes: int)
      requires Valid()
      modifies this
      ensures Valid() && grants == if bytes <= 0 then old(grants) else old(grants) + [Grant(name, bytes)]
    {
      if bytes <= 0 {
        return;
      }
      ghost var before, gs := charged, grants;
      grants := grants + [Grant(name, bytes)];
      assert grants[..|gs|] == gs;
      if name in sharing {
        var list := sharing[name];
        for i := 0 to |list|
          invariant grants == gs + [Grant(name, bytes)]
          invariant forall x: nat :: Spent(charged, x) == Spent(before, x) + (if x in list[..i] then bytes else 0)
        {
          var s := list[i];
          assert s !in list[..i];
          assert list[..i + 1] == list[..i] + [s];
          charged := charged[s := Spent(charged, s) + bytes];
        }
        assert list[..|list|] == list;
      }
    }
  }

  /** What a charge to name costs x. */
  function Due(sharing: map<nat, seq<nat>>, name: nat, bytes: int, x: nat): nat {
    if bytes > 0 && name in sharing && x in sharing[name] then bytes else 0
  }

  /** One grant: to whom, how many bytes. */
  datatype Grant = Grant(name: nat, bytes: nat)

  /** What has been charged to x by these grants. */
  function Charges(sharing: map<nat, seq<nat>>, gs: seq<Grant>, x: nat): nat {
    if gs == [] then 0
    else Charges(sharing, gs[..|gs| - 1], x) + Due(sharing, gs[|gs| - 1].name, gs[|gs| - 1].bytes, x)
  }

  /** What these grants add to x's frame. */
  function Granted(gs: seq<Grant>, x: nat): nat {
    if gs == [] then 0
    else Granted(gs[..|gs| - 1], x) + (if gs[|gs| - 1].name == x then gs[|gs| - 1].bytes else 0)
  }

  function Room(headroom: map<nat, int>, sharing: map<nat, seq<nat>>, gs: seq<Grant>, x: nat): int {
    if x in headroom then headroom[x] - Charges(sharing, gs, x) else 0
  }

  /** Each grant was within the headroom left by the ones before it. */
  ghost predicate WithinHeadroom(headroom: map<nat, int>, sharing: map<nat, seq<nat>>, gs: seq<Grant>) {
    forall i :: 0 <= i < |gs| && gs[i].bytes > 0 ==> gs[i].bytes <= Room(headroom, sharing, gs[..i], gs[i].name)
  }

  /** The bytes a chain needs. */
  function Total(size: nat -> nat, c: seq<nat>): nat {
    if c == [] then 0 else Total(size, c[..|c| - 1]) + size(c[|c| - 1])
  }

  function GrantedOn(gs: seq<Grant>, c: seq<nat>): nat {
    Total((x: nat) => Granted(gs, x), c)
  }

  function After(frame: nat -> nat, gs: seq<Grant>): nat -> nat {
    (x: nat) => frame(x) + Granted(gs, x)
  }

  /** A chain needs the sum of its functions' bytes. */
  lemma TotalIs(size: nat -> nat, c: seq<nat>, x: nat)
    ensures Total(size, []) == 0 && Total(size, c + [x]) == Total(size, c) + size(x)
  {
    assert (c + [x])[..|c|] == c;
  }

  /** A grant adds its bytes to its function's frame, and takes them from the room of
      every measured function sharing a chain with it. */
  lemma GrantIs(headroom: map<nat, int>, sharing: map<nat, seq<nat>>, frame: nat -> nat, gs: seq<Grant>, g: Grant, x: nat)
    ensures After(frame, [])(x) == frame(x)
    ensures After(frame, gs + [g])(x) == After(frame, gs)(x) + (if g.name == x then g.bytes else 0)
    ensures Room(headroom, sharing, [], x) == if x in headroom then headroom[x] else 0
    ensures Room(headroom, sharing, gs + [g], x) ==
            if x !in headroom then 0
            else Room(headroom, sharing, gs, x) - (if g.name in sharing && x in sharing[g.name] then g.bytes else 0)
  {
    assert (gs + [g])[..|gs|] == gs;
  }

  lemma {:induction false} TotalSplits(frame: nat -> nat, gs: seq<Grant>, c: seq<nat>)
    ensures Total(After(frame, gs), c) == Total(frame, c) + GrantedOn(gs, c)
  {
    if c != [] {
      TotalSplits(frame, gs, c[..|c| - 1]);
    }
  }

  /** One more grant adds its bytes to each chain its receiver is on. */
  lemma {:induction false} GrantedOnNext(gs: seq<Grant>, g: Grant, c: seq<nat>)
    requires Distinct(c)
    ensures GrantedOn(gs + [g], c) == GrantedOn(gs, c) + (if g.name in c then g.bytes else 0)
  {
    assert (gs + [g])[..|gs|] == gs;
    if c != [] {
      var d, x := c[..|c| - 1], c[|c| - 1];
      assert c == d + [x] && x !in d;
      GrantedOnNext(gs, g, d);
      assert Granted(gs + [g], x) == Granted(gs, x) + (if g.name == x then g.bytes else 0);
    }
  }

  /** a and b lie on one chain. */
  ghost predicate OneChain(e: Edges, a: nat, b: nat) {
    a == b || Below(e, a, b) || Below(e, b, a)
  }

  ghost predicate SharingOk(e: Edges, fns: set<nat>, sharing: map<nat, seq<nat>>) {
    forall a, b :: a in fns && OneChain(e, a, b) ==> a in sharing && b in sharing[a]
  }

  /** A chain of nosplit functions. */
  ghost predicate IsChain(e: Edges, fns: set<nat>, c: seq<nat>) {
    Path(e, c) && forall x :: x in c ==> x in fns
  }

  /** Functions of one chain share it. */
  lemma ChainShares(e: Edges, fns: set<nat>, sharing: map<nat, seq<nat>>, c: seq<nat>, x: nat, y: nat)
    requires SharingOk(e, fns, sharing) && IsChain(e, fns, c) && x in c && y in c
    ensures x in sharing && y in sharing[x]
  {
    hide Below;
    var i :| 0 <= i < |c| && c[i] == x;
    var j :| 0 <= j < |c| && c[j] == y;
    if i < j {
      SegmentBelow(e, c, i, j);
    } else if j < i {
      SegmentBelow(e, c, j, i);
    }
    assert OneChain(e, x, y);
  }

  lemma SegmentBelow(e: Edges, c: seq<nat>, i: nat, j: nat)
    requires Path(e, c) && i < j < |c|
    ensures Below(e, c[i], c[j])
  {
    hide Calls;
    var q := c[i..j + 1];
    forall x, y | 0 <= x && y == x + 1 && y < |q|
      ensures Calls(e, q[x], q[y])
    {
      assert Calls(e, c[i + x], c[i + y]);
    }
    assert Avoiding(e, q, {}, c[i], c[j]);
  }

  lemma AcyclicDistinct(e: Edges, c: seq<nat>)
    requires Acyclic(e) && Path(e, c)
    ensures Distinct(c)
  {
    hide Below;
    forall i, j | 0 <= i < j < |c|
      ensures c[i] != c[j]
    {
      SegmentBelow(e, c, i, j);
    }
  }

  /** Every function of a chain has been charged at least what the chain was granted. */
  lemma {:induction false} ChargedForChain(e: Edges, fns: set<nat>, sharing: map<nat, seq<nat>>, gs: seq<Grant>, c: seq<nat>, x: nat)
    requires SharingOk(e, fns, sharing) && IsChain(e, fns, c) && Distinct(c) && x in c
    ensures Charges(sharing, gs, x) >= GrantedOn(gs, c)
    decreases |gs|
  {
    hide SharingOk, IsChain;
    if gs == [] {
      NothingGranted(c);
    } else {
      var n := |gs| - 1;
      var before, g := gs[..n], gs[n];
      assert gs == before + [g];
      ChargedForChain(e, fns, sharing, before, c, x);
      GrantedOnNext(before, g, c);
      if g.name in c {
        ChainShares(e, fns, sharing, c, g.name, x);
      }
    }
  }

  lemma {:induction false} NothingGranted(c: seq<nat>)
    ensures GrantedOn([], c) == 0
  {
    if c != [] {
      NothingGranted(c[..|c| - 1]);
    }
  }

  /** Headroom never exceeds what the deepest chain through a function leaves. */
  ghost predicate HeadroomOk(e: Edges, fns: set<nat>, frame: nat -> nat, limit: int, headroom: map<nat, int>) {
    forall x, c :: x in headroom && IsChain(e, fns, c) && x in c ==> headroom[x] <= limit - Total(frame, c)
  }

  /** After any sequence of grants, each within the headroom then left and charged, every
      chain is within the limit, or has been granted nothing. */
  lemma {:induction false} ChainsStayWithin(e: Edges, fns: set<nat>, sharing: map<nat, seq<nat>>, frame: nat -> nat, limit: int, headroom: map<nat, int>,
                                            gs: seq<Grant>, c: seq<nat>)
    requires Acyclic(e) && SharingOk(e, fns, sharing) && HeadroomOk(e, fns, frame, limit, headroom)
    requires WithinHeadroom(headroom, sharing, gs) && IsChain(e, fns, c)
    ensures Total(After(frame, gs), c) <= limit || Total(After(frame, gs), c) == Total(frame, c)
    ensures Total(frame, c) <= limit ==> Total(After(frame, gs), c) <= limit
    decreases |gs|
  {
    hide Acyclic, SharingOk;
    AcyclicDistinct(e, c);
    TotalSplits(frame, gs, c);
    if gs == [] {
      NothingGranted(c);
    } else {
      var n := |gs| - 1;
      var before, g := gs[..n], gs[n];
      assert gs == before + [g];
      assert forall i :: 0 <= i < n ==> before[..i] == gs[..i] && before[i] == gs[i];
      assert WithinHeadroom(headroom, sharing, before);
      ChainsStayWithin(e, fns, sharing, frame, limit, headroom, before, c);
      TotalSplits(frame, before, c);
      GrantedOnNext(before, g, c);
      if g.name in c && g.bytes > 0 {
        ChargedForChain(e, fns, sharing, before, c, g.name);
        assert g.bytes <= Room(headroom, sharing, gs[..n], g.name);
      }
    }
  }
}
