/** The breadth-first walk over a process tree, which keeps no visited set
    (benchmarks/bench.ts:289-332). */
module ProcessTree {
  datatype Tree = Node(pid: int, kids: seq<Tree>)

  type Children = int -> seq<int>

  function Pids(ts: seq<Tree>): (r: seq<int>)
    ensures |r| == |ts| && forall i :: 0 <= i < |ts| ==> r[i] == ts[i].pid
  {
    seq(|ts|, i requires 0 <= i < |ts| => ts[i].pid)
  }

  /** The process table is a snapshot of this tree. */
  predicate Shows(children: Children, t: Tree) {
    children(t.pid) == Pids(t.kids) && forall k :: k in t.kids ==> Shows(children, k)
  }

  predicate ShowsAll(children: Children, ts: seq<Tree>) {
    forall t :: t in ts ==> Shows(children, t)
  }

  /** How many processes there are in these trees. */
  ghost function Size(ts: seq<Tree>): nat
    decreases ts
  {
    if ts == [] then 0 else 1 + Size(ts[0].kids) + Size(ts[1..])
  }

  lemma {:induction false} SizeConcat(a: seq<Tree>, b: seq<Tree>)
    ensures Size(a + b) == Size(a) + Size(b)
  {
    if a == [] {
      assert a + b == b;
    } else {
      assert (a + b)[1..] == a[1..] + b;
      SizeConcat(a[1..], b);
    }
  }

  lemma SizeStep(first: Tree, rest: seq<Tree>)
    ensures Size(rest + first.kids) < Size([first] + rest)
  {
    SizeConcat(rest, first.kids);
    assert ([first] + rest)[1..] == rest;
  }

  /** What the walk yields from a queue of subtrees. */
  ghost function Walk(queue: seq<Tree>): seq<int>
    decreases Size(queue)
  {
    if queue == [] then []
    else
      SizeConcat(queue[1..], queue[0].kids);
      [queue[0].pid] + Walk(queue[1..] + queue[0].kids)
  }

  /** getAllDescendantPids. It ends because every round takes one process off the
      subtrees in the queue. */
  method GetAllDescendantPids(children: Children, pid: int, ghost t: Tree) returns (all: seq<int>)
    requires t.pid == pid && Shows(children, t)
    ensures all == Walk([t])
    ensures Distinct(all) <==> Forest(children, t)
  {
    hide Walk, Forest, Distinct, Size, In;
    DescendantsAreDistinct(children, t);
    NothingToWalk(0);
    assert [] + Walk([t]) == Walk([t]);
    var queue := [pid];
    all := [];
    ghost var trees := [t];
    while |queue| > 0
      invariant queue == Pids(trees) && ShowsAll(children, trees)
      invariant all + Walk(trees) == Walk([t])
      decreases Size(trees)
    {
      var current := queue[0];
      all := all + [current];
      ghost var first, rest := trees[0], trees[1..];
      assert trees == [first] + rest && first in trees;
      SizeStep(first, rest);
      WalkStep(first, rest);
      assert all + Walk(rest + first.kids) == Walk([t]);
      queue := queue[1..] + children(current);
      trees := rest + first.kids;
    }
  }

  // ---------------------------------------------------------------- levels

  ghost function KidsOf(ts: seq<Tree>): seq<Tree> {
    if ts == [] then [] else ts[0].kids + KidsOf(ts[1..])
  }

  lemma {:induction false} KidsAreFewer(ts: seq<Tree>)
    ensures Size(ts) == |ts| + Size(KidsOf(ts))
  {
    if ts != [] {
      KidsAreFewer(ts[1..]);
      SizeConcat(ts[0].kids, KidsOf(ts[1..]));
    }
  }

  /** Every process with its depth, level by level. */
  ghost function Levels(ts: seq<Tree>, depth: nat): seq<(int, nat)>
    decreases Size(ts)
  {
    if ts == [] then []
    else
      KidsAreFewer(ts);
      AtDepth(Pids(ts), depth) + Levels(KidsOf(ts), depth + 1)
  }

  ghost function AtDepth(pids: seq<int>, depth: nat): (r: seq<(int, nat)>)
    ensures |r| == |pids| && forall i :: 0 <= i < |r| ==> r[i] == (pids[i], depth)
  {
    seq(|pids|, i requires 0 <= i < |pids| => (pids[i], depth))
  }

  ghost function Firsts(ps: seq<(int, nat)>): (r: seq<int>)
    ensures |r| == |ps| && forall i :: 0 <= i < |r| ==> r[i] == ps[i].0
  {
    seq(|ps|, i requires 0 <= i < |ps| => ps[i].0)
  }

  /** The queue finishes one level, `a`, before the next. */
  lemma {:induction false} WalkLevel(a: seq<Tree>, b: seq<Tree>)
    ensures Walk(a + b) == Pids(a) + Walk(b + KidsOf(a))
  {
    if a == [] {
      assert a + b == b && b + KidsOf(a) == b;
    } else {
      var rest := b + a[0].kids;
      assert (a + b)[1..] + a[0].kids == a[1..] + rest;
      WalkLevel(a[1..], rest);
      assert rest + KidsOf(a[1..]) == b + KidsOf(a);
      assert Pids(a) == [a[0].pid] + Pids(a[1..]);
    }
  }

  /** The walk is the list of levels. */
  lemma {:induction false} WalkIsLevels(ts: seq<Tree>, depth: nat)
    ensures Walk(ts) == Firsts(Levels(ts, depth))
    decreases Size(ts)
  {
    hide Levels, Firsts, Walk, Pids;
    if ts == [] {
      NothingToWalk(depth);
    } else {
      KidsAreFewer(ts);
      WalkLevel(ts, []);
      assert ts + [] == ts && [] + KidsOf(ts) == KidsOf(ts);
      FirstsSplit(ts, depth);
      WalkIsLevels(KidsOf(ts), depth + 1);
    }
  }

  lemma NothingToWalk(depth: nat)
    ensures Walk([]) == [] && Firsts(Levels([], depth)) == []
  {}

  lemma {:induction false} DepthNeverFalls(ts: seq<Tree>, depth: nat)
    ensures forall i :: 0 <= i < |Levels(ts, depth)| ==> Levels(ts, depth)[i].1 >= depth
    ensures forall i, j :: 0 <= i < j < |Levels(ts, depth)| ==> Levels(ts, depth)[i].1 <= Levels(ts, depth)[j].1
    decreases Size(ts)
  {
    if ts != [] {
      KidsAreFewer(ts);
      DepthNeverFalls(KidsOf(ts), depth + 1);
    }
  }

  /** The process is in the tree, `depth` generations below its root. */
  ghost predicate At(t: Tree, pid: int, depth: nat)
    decreases depth
  {
    if depth == 0 then t.pid == pid else exists k :: k in t.kids && At(k, pid, depth - 1)
  }

  ghost predicate AtIn(ts: seq<Tree>, pid: int, depth: nat) {
    exists t :: t in ts && At(t, pid, depth)
  }

  lemma {:induction false} KidsAreKids(ts: seq<Tree>)
    ensures forall k :: k in KidsOf(ts) <==> exists t :: t in ts && k in t.kids
  {
    if ts != [] {
      KidsAreKids(ts[1..]);
      forall k | k in ts[0].kids || k in KidsOf(ts[1..]) ensures exists t :: t in ts && k in t.kids {
        if k in ts[0].kids {
          assert ts[0] in ts;
        } else {
          var t :| t in ts[1..] && k in t.kids;
          assert t in ts;
        }
      }
    }
  }

  lemma AtOneDown(ts: seq<Tree>, pid: int, depth: nat)
    requires depth > 0
    ensures AtIn(ts, pid, depth) <==> AtIn(KidsOf(ts), pid, depth - 1)
  {
    KidsAreKids(ts);
    if AtIn(ts, pid, depth) {
      var t :| t in ts && At(t, pid, depth);
      var k :| k in t.kids && At(k, pid, depth - 1);
      assert k in KidsOf(ts);
    }
    if AtIn(KidsOf(ts), pid, depth - 1) {
      var k :| k in KidsOf(ts) && At(k, pid, depth - 1);
      var t :| t in ts && k in t.kids;
      assert At(t, pid, depth);
    }
  }

  lemma AtTheTop(ts: seq<Tree>, depth: nat, pid: int)
    ensures (pid, depth) in AtDepth(Pids(ts), depth) <==> AtIn(ts, pid, 0)
    ensures forall e :: e in AtDepth(Pids(ts), depth) ==> e.1 == depth
  {
    var here := AtDepth(Pids(ts), depth);
    if AtIn(ts, pid, 0) {
      var t :| t in ts && At(t, pid, 0);
      var i :| 0 <= i < |ts| && ts[i] == t;
      assert here[i] == (pid, depth);
    }
    if (pid, depth) in here {
      var i :| 0 <= i < |here| && here[i] == (pid, depth);
      assert ts[i] in ts && At(ts[i], pid, 0);
    }
  }

  lemma NowhereIn(pid: int, below: nat, depth: nat)
    ensures !AtIn([], pid, below) && Levels([], depth) == []
  {}

  lemma LevelsSplit(ts: seq<Tree>, depth: nat, e: (int, nat))
    requires ts != []
    ensures e in Levels(ts, depth) <==> e in AtDepth(Pids(ts), depth) || e in Levels(KidsOf(ts), depth + 1)
  {
    KidsAreFewer(ts);
  }

  lemma DeeperThan(ts: seq<Tree>, depth: nat, e: (int, nat))
    requires e in Levels(ts, depth)
    ensures e.1 >= depth
  {
    DepthNeverFalls(ts, depth);
  }

  /** The levels hold exactly the processes of the trees, each at its own depth. */
  lemma {:induction false} LevelsAreExact(ts: seq<Tree>, depth: nat, pid: int, below: nat)
    ensures (pid, depth + below) in Levels(ts, depth) <==> AtIn(ts, pid, below)
    decreases Size(ts)
  {
    hide AtIn, AtDepth, Levels, Size, KidsOf, Pids;
    if ts == [] {
      NowhereIn(pid, below, depth);
    } else {
      KidsAreFewer(ts);
      LevelsSplit(ts, depth, (pid, depth + below));
      AtTheTop(ts, depth, pid);
      if below == 0 {
        if (pid, depth) in Levels(KidsOf(ts), depth + 1) {
          DeeperThan(KidsOf(ts), depth + 1, (pid, depth));
        }
      } else {
        LevelsAreExact(KidsOf(ts), depth + 1, pid, below - 1);
        AtOneDown(ts, pid, below);
      }
    }
  }

  // ---------------------------------------------------------------- once each

  /** Every process of the trees, parents before children. */
  ghost function Everyone(ts: seq<Tree>): seq<int>
    decreases ts
  {
    if ts == [] then [] else [ts[0].pid] + Everyone(ts[0].kids) + Everyone(ts[1..])
  }

  lemma {:induction false} EveryoneConcat(a: seq<Tree>, b: seq<Tree>)
    ensures multiset(Everyone(a + b)) == multiset(Everyone(a)) + multiset(Everyone(b))
  {
    if a == [] {
      assert a + b == b;
    } else {
      assert (a + b)[1..] == a[1..] + b;
      EveryoneConcat(a[1..], b);
    }
  }

  /** The walk visits every process as often as it occurs in the trees: once each. */
  lemma {:induction false} WalkVisitsEveryone(queue: seq<Tree>)
    ensures multiset(Walk(queue)) == multiset(Everyone(queue))
    decreases Size(queue)
  {
    if queue != [] {
      SizeConcat(queue[1..], queue[0].kids);
      WalkVisitsEveryone(queue[1..] + queue[0].kids);
      EveryoneConcat(queue[1..], queue[0].kids);
    }
  }

  lemma WalkStarts(t: Tree)
    ensures Walk([t]) != [] && Walk([t])[0] == t.pid
  {}

  lemma RootIsIn(t: Tree)
    ensures forall pid, d: nat :: AtIn([t], pid, d) <==> At(t, pid, d)
  {
    assert t in [t];
  }

  /** The result for one root: its process first, then every descendant, each exactly
      as often as it occurs, and never a process before one of smaller depth. */
  lemma DescendantsAreExact(t: Tree) returns (depths: seq<nat>)
    ensures multiset(Walk([t])) == multiset(Everyone([t]))
    ensures |depths| == |Walk([t])| > 0 && Walk([t])[0] == t.pid
    ensures forall i :: 0 <= i < |depths| ==> At(t, Walk([t])[i], depths[i])
    ensures forall i, j :: 0 <= i < j < |depths| ==> depths[i] <= depths[j]
    ensures forall pid, d: nat :: At(t, pid, d) ==> exists i :: 0 <= i < |depths| && Walk([t])[i] == pid && depths[i] == d
  {
    hide Levels, Walk, Everyone, At;
    var levels := Levels([t], 0);
    WalkStarts(t);
    RootIsIn(t);
    WalkVisitsEveryone([t]);
    WalkIsLevels([t], 0);
    DepthNeverFalls([t], 0);
    depths := seq(|levels|, i requires 0 <= i < |levels| => levels[i].1);
    forall i | 0 <= i < |depths| ensures At(t, Walk([t])[i], depths[i]) {
      LevelsAreExact([t], 0, levels[i].0, levels[i].1);
      assert levels[i] in levels && levels[i] == (levels[i].0, 0 + levels[i].1);
    }
    forall pid, d: nat | At(t, pid, d) ensures exists i :: 0 <= i < |depths| && Walk([t])[i] == pid && depths[i] == d {
      LevelsAreExact([t], 0, pid, d);
      assert t in [t];
      var i :| 0 <= i < |levels| && levels[i] == (pid, d);
    }
  }

  // ---------------------------------------------------------------- forests

  ghost predicate In(t: Tree, pid: int) {
    pid in Everyone([t])
  }

  /** No process is a child twice among those of the tree: neither of two parents nor
      of one parent. Processes outside do not matter. */
  ghost predicate Forest(children: Children, t: Tree) {
    forall a, b, i, j :: In(t, a) && In(t, b) && 0 <= i < |children(a)| && 0 <= j < |children(b)| && children(a)[i] == children(b)[j] ==>
      a == b && i == j
  }

  lemma AtIsIn(t: Tree, pid: int, d: nat)
    requires At(t, pid, d)
    ensures In(t, pid)
  {
    hide Walk, Everyone, At;
    var depths := DescendantsAreExact(t);
    var i :| 0 <= i < |depths| && Walk([t])[i] == pid;
    assert pid in multiset(Walk([t]));
  }

  ghost predicate Distinct(xs: seq<int>) {
    forall i, j :: 0 <= i < j < |xs| ==> xs[i] != xs[j]
  }

  /** A process determines its subtree. */
  lemma {:induction false} SubtreeIsDetermined(children: Children, s: Tree, t: Tree)
    requires Shows(children, s) && Shows(children, t) && s.pid == t.pid
    ensures s == t
    decreases s
  {
    assert Pids(s.kids) == Pids(t.kids);
    forall i | 0 <= i < |s.kids| ensures s.kids[i] == t.kids[i] {
      assert s.kids[i].pid == Pids(s.kids)[i] == Pids(t.kids)[i];
      SubtreeIsDetermined(children, s.kids[i], t.kids[i]);
    }
    assert s.kids == t.kids;
  }

  /** No process is a proper descendant of itself. */
  lemma {:induction false} NotBelowItself(children: Children, t: Tree, s: Tree, d: nat)
    requires Shows(children, t) && Shows(children, s) && Size([s]) < Size([t])
    ensures !At(s, t.pid, d)
    decreases d
  {
    if d == 0 {
      if s.pid == t.pid {
        SubtreeIsDetermined(children, s, t);
      }
    } else {
      forall k | k in s.kids ensures !At(k, t.pid, d - 1) {
        KidIsSmaller(s, k);
        NotBelowItself(children, t, k, d - 1);
      }
    }
  }

  lemma {:induction false} SizeOfMember(ts: seq<Tree>, t: Tree)
    requires t in ts
    ensures Size([t]) <= Size(ts)
  {
    assert ts == [ts[0]] + ts[1..];
    SizeConcat([ts[0]], ts[1..]);
    if t != ts[0] {
      SizeOfMember(ts[1..], t);
    }
  }

  lemma KidIsSmaller(t: Tree, k: Tree)
    requires k in t.kids
    ensures Size([k]) < Size([t])
  {
    SizeOfMember(t.kids, k);
    assert [t][1..] == [];
  }

  /** The parent of a process below the root, with its place among the parents. */
  lemma {:induction false} ParentOf(children: Children, t: Tree, pid: int, d: nat) returns (parent: int)
    requires Shows(children, t) && d > 0 && At(t, pid, d)
    ensures At(t, parent, d - 1) && pid in children(parent)
    decreases d
  {
    var k :| k in t.kids && At(k, pid, d - 1);
    if d == 1 {
      parent := t.pid;
      var i :| 0 <= i < |t.kids| && t.kids[i] == k;
      assert children(t.pid)[i] == pid;
    } else {
      parent := ParentOf(children, k, pid, d - 1);
    }
  }

  /** In a forest a process has one depth. */
  lemma {:induction false} OneDepth(children: Children, t: Tree, pid: int, d: nat, e: nat)
    requires Forest(children, t) && Shows(children, t) && At(t, pid, d) && At(t, pid, e)
    ensures d == e
    decreases d
  {
    hide At, Shows, Forest, In;
    if d == 0 || e == 0 {
      RootOnlyAtTop(children, t, pid, d, e);
    } else {
      var p := ParentOf(children, t, pid, d);
      var q := ParentOf(children, t, pid, e);
      AtIsIn(t, p, d - 1);
      AtIsIn(t, q, e - 1);
      OneParent(children, t, p, q, pid);
      OneDepth(children, t, p, d - 1, e - 1);
    }
  }

  lemma OneParent(children: Children, root: Tree, p: int, q: int, pid: int)
    requires Forest(children, root) && In(root, p) && In(root, q) && pid in children(p) && pid in children(q)
    ensures p == q
  {
    hide In;
    var i :| 0 <= i < |children(p)| && children(p)[i] == pid;
    var j :| 0 <= j < |children(q)| && children(q)[j] == pid;
  }

  lemma RootOnlyAtTop(children: Children, t: Tree, pid: int, d: nat, e: nat)
    requires Shows(children, t) && At(t, pid, d) && At(t, pid, e) && (d == 0 || e == 0)
    ensures d == e
  {
    var deep := if d == 0 then e else d;
    if deep > 0 {
      assert t.pid == pid;
      var k :| k in t.kids && At(k, pid, deep - 1);
      KidIsSmaller(t, k);
      NotBelowItself(children, t, k, deep - 1);
    }
  }

  /** Children of different parents are different. */
  lemma KidsApart(children: Children, root: Tree, s: Tree, ts: seq<Tree>, a: Tree, b: Tree)
    requires Forest(children, root) && In(root, s.pid) && (forall x :: x in ts ==> In(root, x.pid))
    requires Shows(children, s) && ShowsAll(children, ts) && s.pid !in Pids(ts)
    requires a in s.kids && b in KidsOf(ts)
    ensures a.pid != b.pid
  {
    hide Forest, In;
    KidsAreKids(ts);
    var t :| t in ts && b in t.kids;
    var n :| 0 <= n < |ts| && ts[n] == t;
    assert Pids(ts)[n] == t.pid;
    var i :| 0 <= i < |s.kids| && s.kids[i] == a;
    var k :| 0 <= k < |t.kids| && t.kids[k] == b;
    assert children(s.pid)[i] == a.pid && children(t.pid)[k] == b.pid;
    if a.pid == b.pid {
      OneParent(children, root, s.pid, t.pid, a.pid);
    }
  }

  lemma SiblingsAreDistinct(children: Children, root: Tree, t: Tree)
    requires Forest(children, root) && In(root, t.pid) && Shows(children, t)
    ensures Distinct(Pids(t.kids))
  {
    hide In;
  }

  /** In a forest the next level has no duplicates either. */
  lemma {:induction false} KidsAreDistinct(children: Children, root: Tree, ts: seq<Tree>)
    requires Forest(children, root) && (forall x :: x in ts ==> In(root, x.pid))
    requires ShowsAll(children, ts) && Distinct(Pids(ts))
    ensures Distinct(Pids(KidsOf(ts)))
  {
    hide In, Forest;
    if ts == [] {
      assert Pids(KidsOf(ts)) == [];
    } else {
      var first, rest := ts[0].kids, KidsOf(ts[1..]);
      assert Pids(ts[1..]) == Pids(ts)[1..] && forall t :: t in ts[1..] ==> t in ts;
      KidsAreDistinct(children, root, ts[1..]);
      assert ts[0] in ts;
      SiblingsAreDistinct(children, root, ts[0]);
      assert ts[0].pid == Pids(ts)[0] && ts[0].pid !in Pids(ts)[1..];
      forall i, j | 0 <= i < |first| && 0 <= j < |rest| ensures Pids(first)[i] != Pids(rest)[j] {
        KidsApart(children, root, ts[0], ts[1..], first[i], rest[j]);
      }
      DistinctConcat(Pids(first), Pids(rest));
      assert Pids(KidsOf(ts)) == Pids(first) + Pids(rest);
    }
  }

  lemma KidsShow(children: Children, ts: seq<Tree>)
    requires ShowsAll(children, ts)
    ensures ShowsAll(children, KidsOf(ts))
  {
    KidsAreKids(ts);
  }

  /** A process of the top level does not occur below it. */
  lemma TopIsApart(children: Children, t: Tree, ts: seq<Tree>, depth: nat, i: nat, e: (int, nat))
    requires Forest(children, t) && Shows(children, t) && i < |ts| && e in Levels(KidsOf(ts), depth + 1)
    requires forall pid, d: nat :: AtIn(ts, pid, d) ==> At(t, pid, depth + d)
    ensures ts[i].pid != e.0
  {
    hide At, AtIn, Levels, KidsOf, Shows, Forest;
    DeeperThan(KidsOf(ts), depth + 1, e);
    var below := e.1 - (depth + 1);
    assert e == (e.0, depth + 1 + below);
    LevelsAreExact(KidsOf(ts), depth + 1, e.0, below);
    AtOneDown(ts, e.0, below + 1);
    RootIsAt(ts, i);
    if ts[i].pid == e.0 {
      assert At(t, e.0, depth + (below + 1)) && At(t, e.0, depth + 0);
      OneDepth(children, t, e.0, depth + 0, depth + (below + 1));
    }
  }

  lemma FirstsSplit(ts: seq<Tree>, depth: nat)
    requires ts != []
    ensures Firsts(Levels(ts, depth)) == Pids(ts) + Firsts(Levels(KidsOf(ts), depth + 1))
  {
    KidsAreFewer(ts);
  }

  lemma OneLevelDown(t: Tree, ts: seq<Tree>, depth: nat)
    requires forall pid, d: nat :: AtIn(ts, pid, d) ==> At(t, pid, depth + d)
    ensures forall pid, d: nat :: AtIn(KidsOf(ts), pid, d) ==> At(t, pid, depth + 1 + d)
  {
    hide At, AtIn, KidsOf;
    forall pid, d: nat | AtIn(KidsOf(ts), pid, d) ensures At(t, pid, depth + 1 + d) {
      AtOneDown(ts, pid, d + 1);
      assert AtIn(ts, pid, d + 1) && depth + (d + 1) == depth + 1 + d;
    }
  }

  lemma LevelIsIn(t: Tree, ts: seq<Tree>, depth: nat)
    requires forall pid, d: nat :: AtIn(ts, pid, d) ==> At(t, pid, depth + d)
    ensures forall x :: x in ts ==> In(t, x.pid)
  {
    hide At, AtIn, In;
    forall x | x in ts ensures In(t, x.pid) {
      var i :| 0 <= i < |ts| && ts[i] == x;
      RootIsAt(ts, i);
      AtIsIn(t, x.pid, depth + 0);
    }
  }

  lemma {:induction false} LevelsAreDistinct(children: Children, t: Tree, ts: seq<Tree>, depth: nat)
    requires Forest(children, t) && Shows(children, t) && ShowsAll(children, ts) && Distinct(Pids(ts))
    requires forall pid, d: nat :: AtIn(ts, pid, d) ==> At(t, pid, depth + d)
    ensures Distinct(Firsts(Levels(ts, depth)))
    decreases Size(ts)
  {
    hide At, AtIn, In, Distinct, Levels, KidsOf, Forest, Shows, Size, ShowsAll;
    if ts == [] {
      NoLevelsAreDistinct(depth);
    } else {
      KidsAreFewer(ts);
      KidsShow(children, ts);
      LevelIsIn(t, ts, depth);
      KidsAreDistinct(children, t, ts);
      OneLevelDown(t, ts, depth);
      LevelsAreDistinct(children, t, KidsOf(ts), depth + 1);
      var deeper := Levels(KidsOf(ts), depth + 1);
      forall i, j | 0 <= i < |Pids(ts)| && 0 <= j < |Firsts(deeper)| ensures Pids(ts)[i] != Firsts(deeper)[j] {
        TopIsApart(children, t, ts, depth, i, deeper[j]);
      }
      FirstsSplit(ts, depth);
      DistinctConcat(Pids(ts), Firsts(deeper));
    }
  }

  lemma NoLevelsAreDistinct(depth: nat)
    ensures Distinct(Firsts(Levels([], depth)))
  {}

  lemma RootIsAt(ts: seq<Tree>, i: nat)
    requires i < |ts|
    ensures AtIn(ts, ts[i].pid, 0)
  {
    assert ts[i] in ts && At(ts[i], ts[i].pid, 0);
  }

  lemma DistinctConcat(a: seq<int>, b: seq<int>)
    requires Distinct(a) && Distinct(b) && forall i, j :: 0 <= i < |a| && 0 <= j < |b| ==> a[i] != b[j]
    ensures Distinct(a + b)
  {}

  lemma ForestIsListedOnce(children: Children, t: Tree)
    requires Forest(children, t) && Shows(children, t)
    ensures Distinct(Walk([t]))
  {
    hide In, Forest, Walk, Levels;
    RootIsIn(t);
    assert ShowsAll(children, [t]) && Distinct(Pids([t]));
    LevelsAreDistinct(children, t, [t], 0);
    WalkIsLevels([t], 0);
  }

  /** The children of all these processes, one after the other. */
  ghost function ChildrenOf(children: Children, pids: seq<int>): seq<int> {
    if pids == [] then [] else children(pids[0]) + ChildrenOf(children, pids[1..])
  }

  lemma {:induction false} ChildrenConcat(children: Children, a: seq<int>, b: seq<int>)
    ensures ChildrenOf(children, a + b) == ChildrenOf(children, a) + ChildrenOf(children, b)
  {
    if a == [] {
      assert a + b == b;
    } else {
      assert (a + b)[1..] == a[1..] + b;
      ChildrenConcat(children, a[1..], b);
    }
  }

  /** Everyone is a root or the child of someone, occurrence by occurrence. */
  lemma {:induction false} EveryoneIsAChild(children: Children, ts: seq<Tree>)
    requires ShowsAll(children, ts)
    ensures multiset(Everyone(ts)) == multiset(Pids(ts)) + multiset(ChildrenOf(children, Everyone(ts)))
    decreases ts
  {
    hide Pids, ChildrenOf, Shows;
    if ts == [] {
      NobodyIsAChild(children);
    } else {
      KidsAreShown(children, ts[0], ts);
      assert forall t :: t in ts[1..] ==> t in ts;
      EveryoneIsAChild(children, ts[0].kids);
      EveryoneIsAChild(children, ts[1..]);
      ChildrenOfParts(children, ts[0].pid, Everyone(ts[0].kids), Everyone(ts[1..]));
      PidsStep(ts);
    }
  }

  lemma NobodyIsAChild(children: Children)
    ensures Pids([]) == [] && ChildrenOf(children, []) == []
  {}

  lemma KidsAreShown(children: Children, t: Tree, ts: seq<Tree>)
    requires ShowsAll(children, ts) && t in ts
    ensures ShowsAll(children, t.kids) && children(t.pid) == Pids(t.kids)
  {}

  lemma PidsStep(ts: seq<Tree>)
    requires ts != []
    ensures Pids(ts) == [ts[0].pid] + Pids(ts[1..])
  {}

  lemma ChildrenOfParts(children: Children, pid: int, below: seq<int>, rest: seq<int>)
    ensures ChildrenOf(children, [pid] + below + rest) == children(pid) + ChildrenOf(children, below) + ChildrenOf(children, rest)
  {
    ChildrenConcat(children, [pid] + below, rest);
    assert ([pid] + below)[1..] == below;
  }

  lemma {:induction false} ChildrenCounted(children: Children, pids: seq<int>, a: int, c: int)
    requires a in pids
    ensures multiset(ChildrenOf(children, pids))[c] >= multiset(children(a))[c]
  {
    if a != pids[0] {
      ChildrenCounted(children, pids[1..], a, c);
    }
  }

  lemma {:induction false} ChildrenOfTwoCounted(children: Children, pids: seq<int>, a: int, b: int, c: int)
    requires a in pids && b in pids && a != b
    ensures multiset(ChildrenOf(children, pids))[c] >= multiset(children(a))[c] + multiset(children(b))[c]
  {
    if a == pids[0] {
      ChildrenCounted(children, pids[1..], b, c);
    } else if b == pids[0] {
      ChildrenCounted(children, pids[1..], a, c);
    } else {
      ChildrenOfTwoCounted(children, pids[1..], a, b, c);
    }
  }

  lemma TwiceIsTwo(xs: seq<int>, i: nat, j: nat)
    requires i < j < |xs| && xs[i] == xs[j]
    ensures multiset(xs)[xs[i]] >= 2
  {
    assert xs == xs[..j] + [xs[j]] + xs[j+1..] && xs[i] == xs[..j][i];
  }

  lemma {:induction false} DistinctCounts(xs: seq<int>, c: int)
    requires Distinct(xs)
    ensures multiset(xs)[c] <= 1
  {
    if xs != [] {
      DistinctCounts(xs[1..], c);
      assert xs == [xs[0]] + xs[1..];
      if c == xs[0] {
        assert c !in xs[1..];
      }
    }
  }

  /** A child listed under two places is listed twice by the walk. */
  lemma SharedIsListedTwice(children: Children, t: Tree, a: int, b: int, i: nat, j: nat)
    requires Shows(children, t) && In(t, a) && In(t, b)
    requires i < |children(a)| && j < |children(b)| && children(a)[i] == children(b)[j] && !(a == b && i == j)
    ensures !Distinct(Walk([t]))
  {
    hide Shows, Walk, Everyone, ChildrenOf, Distinct;
    var everyone, c := Everyone([t]), children(a)[i];
    assert c in children(a) && c in children(b);
    if a == b {
      TwiceIsTwo(children(a), if i < j then i else j, if i < j then j else i);
      ChildrenCounted(children, everyone, a, c);
    } else {
      ChildrenOfTwoCounted(children, everyone, a, b, c);
    }
    EveryoneIsAChild(children, [t]);
    WalkVisitsEveryone([t]);
    if Distinct(Walk([t])) {
      DistinctCounts(Walk([t]), c);
    }
  }

  /** The walk lists every process once exactly if, among the processes of the tree,
      none is a child twice. */
  lemma DescendantsAreDistinct(children: Children, t: Tree)
    requires Shows(children, t)
    ensures Distinct(Walk([t])) <==> Forest(children, t)
  {
    hide Shows, Walk, Distinct, In;
    if Forest(children, t) {
      ForestIsListedOnce(children, t);
    } else {
      var a, b, i, j :| In(t, a) && In(t, b) && 0 <= i < |children(a)| && 0 <= j < |children(b)| && children(a)[i] == children(b)[j] && !(a == b && i == j);
      SharedIsListedTwice(children, t, a, b, i, j);
    }
  }

  lemma WalkStep(t: Tree, rest: seq<Tree>)
    ensures Walk([t] + rest) == [t.pid] + Walk(rest + t.kids)
  {
    assert ([t] + rest)[1..] == rest;
  }

  /** Two processes that share a child. */
  function Sharing(pid: int): seq<int> {
    if pid == 1 then [2, 3] else if pid == 2 || pid == 3 then [4] else []
  }

  const LEAF := Node(4, [])
  const SHARED_TREE := Node(1, [Node(2, [LEAF]), Node(3, [LEAF])])

  lemma SharedTreeIsShown()
    ensures Shows(Sharing, SHARED_TREE)
  {
    assert Shows(Sharing, LEAF);
    assert Shows(Sharing, Node(2, [LEAF])) && Shows(Sharing, Node(3, [LEAF]));
  }

  lemma SharedTreeIsWalked()
    ensures Walk([SHARED_TREE]) == [1, 2, 3, 4, 4]
  {
    hide Walk;
    var two, three := Node(2, [LEAF]), Node(3, [LEAF]);
    WalkStep(SHARED_TREE, []);
    assert [SHARED_TREE] + [] == [SHARED_TREE] && [] + SHARED_TREE.kids == [two] + [three];
    WalkStep(two, [three]);
    assert [three] + two.kids == [three] + [LEAF];
    WalkStep(three, [LEAF]);
    assert [LEAF] + three.kids == [LEAF] + [LEAF];
    WalkStep(LEAF, [LEAF]);
    assert [LEAF] + LEAF.kids == [LEAF] + [] == [LEAF];
    WalkStep(LEAF, []);
    assert [] + LEAF.kids == [];
    NothingToWalk(0);
  }

  /** A snapshot in which the walk lists a process twice. */
  lemma SharedChildIsListedTwice()
    ensures Shows(Sharing, SHARED_TREE) && Walk([SHARED_TREE]) == [1, 2, 3, 4, 4]
    ensures !Distinct(Walk([SHARED_TREE])) && !Forest(Sharing, SHARED_TREE)
  {
    hide Walk, Shows, Forest, In;
    SharedTreeIsShown();
    SharedTreeIsWalked();
    assert Walk([SHARED_TREE])[3] == Walk([SHARED_TREE])[4];
    DescendantsAreDistinct(Sharing, SHARED_TREE);
  }

  // ---------------------------------------------------------------- several roots

  /** [...new Set(xs)] */
  function Dedup(xs: seq<int>): (r: seq<int>)
    ensures forall x :: x in r <==> x in xs
    ensures forall i, j :: 0 <= i < j < |r| ==> r[i] != r[j]
  {
    if xs == [] then []
    else
      var prior, last := Dedup(xs[..|xs|-1]), xs[|xs|-1];
      assert xs == xs[..|xs|-1] + [last];
      if last in prior then prior else prior + [last]
  }

  /** The process tree of all daemons, whose trees may contain one another: each
      reachable process once. */
  method CollectPids(children: Children, roots: seq<int>, ghost ts: seq<Tree>) returns (pids: seq<int>)
    requires Pids(ts) == roots && ShowsAll(children, ts)
    ensures forall i, j :: 0 <= i < j < |pids| ==> pids[i] != pids[j]
    ensures forall pid :: pid in pids <==> exists d: nat :: AtIn(ts, pid, d)
  {
    pids := [];
    for i := 0 to |roots|
      invariant forall pid :: pid in pids <==> exists k :: 0 <= k < i && pid in Walk([ts[k]])
    {
      assert ts[i] in ts;
      var descendants := GetAllDescendantPids(children, roots[i], ts[i]);
      pids := pids + descendants;
    }
    pids := Dedup(pids);
    forall pid ensures pid in pids <==> exists d: nat :: AtIn(ts, pid, d) {
      ReachedFromRoots(ts, pid);
    }
  }

  lemma ReachedFromRoots(ts: seq<Tree>, pid: int)
    ensures (exists k :: 0 <= k < |ts| && pid in Walk([ts[k]])) <==> (exists d: nat :: AtIn(ts, pid, d))
  {
    forall k | 0 <= k < |ts| && pid in Walk([ts[k]]) ensures exists d: nat :: AtIn(ts, pid, d) {
      var depths := DescendantsAreExact(ts[k]);
      var i :| 0 <= i < |depths| && Walk([ts[k]])[i] == pid;
      assert ts[k] in ts && AtIn(ts, pid, depths[i]);
    }
    forall d: nat | AtIn(ts, pid, d) ensures exists k :: 0 <= k < |ts| && pid in Walk([ts[k]]) {
      var t :| t in ts && At(t, pid, d);
      var k :| 0 <= k < |ts| && ts[k] == t;
      var depths := DescendantsAreExact(t);
    }
  }
}
