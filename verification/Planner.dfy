/** Repairing blobs with too few replicas and pruning blobs with too many. */
module Planner {
  import opened Options
  import opened Ownership

  datatype Node = Node(name: NodeId, free: int)

  datatype Task = Acquire(node: NodeId, oid: string) | Remove(node: NodeId, oid: string)

  function Names(nl: seq<Node>): set<NodeId> {
    set n | n in nl :: n.name
  }

  predicate Distinct(nl: seq<Node>) {
    forall i, j :: 0 <= i < j < |nl| ==> nl[i].name != nl[j].name
  }

  /** The nodes of `nl`, in order, that satisfy `keep`. */
  function Select(nl: seq<Node>, keep: Node -> bool): seq<Node> {
    if nl == [] then []
    else
      var n := nl[|nl| - 1];
      Select(nl[..|nl| - 1], keep) + if keep(n) then [n] else []
  }

  lemma {:induction false} SelectIff(nl: seq<Node>, keep: Node -> bool, n: Node)
    ensures n in Select(nl, keep) <==> n in nl && keep(n)
  {
    if nl == [] {
    } else {
      SelectIff(nl[..|nl| - 1], keep, n);
      assert nl == nl[..|nl| - 1] + [nl[|nl| - 1]];
    }
  }

  /** The order of the list is kept: what is selected from a longer list only adds at the end. */
  lemma {:induction false} SelectAppend(a: seq<Node>, b: seq<Node>, keep: Node -> bool)
    ensures Select(a + b, keep) == Select(a, keep) + Select(b, keep)
    decreases |b|
  {
    if b == [] {
      assert a + b == a;
    } else {
      var n := |b| - 1;
      assert (a + b)[..|a + b| - 1] == a + b[..n];
      SelectAppend(a, b[..n], keep);
    }
  }

  lemma {:induction false} SelectDistinct(nl: seq<Node>, keep: Node -> bool)
    requires Distinct(nl)
    ensures Distinct(Select(nl, keep))
  {
    if nl == [] {
    } else {
      var init, last := nl[..|nl| - 1], nl[|nl| - 1];
      SelectDistinct(init, keep);
      forall i | 0 <= i < |Select(init, keep)|
        ensures Select(init, keep)[i].name != last.name
      {
        SelectIff(init, keep, Select(init, keep)[i]);
      }
    }
  }

  /** The nodes of `nl` whose name does not occur in `other`. */
  method Minus(nl: seq<Node>, other: seq<Node>) returns (rv: seq<Node>)
    ensures rv == Select(nl, (n: Node) => n.name !in Names(other))
  {
    rv := [];
    for i := 0 to |nl|
      invariant rv == Select(nl[..i], (n: Node) => n.name !in Names(other))
    {
      var found := false;
      for j := 0 to |other|
        invariant found <==> exists k :: 0 <= k < j && other[k].name == nl[i].name
      {
        if other[j].name == nl[i].name {
          found := true;
        }
      }
      assert nl[..i + 1][..i] == nl[..i];
      if !found {
        rv := rv + [nl[i]];
      }
    }
    assert nl[..|nl|] == nl;
  }

  method WithAtLeast(nl: seq<Node>, free: int) returns (rv: seq<Node>)
    ensures rv == Select(nl, (n: Node) => n.free > free)
  {
    rv := [];
    for i := 0 to |nl|
      invariant rv == Select(nl[..i], (n: Node) => n.free > free)
    {
      assert nl[..i + 1][..i] == nl[..i];
      if nl[i].free > free {
        rv := rv + [nl[i]];
      }
    }
    assert nl[..|nl|] == nl;
  }

  /** The owners that have a node document, in no particular order. */
  method ResolveNodes(owners: set<NodeId>, docs: map<NodeId, Node>) returns (rv: seq<Node>)
    requires forall k :: k in docs ==> docs[k].name == k
    ensures Names(rv) == owners * docs.Keys
  {
    rv := [];
    var left := owners;
    while left != {}
      invariant left <= owners
      invariant Names(rv) == (owners - left) * docs.Keys
      decreases left
    {
      var k :| k in left;
      if k in docs {
        assert Names(rv + [docs[k]]) == Names(rv) + {k};
        rv := rv + [docs[k]];
      }
      left := left - {k};
    }
  }

  /** Nodes worth asking for a copy: those that do not own the blob and have more room than it
      needs.  Without a record, everybody. */
  method CandidatesFor(nl: seq<Node>, record: Option<Blob>, docs: map<NodeId, Node>) returns (rv: seq<Node>)
    requires forall k :: k in docs ==> docs[k].name == k
    requires Names(nl) <= docs.Keys
    requires Distinct(nl)
    ensures record.None? ==> rv == nl
    ensures record.Some? ==>
              forall n :: n in rv <==> n in nl && n.name !in record.value.nodes && n.free > record.value.length
    ensures Distinct(rv)
  {
    if record.None? {
      return nl;
    }
    var owners := ResolveNodes(record.value.nodes.Keys, docs);
    var strangers := Minus(nl, owners);
    rv := WithAtLeast(strangers, record.value.length);
    SelectDistinct(nl, (n: Node) => n.name !in Names(owners));
    SelectDistinct(strangers, (n: Node) => n.free > record.value.length);
    forall n
      ensures n in rv <==> n in nl && n.name !in record.value.nodes && n.free > record.value.length
    {
      SelectIff(strangers, (n: Node) => n.free > record.value.length, n);
      SelectIff(nl, (n: Node) => n.name !in Names(owners), n);
      assert n in nl ==> n.name in Names(nl);
    }
  }

  /** How many of `n` candidates a salvage addresses. */
  function Addressed(todo: int, n: nat): nat {
    if 1 <= todo <= n then todo else n
  }

  /** The requests that reach the queue when the first `m` candidates are asked; `room` says,
      request by request, whether the queue had room. */
  function Requests(oid: string, candidates: seq<Node>, room: nat -> bool, m: nat): seq<Task>
    requires m <= |candidates|
  {
    if m == 0 then []
    else
      Requests(oid, candidates, room, m - 1) + if room(m - 1) then [Acquire(candidates[m - 1].name, oid)] else []
  }

  lemma {:induction false} RequestsIff(oid: string, candidates: seq<Node>, room: nat -> bool, m: nat, t: Task)
    requires m <= |candidates|
    ensures t in Requests(oid, candidates, room, m) <==>
              exists i :: 0 <= i < m && room(i) && t == Acquire(candidates[i].name, oid)
  {
    if m == 0 {
    } else {
      RequestsIff(oid, candidates, room, m - 1, t);
    }
  }

  lemma {:induction false} RequestsCount(oid: string, candidates: seq<Node>, room: nat -> bool, m: nat)
    requires m <= |candidates| && Distinct(candidates)
    ensures |Requests(oid, candidates, room, m)| <= m
    ensures (forall i :: 0 <= i < m ==> room(i)) ==> |Requests(oid, candidates, room, m)| == m
    ensures OnceEach(Requests(oid, candidates, room, m))
  {
    if m == 0 {
    } else {
      RequestsCount(oid, candidates, room, m - 1);
      var init := Requests(oid, candidates, room, m - 1);
      forall k | 0 <= k < |init|
        ensures init[k].node != candidates[m - 1].name
      {
        RequestsIff(oid, candidates, room, m - 1, init[k]);
      }
    }
  }

  /** Asks candidates for a copy until enough have been asked.  `ok` is false if any request was
      lost because the queue was full. */
  method SalvageBlob(oid: string, todo: int, candidates: seq<Node>, room: nat -> bool)
      returns (asked: seq<Task>, ok: bool)
    ensures asked == Requests(oid, candidates, room, Addressed(todo, |candidates|))
    ensures ok <==> forall k :: 0 <= k < Addressed(todo, |candidates|) ==> room(k)
  {
    asked, ok := [], true;
    var left := todo;
    var i := 0;
    while i < |candidates|
      invariant 0 <= i <= |candidates| && left == todo - i
      invariant 1 <= todo ==> i < todo
      invariant ok <==> forall k :: 0 <= k < i ==> room(k)
      invariant asked == Requests(oid, candidates, room, i)
    {
      var worked := room(i);
      if worked {
        asked := asked + [Acquire(candidates[i].name, oid)];
      }
      ok := ok && worked;
      left := left - 1;
      i := i + 1;
      if left == 0 {
        break;
      }
    }
  }

  /** Which replica counts a repair pass looks at. */
  function RepairLimit(min: int, nodes: nat): int {
    if min > nodes then nodes - 1 else min - 1
  }

  predicate NeedsRepair(min: int, nodes: nat, count: nat) {
    1 <= count <= RepairLimit(min, nodes)
  }

  predicate NeedsPruning(max: int, count: nat) {
    max + 1 <= count
  }

  /** A blob is repaired when it has some replicas, fewer than the minimum and fewer than there are nodes; it is
      pruned when it has more than the maximum. */
  lemma DueIff(min: int, max: int, nodes: nat, count: nat)
    ensures NeedsRepair(min, nodes, count) <==> 1 <= count && count < min && count < nodes
    ensures NeedsPruning(max, count) <==> count > max
  {
  }

  function Targets(tasks: seq<Task>): set<NodeId> {
    set t | t in tasks :: t.node
  }

  /** No node is asked twice. */
  predicate OnceEach(tasks: seq<Task>) {
    forall i, j :: 0 <= i < j < |tasks| ==> tasks[i].node != tasks[j].node
  }

  lemma {:induction false} OnceEachCount(tasks: seq<Task>)
    requires OnceEach(tasks)
    ensures |Targets(tasks)| == |tasks|
  {
    if tasks == [] {
    } else {
      var init, last := tasks[..|tasks| - 1], tasks[|tasks| - 1];
      OnceEachCount(init);
      assert Targets(tasks) == Targets(init) + {last.node};
    }
  }

  /** The part of a repair pass that deals with one blob that the view reports as short of
      replicas. */
  method Repair(oid: string, b: Blob, nl: seq<Node>, docs: map<NodeId, Node>, min: int, room: nat -> bool)
      returns (asked: seq<Task>, ok: bool)
    requires forall k :: k in docs ==> docs[k].name == k
    requires Names(nl) <= docs.Keys && Distinct(nl)
    requires NeedsRepair(min, |nl|, |b.nodes|)
    ensures forall t :: t in asked ==> t.Acquire? && t.oid == oid && t.node !in b.nodes
    ensures forall t :: t in asked ==> exists n :: n in nl && n.name == t.node && n.free > b.length
    ensures OnceEach(asked)
    ensures |b.nodes.Keys + Targets(asked)| <= min
    ensures ok && |b.nodes.Keys + Targets(asked)| < min ==>
              forall n :: n in nl && n.free > b.length ==> n.name in b.nodes.Keys + Targets(asked)
  {
    var candidates := CandidatesFor(nl, Some(b), docs);
    var todo := min - |b.nodes|;
    asked, ok := SalvageBlob(oid, todo, candidates, room);
    RepairTargets(oid, b, nl, candidates, room, min, asked);
    if ok && |b.nodes| + |asked| < min {
      RepairExhausts(oid, b, nl, candidates, room, min, asked);
    }
  }

  /** Whom a repair asks: nodes that can take the blob, each once, and no more than are missing. */
  lemma RepairTargets(oid: string, b: Blob, nl: seq<Node>, candidates: seq<Node>, room: nat -> bool, min: int,
                       asked: seq<Task>)
    requires Distinct(candidates) && |b.nodes| < min
    requires forall n :: n in candidates <==> n in nl && n.name !in b.nodes && n.free > b.length
    requires asked == Requests(oid, candidates, room, Addressed(min - |b.nodes|, |candidates|))
    ensures forall t :: t in asked ==> t.Acquire? && t.oid == oid && t.node !in b.nodes
    ensures forall t :: t in asked ==> exists n :: n in nl && n.name == t.node && n.free > b.length
    ensures OnceEach(asked)
    ensures |b.nodes.Keys + Targets(asked)| == |b.nodes| + |asked| <= min
  {
    var m := Addressed(min - |b.nodes|, |candidates|);
    forall t | t in asked
      ensures t.Acquire? && t.oid == oid && t.node !in b.nodes
      ensures exists n :: n in nl && n.name == t.node && n.free > b.length
    {
      RequestsIff(oid, candidates, room, m, t);
      var i :| 0 <= i < m && room(i) && t == Acquire(candidates[i].name, oid);
      assert candidates[i] in candidates;
    }
    RequestsCount(oid, candidates, room, m);
    OnceEachCount(asked);
    assert b.nodes.Keys !! Targets(asked);
  }

  /** If no request was lost and the blob still falls short, every node with room has it or was asked. */
  lemma RepairExhausts(oid: string, b: Blob, nl: seq<Node>, candidates: seq<Node>, room: nat -> bool, min: int,
                       asked: seq<Task>)
    requires Distinct(candidates) && |b.nodes| < min
    requires forall n :: n in candidates <==> n in nl && n.name !in b.nodes && n.free > b.length
    requires asked == Requests(oid, candidates, room, Addressed(min - |b.nodes|, |candidates|))
    requires forall k :: 0 <= k < Addressed(min - |b.nodes|, |candidates|) ==> room(k)
    requires |b.nodes| + |asked| < min
    ensures forall n :: n in nl && n.free > b.length ==> n.name in b.nodes.Keys + Targets(asked)
  {
    var m := Addressed(min - |b.nodes|, |candidates|);
    RequestsCount(oid, candidates, room, m);
    forall n | n in nl && n.free > b.length && n.name !in b.nodes
      ensures n.name in Targets(asked)
    {
      var i :| 0 <= i < |candidates| && candidates[i] == n;
      RequestsIff(oid, candidates, room, m, Acquire(n.name, oid));
      assert Acquire(n.name, oid) in asked;
    }
  }

  lemma CountSubset<T>(a: set<T>, b: set<T>)
    requires a <= b
    ensures |a| <= |b|
  {
    assert b == a + (b - a);
  }

  lemma AskAnother(asked: seq<Task>, t: Task)
    requires OnceEach(asked) && t.node !in Targets(asked)
    ensures OnceEach(asked + [t])
    ensures Targets(asked + [t]) == Targets(asked) + {t.node}
  {
  }

  predicate AllRemovals(asked: seq<Task>, oid: string) {
    forall t :: t in asked ==> t.Remove? && t.oid == oid
  }

  /** Pruning has passed over all owners but those in `left`. */
  predicate PassedOver(oid: string, owners: set<NodeId>, left: set<NodeId>, reachable: set<NodeId>, asked: seq<Task>) {
    && left <= owners
    && Targets(asked) == (owners - left) * reachable
    && AllRemovals(asked, oid)
    && OnceEach(asked)
  }

  lemma OverOne(owners: set<NodeId>, left: set<NodeId>, reachable: set<NodeId>, n: NodeId)
    requires n in left && left <= owners
    ensures (owners - (left - {n})) * reachable == (owners - left) * reachable + if n in reachable then {n} else {}
  {
  }

  lemma PassOver(oid: string, owners: set<NodeId>, left: set<NodeId>, reachable: set<NodeId>, asked: seq<Task>,
                 n: NodeId)
    requires PassedOver(oid, owners, left, reachable, asked) && n in left
    ensures PassedOver(oid, owners, left - {n}, reachable, if n in reachable then asked + [Remove(n, oid)] else asked)
  {
    OverOne(owners, left, reachable, n);
    if n in reachable {
      AskAnother(asked, Remove(n, oid));
    }
  }

  /** Asks owners of an over-replicated blob to drop it.  Owners come in no particular order; one
      that is not in the node list is counted but cannot be asked. */
  method PruneBlob(oid: string, owners: set<NodeId>, nl: seq<Node>, max: int) returns (asked: seq<Task>)
    ensures AllRemovals(asked, oid)
    ensures Targets(asked) <= owners * Names(nl)
    ensures OnceEach(asked)
    ensures |owners| > max ==> |owners - Targets(asked)| >= max
    ensures |owners| <= max ==> asked == []
    ensures owners <= Names(nl) && 0 <= max <= |owners| ==> |owners - Targets(asked)| == max
  {
    asked := [];
    var nm := Names(nl);
    var remaining := |owners|;
    var left := owners;
    while left != {} && remaining > max
      invariant PassedOver(oid, owners, left, nm, asked)
      invariant remaining == |left|
      invariant |owners| > max ==> remaining >= max
      invariant |owners| <= max ==> left == owners && asked == []
      decreases left
    {
      var n :| n in left;
      remaining := remaining - 1;
      PassOver(oid, owners, left, nm, asked, n);
      if n in nm {
        asked := asked + [Remove(n, oid)];
      }
      left := left - {n};
    }
    PruneLeaves(owners, left, Targets(asked), nm);
  }

  /** Owners that were not passed over stay, and only they if everybody passed over was asked. */
  lemma PruneLeaves(owners: set<NodeId>, left: set<NodeId>, asked: set<NodeId>, reachable: set<NodeId>)
    requires left <= owners && asked == (owners - left) * reachable
    ensures asked <= owners * reachable
    ensures |left| <= |owners - asked|
    ensures owners <= reachable ==> |owners - asked| == |left|
  {
    CountSubset(left, owners - asked);
    if owners <= reachable {
      assert owners - asked == left;
    }
  }

  /** Carrying out any part of a repair never makes a blob ready for pruning, and carrying out any
      part of a pruning never makes it ready for repair. */
  lemma RepairAndPruneAgree(min: int, max: int, nodes: nat, owners: set<NodeId>, planned: set<NodeId>,
                            done: set<NodeId>)
    requires 1 <= min <= max && done <= planned
    ensures |owners + planned| <= min ==> !NeedsPruning(max, |owners + done|)
    ensures |owners - planned| >= max ==> !NeedsRepair(min, nodes, |owners - done|)
  {
    CountSubset(owners + done, owners + planned);
    CountSubset(owners - planned, owners - done);
  }
}
