/** Whether the nodes listed as owners of a blob have it on disk.

A node that stores the blob puts the file in place first and then records itself;
a node that removes it takes itself off the record first and then deletes the file.
Nodes run in parallel, and any number of references, marks and unguarded removals
by others interleave with them.

Putting a file in place is a rename; when it fails, for instance because the temporary
file has been cleaned away, the present file is deleted before the rename is repeated.
An error of the bucket during a removal is not noticed, and the file is deleted anyway.
*/
module Disks {
  import opened Options
  import opened Cas
  import opened Ownership

  /** `serial`: a node works on the blob with one activity at a time.  `sturdy`: a first rename
      does not fail while the node has the file.  `reliable`: the bucket makes no errors. */
  datatype Regime = Regime(min: int, serial: bool, sturdy: bool, reliable: bool)

  datatype Kind = Store | Replace | Verify | Remove | ForceRemove

  datatype Phase = Storing | Replacing | Releasing | Forcing | Erasing {
    predicate Updates() {
      !Replacing? && !Erasing?
    }
  }

  datatype Activity = Activity(node: NodeId, phase: Phase)

  /** An activity and the update it has in flight share their number. */
  datatype World = World(store: State<Op, Blob>, disk: set<NodeId>, acts: map<nat, Activity>)

  datatype Action =
    | Wait(elapsed: nat)
    | Foreign(id: nat, op: Op)
    | Start(id: nat, node: NodeId, kind: Kind)
    | RenameAgain(id: nat, ok: bool)
    | Attempt(id: nat, length: int, force: bool)
    | Evaluate(id: nat)
    | Finish(id: nat)
    | Lose(id: nat)                                // the bucket fails instead of finishing
    | Erase(id: nat)

  function Own(act: Activity, length: int, force: bool): Op
    requires act.phase.Updates()
  {
    match act.phase
    case Storing => Record(act.node, length, force)
    case Releasing => Release(act.node)
    case Forcing => Drop(act.node, act.node)
  }

  predicate Idle(w: World, node: NodeId) {
    forall id :: id in w.acts ==> w.acts[id].node != node
  }

  ghost function Via(min: int, w: World, e: Event<Op>): World {
    w.(store := Cas.Next(Rules(min), w.store, e))
  }

  function AfterAttempt(act: Activity, decision: Decision<Blob>): Option<Activity> {
    match act.phase
    case Releasing =>
      if decision.Cancel? && decision.why != NoError then None else Some(act.(phase := Erasing))
    case Forcing => Some(act.(phase := Erasing))
    case _ => None
  }

  /** The error reaches a storing activity only. */
  function AfterError(act: Activity): Option<Activity> {
    if act.phase.Storing? then None else Some(act.(phase := Erasing))
  }

  function Proceed(acts: map<nat, Activity>, id: nat, next: Option<Activity>): map<nat, Activity> {
    match next
    case None => acts - {id}
    case Some(act) => acts[id := act]
  }

  ghost function Begin(r: Regime, w: World, id: nat, node: NodeId, kind: Kind): World {
    match kind
    case Store => w.(disk := w.disk + {node}, acts := w.acts[id := Activity(node, Storing)])
    case Replace =>
      if r.sturdy && node in w.disk then w
      else w.(disk := w.disk - {node}, acts := w.acts[id := Activity(node, Replacing)])
    case Verify => if node in w.disk then w.(acts := w.acts[id := Activity(node, Storing)]) else w
    case Remove => w.(acts := w.acts[id := Activity(node, Releasing)])
    case ForceRemove => w.(acts := w.acts[id := Activity(node, Forcing)])
  }

  ghost function Next(r: Regime, w: World, a: Action): World {
    match a
    case Wait(elapsed) => Via(r.min, w, Tick(elapsed))
    case Foreign(id, op) =>
      if id !in w.acts && (op.Reference? || op.MarkGarbage? || op.Drop?) then Via(r.min, w, Read(id, op)) else w
    case Start(id, node, kind) =>
      if id in w.acts || id in w.store.flights || (r.serial && !Idle(w, node)) then w
      else Begin(r, w, id, node, kind)
    case RenameAgain(id, ok) =>
      if id !in w.acts || !w.acts[id].phase.Replacing? then w
      else if ok then w.(disk := w.disk + {w.acts[id].node}, acts := w.acts[id := w.acts[id].(phase := Storing)])
      else w.(acts := w.acts - {id})
    case Attempt(id, length, force) =>
      if id in w.acts && w.acts[id].phase.Updates() && id !in w.store.flights
      then Via(r.min, w, Read(id, Own(w.acts[id], length, force))) else w
    case Evaluate(id) => Via(r.min, w, Compute(id))
    case Finish(id) =>
      var v := Via(r.min, w, Commit(id));
      if id in w.acts && id in w.store.flights && w.store.flights[id].Ready?
         && (Wins(w.store, id) || w.store.flights[id].decision.Cancel?)
      then v.(acts := Proceed(w.acts, id, AfterAttempt(w.acts[id], w.store.flights[id].decision)))
      else v
    case Lose(id) =>
      if !r.reliable && id in w.acts && id in w.store.flights
         && !(w.store.flights[id].Ready? && w.store.flights[id].decision.Cancel?)
      then w.(store := w.store.(flights := w.store.flights - {id}), acts := Proceed(w.acts, id, AfterError(w.acts[id])))
      else w
    case Erase(id) =>
      if id in w.acts && w.acts[id].phase.Erasing?
      then w.(disk := w.disk - {w.acts[id].node}, acts := w.acts - {id}) else w
  }

  ghost function Run(r: Regime, w: World, actions: seq<Action>): World
    decreases |actions|
  {
    if actions == [] then w else Run(r, Next(r, w, actions[0]), actions[1..])
  }

  ghost predicate Initial(w: World) {
    Cas.Initial(w.store) && w.store.doc == None && w.disk == {} && w.acts == map[]
  }

  ghost predicate OwnersHold(w: World) {
    Owners(w.store.doc) <= w.disk
  }

  ghost predicate HoldAlways(r: Regime) {
    forall w, actions :: Initial(w) ==> OwnersHold(Run(r, w, actions))
  }

  /** An update in flight belongs to the activity of the same number, if there is one. */
  ghost predicate FlightOk(w: World, id: nat)
    requires id in w.store.flights
  {
    var f := w.store.flights[id];
    && ((f.op.Record? || f.op.Release?) ==> id in w.acts)
    && (id in w.acts ==>
          && w.acts[id].phase.Updates()
          && (exists length, force :: f.op == Own(w.acts[id], length, force))
          && (f.seen.None? && !w.acts[id].phase.Storing? ==> w.acts[id].node !in Owners(w.store.doc)))
  }

  ghost predicate ActOk(w: World, id: nat)
    requires id in w.acts
  {
    && (w.acts[id].phase.Storing? ==> w.acts[id].node in w.disk)
    && (w.acts[id].phase.Erasing? ==> w.acts[id].node !in Owners(w.store.doc))
  }

  ghost predicate Inv(min: int, w: World) {
    && Coherent(Rules(min), w.store)
    && OwnersHold(w)
    && (forall i, j :: i in w.acts && j in w.acts && w.acts[i].node == w.acts[j].node ==> i == j)
    && (forall id :: id in w.acts ==> ActOk(w, id))
    && (forall id :: id in w.store.flights ==> FlightOk(w, id))
  }

  /** What an accepted update does to the set of owners. */
  lemma OwnersAfter(min: int, op: Op, now: nat, doc: Option<Blob>)
    ensures var after := Owners(After(min, op, now, doc));
            && after <= Owners(doc) + (if op.Record? then {op.me} else {})
            && (op.Drop? ==> op.node !in after)
            && (op.Release? && (!Decide(min, op, now, doc).Cancel? || doc.None?) ==> op.me !in after)
  {
  }

  predicate Ideal(r: Regime) {
    r.serial && r.sturdy && r.reliable
  }

  /** An attempt that ends adds only the node of a storing activity to the owners, and an activity
      goes on to erase only a node that is no longer an owner. */
  lemma FinishOwners(r: Regime, w: World, id: nat)
    requires Coherent(Rules(r.min), w.store)
    requires id in w.acts ==> ActOk(w, id)
    requires id in w.store.flights ==> FlightOk(w, id)
    ensures var v := Next(r, w, Finish(id));
            && (forall n :: n in Owners(v.store.doc) && n !in Owners(w.store.doc) ==>
                  id in w.acts && w.acts[id] == Activity(n, Storing))
            && (id in v.acts && v.acts[id].phase.Erasing? ==> v.acts[id].node !in Owners(v.store.doc))
  {
    if id in w.store.flights {
      var f := w.store.flights[id];
      if Wins(w.store, id) {
        GuardHoldsAtCommit(Rules(r.min), w.store, id);
        OwnersAfter(r.min, f.op, f.at, w.store.doc);
      } else {
        assert FlightCoherent(Rules(r.min), w.store, f);
      }
    }
  }

  lemma InvFinish(r: Regime, w: World, id: nat)
    requires Inv(r.min, w)
    ensures Inv(r.min, Next(r, w, Finish(id)))
  {
    var v := Next(r, w, Finish(id));
    CoherentNext(Rules(r.min), w.store, Commit(id));
    FinishOwners(r, w, id);
    if id in w.acts { assert ActOk(w, id); }
    forall i | i in v.acts
      ensures ActOk(v, i)
    {
      assert ActOk(w, i);
    }
    forall i | i in v.store.flights
      ensures FlightOk(v, i)
    {
      assert FlightOk(w, i);
    }
  }

  lemma InvStart(r: Regime, w: World, id: nat, node: NodeId, kind: Kind)
    requires Ideal(r) && Inv(r.min, w)
    ensures Inv(r.min, Next(r, w, Start(id, node, kind)))
  {
    var v := Next(r, w, Start(id, node, kind));
    forall i | i in v.acts
      ensures ActOk(v, i)
    {
      if i in w.acts { assert ActOk(w, i); }
    }
    forall i | i in v.store.flights
      ensures FlightOk(v, i)
    {
      assert FlightOk(w, i);
    }
  }

  /** The file steps of an activity under way. */
  lemma InvOnDisk(r: Regime, w: World, a: Action)
    requires Inv(r.min, w)
    requires a.RenameAgain? || a.Erase?
    ensures Inv(r.min, Next(r, w, a))
  {
    var v := Next(r, w, a);
    if a.id in w.acts { assert ActOk(w, a.id); }
    forall i | i in v.acts
      ensures ActOk(v, i)
    {
      assert ActOk(w, i);
    }
    forall i | i in v.store.flights
      ensures FlightOk(v, i)
    {
      assert FlightOk(w, i);
    }
  }

  /** Time passing, reads and computations. */
  lemma InvVia(min: int, w: World, e: Event<Op>)
    requires Inv(min, w)
    requires !e.Commit?
    requires e.Read? && e.id in w.acts ==>
               && w.acts[e.id].phase.Updates()
               && exists length, force :: e.op == Own(w.acts[e.id], length, force)
    requires e.Read? && e.id !in w.acts ==> !e.op.Record? && !e.op.Release?
    ensures Inv(min, Via(min, w, e))
  {
    var v := Via(min, w, e);
    CoherentNext(Rules(min), w.store, e);
    assert forall i :: i in v.acts ==> ActOk(w, i) && ActOk(v, i);
    forall i | i in v.store.flights
      ensures FlightOk(v, i)
    {
      if i in w.store.flights {
        assert FlightOk(w, i);
      }
    }
  }

  lemma InvNext(r: Regime, w: World, a: Action)
    requires Ideal(r) && Inv(r.min, w)
    ensures Inv(r.min, Next(r, w, a))
  {
    match a {
      case Wait(elapsed) => InvVia(r.min, w, Tick(elapsed));
      case Foreign(id, op) =>
        if id !in w.acts && (op.Reference? || op.MarkGarbage? || op.Drop?) { InvVia(r.min, w, Read(id, op)); }
      case Start(id, node, kind) => InvStart(r, w, id, node, kind);
      case Attempt(id, length, force) =>
        if id in w.acts && w.acts[id].phase.Updates() && id !in w.store.flights {
          InvVia(r.min, w, Read(id, Own(w.acts[id], length, force)));
        }
      case Evaluate(id) => InvVia(r.min, w, Compute(id));
      case Finish(id) => InvFinish(r, w, id);
      case Lose(_) =>
      case RenameAgain(_, _) => InvOnDisk(r, w, a);
      case Erase(_) => InvOnDisk(r, w, a);
    }
  }

  lemma {:induction false} InvRun(r: Regime, w: World, actions: seq<Action>)
    requires Ideal(r) && Inv(r.min, w)
    ensures Inv(r.min, Run(r, w, actions))
    decreases |actions|
  {
    if actions == [] {
    } else {
      InvNext(r, w, actions[0]);
      InvRun(r, Next(r, w, actions[0]), actions[1..]);
    }
  }

  lemma {:induction false} RunAppend(r: Regime, w: World, actions: seq<Action>, a: Action)
    ensures Run(r, w, actions + [a]) == Next(r, Run(r, w, actions), a)
    decreases |actions|
  {
    if actions == [] {
      assert ([] + [a])[1..] == [];
    } else {
      assert (actions + [a])[1..] == actions[1..] + [a];
      RunAppend(r, Next(r, w, actions[0]), actions[1..], a);
    }
  }

  const EMPTY: World := World(State(0, 0, None, 0, map[]), {}, map[])

  /** A run, one action longer. */
  lemma Extend(r: Regime, actions: seq<Action>, w: World, a: Action) returns (more: seq<Action>, v: World)
    requires Run(r, EMPTY, actions) == w
    ensures v == Next(r, w, a) && Run(r, EMPTY, more) == v
  {
    RunAppend(r, EMPTY, actions, a);
    more, v := actions + [a], Next(r, w, a);
  }

  /** Activity `id` makes one undisturbed attempt. */
  lemma Whole(r: Regime, actions: seq<Action>, w: World, id: nat) returns (more: seq<Action>, v: World)
    requires Run(r, EMPTY, actions) == w
    requires id in w.acts && id !in w.store.flights && w.acts[id].phase.Updates()
    requires !Decide(r.min, Own(w.acts[id], 1, true), w.store.now, w.store.doc).Cancel?
    ensures Run(r, EMPTY, more) == v
    ensures v.store.doc == After(r.min, Own(w.acts[id], 1, true), w.store.now, w.store.doc)
    ensures v.store.now == w.store.now && v.store.flights == w.store.flights && v.disk == w.disk
    ensures v.acts == Proceed(w.acts, id, AfterError(w.acts[id]))
  {
    var a1, w1 := Extend(r, actions, w, Attempt(id, 1, true));
    var a2, w2 := Extend(r, a1, w1, Evaluate(id));
    more, v := Extend(r, a2, w2, Finish(id));
    assert v.store.flights == w.store.flights;
  }

  const NODE: NodeId := "a"

  /** A node stores the blob and is its only owner. */
  lemma OneOwner(r: Regime) returns (actions: seq<Action>, w: World)
    ensures Run(r, EMPTY, actions) == w
    ensures w.store.doc == Some(Blob(1, map[NODE := 0], false, 0)) && w.disk == {NODE}
    ensures w.store.now == 0 && w.store.flights == map[] && w.acts == map[]
  {
    var a1, w1 := Extend(r, [], EMPTY, Start(0, NODE, Store));
    actions, w := Whole(r, a1, w1, 0);
  }

  /** The same node has taken itself off the record again and is about to erase the file. */
  lemma HalfRemoved(r: Regime) returns (actions: seq<Action>, w: World)
    ensures Run(r, EMPTY, actions) == w
    ensures w.store.doc == None && w.disk == {NODE}
    ensures w.store.now == 0 && w.store.flights == map[] && w.acts == map[1 := Activity(NODE, Erasing)]
  {
    var a1, w1 := OneOwner(r);
    var a2, w2 := Extend(r, a1, w1, Start(1, NODE, ForceRemove));
    assert map[NODE := 0] - {NODE} == map[];
    actions, w := Whole(r, a2, w2, 1);
  }

  /** A store that slips between the two halves of a removal on the same node ends up listed
      without a file. */
  lemma OverlapLosesFile(r: Regime)
    requires !r.serial
    ensures !HoldAlways(r)
  {
    var a1, w1 := HalfRemoved(r);
    var a2, w2 := Extend(r, a1, w1, Start(2, NODE, Store));
    var a3, w3 := Whole(r, a2, w2, 2);
    var a4, w4 := Extend(r, a3, w3, Erase(1));
    assert NODE in Owners(w4.store.doc) && NODE !in w4.disk;
    assert !OwnersHold(Run(r, EMPTY, a4));
  }

  /** An owner that stores the blob again, alone, and whose two renames both fail loses the file and
      stays listed. */
  lemma FailedRenamesLoseFile(r: Regime)
    requires !r.sturdy
    ensures !HoldAlways(r)
  {
    var a1, w1 := OneOwner(r);
    var a2, w2 := Extend(r, a1, w1, Start(1, NODE, Replace));
    var a3, w3 := Extend(r, a2, w2, RenameAgain(1, false));
    assert NODE in Owners(w3.store.doc) && NODE !in w3.disk;
    assert !OwnersHold(Run(r, EMPTY, a3));
  }

  /** A removal whose update the bucket rejects erases the file all the same. */
  lemma BucketErrorLosesFile(r: Regime)
    requires !r.reliable
    ensures !HoldAlways(r)
  {
    var a1, w1 := OneOwner(r);
    var a2, w2 := Extend(r, a1, w1, Start(1, NODE, ForceRemove));
    assert w2.acts == map[1 := Activity(NODE, Forcing)];
    var a3, w3 := Extend(r, a2, w2, Attempt(1, 1, true));
    assert 1 in w3.store.flights && w3.store.flights[1].Fetched?;
    var a4, w4 := Extend(r, a3, w3, Lose(1));
    var a5, w5 := Extend(r, a4, w4, Erase(1));
    assert NODE in Owners(w5.store.doc) && NODE !in w5.disk;
    assert !OwnersHold(Run(r, EMPTY, a5));
  }

  /** Every listed owner has the file in every interleaving of the nodes, exactly when each node
      finishes one activity on the blob before it starts the next, no first rename fails on a node
      that has the file, and the bucket makes no errors. */
  lemma OwnersHoldIff(r: Regime)
    ensures HoldAlways(r) <==> r.serial && r.sturdy && r.reliable
  {
    if !r.serial {
      OverlapLosesFile(r);
    } else if !r.sturdy {
      FailedRenamesLoseFile(r);
    } else if !r.reliable {
      BucketErrorLosesFile(r);
    } else {
      forall w, actions | Initial(w)
        ensures OwnersHold(Run(r, w, actions))
      {
        InvRun(r, w, actions);
      }
    }
  }

  /** Every update in flight of an activity is the one the activity makes.  This holds in every regime. */
  ghost predicate Paired(min: int, w: World) {
    && Coherent(Rules(min), w.store)
    && forall id :: id in w.store.flights && id in w.acts ==> PairedAt(w, id)
  }

  ghost predicate PairedAt(w: World, id: nat)
    requires id in w.store.flights && id in w.acts
  {
    && w.acts[id].phase.Updates()
    && exists length, force :: w.store.flights[id].op == Own(w.acts[id], length, force)
  }

  lemma StoreCoherent(r: Regime, w: World, a: Action)
    requires Coherent(Rules(r.min), w.store)
    ensures Coherent(Rules(r.min), Next(r, w, a).store)
  {
    match a {
      case Wait(elapsed) => CoherentNext(Rules(r.min), w.store, Tick(elapsed));
      case Foreign(id, op) => CoherentNext(Rules(r.min), w.store, Read(id, op));
      case Attempt(id, length, force) =>
        if id in w.acts && w.acts[id].phase.Updates() {
          CoherentNext(Rules(r.min), w.store, Read(id, Own(w.acts[id], length, force)));
        }
      case Evaluate(id) => CoherentNext(Rules(r.min), w.store, Compute(id));
      case Finish(id) => CoherentNext(Rules(r.min), w.store, Commit(id));
      case _ =>
    }
  }

  lemma PairedAtNext(r: Regime, w: World, a: Action, id: nat)
    requires id in w.store.flights && id in w.acts ==> PairedAt(w, id)
    requires id in Next(r, w, a).store.flights && id in Next(r, w, a).acts
    ensures PairedAt(Next(r, w, a), id)
  {
  }

  lemma PairedNext(r: Regime, w: World, a: Action)
    requires Paired(r.min, w)
    ensures Paired(r.min, Next(r, w, a))
  {
    var v := Next(r, w, a);
    StoreCoherent(r, w, a);
    forall id | id in v.store.flights && id in v.acts
      ensures PairedAt(v, id)
    {
      PairedAtNext(r, w, a, id);
    }
  }

  /** A guarded removal by `me` is not refused: there is no record, or it is condemned, or the node's stamp
      is an hour old and more than the minimum own the blob. */
  predicate MayGo(min: int, me: NodeId, now: nat, doc: Option<Blob>) {
    doc.None? || doc.value.garbage || (now - StampOf(doc.value, me) >= HOUR && |doc.value.nodes| > min)
  }

  ghost predicate Over(w: World, id: nat) {
    && id in w.acts && id in w.store.flights && w.store.flights[id].Ready?
    && (Wins(w.store, id) || w.store.flights[id].decision.Cancel?)
  }

  /** What becomes of an activity whose attempt is over: a store ends; a removal goes on to erase the file
      unless its guard refused; nothing else is touched. */
  lemma AttemptEnds(r: Regime, w: World, id: nat)
    requires Paired(r.min, w) && Over(w, id)
    ensures var v, act, f := Next(r, w, Finish(id)), w.acts[id], w.store.flights[id];
            && v.disk == w.disk && v.acts - {id} == w.acts - {id}
            && (act.phase.Storing? ==> id !in v.acts)
            && (act.phase.Forcing? || (act.phase.Releasing? && MayGo(r.min, act.node, f.at, f.seen)) ==>
                  id in v.acts && v.acts[id] == Activity(act.node, Erasing))
            && (act.phase.Releasing? && !MayGo(r.min, act.node, f.at, f.seen) ==> id !in v.acts)
  {
    var act, f := w.acts[id], w.store.flights[id];
    assert FlightCoherent(Rules(r.min), w.store, f) && PairedAt(w, id);
    if act.phase.Releasing? {
      assert f.op == Release(act.node);
      RefusedIff(r.min, f.op, f.at, f.seen);
    }
  }

  predicate Removing(act: Activity) {
    act.phase.Releasing? || act.phase.Forcing? || act.phase.Erasing?
  }

  /** The action is the end of a removal that its guard refused. */
  ghost predicate Refused(r: Regime, w: World, a: Action, id: nat) {
    && a == Finish(id) && Over(w, id) && w.acts[id].phase.Releasing?
    && !MayGo(r.min, w.acts[id].node, w.store.flights[id].at, w.store.flights[id].seen)
  }

  lemma RemovalStep(r: Regime, w: World, a: Action, id: nat)
    requires Paired(r.min, w) && id in w.acts && Removing(w.acts[id])
    ensures var v, node := Next(r, w, a), w.acts[id].node;
            if id in v.acts then v.acts[id].node == node && Removing(v.acts[id])
            else Refused(r, w, a, id) || (a == Erase(id) && node !in v.disk)
  {
    if a == Finish(id) && Over(w, id) {
      AttemptEnds(r, w, id);
    }
  }

  /** Before activity `id` ends, its guard refuses. */
  ghost predicate RefusedIn(r: Regime, w: World, actions: seq<Action>, id: nat)
    decreases |actions|
  {
    && actions != []
    && var v := Next(r, w, actions[0]);
       Refused(r, w, actions[0], id) || (id in v.acts && RefusedIn(r, v, actions[1..], id))
  }

  /** When activity `id` ends, its node's file is gone. */
  ghost predicate ErasedIn(r: Regime, w: World, actions: seq<Action>, id: nat, node: NodeId)
    decreases |actions|
  {
    && actions != []
    && var v := Next(r, w, actions[0]);
       if id in v.acts then ErasedIn(r, v, actions[1..], id, node) else node !in v.disk
  }

  /** In every regime and interleaving, a removal or forced removal that comes to its end without being
      refused has taken the file off the disk. */
  lemma {:induction false} RemovalErases(r: Regime, w: World, actions: seq<Action>, id: nat)
    requires Paired(r.min, w) && id in w.acts && Removing(w.acts[id])
    requires id !in Run(r, w, actions).acts && !RefusedIn(r, w, actions, id)
    ensures ErasedIn(r, w, actions, id, w.acts[id].node)
    decreases |actions|
  {
    if actions == [] {
    } else {
      var v := Next(r, w, actions[0]);
      RemovalStep(r, w, actions[0], id);
      PairedNext(r, w, actions[0]);
      if id in v.acts {
        RemovalErases(r, v, actions[1..], id);
      }
    }
  }

  ghost function Attempted(r: Regime, w: World, id: nat, length: int, force: bool): World {
    Next(r, Next(r, Next(r, w, Attempt(id, length, force)), Evaluate(id)), Finish(id))
  }

  /** An attempt that nobody disturbs. */
  lemma AttemptedAlone(r: Regime, w: World, id: nat, length: int, force: bool)
    requires id in w.acts && w.acts[id].phase.Updates() && id !in w.store.flights
    ensures var v, op := Attempted(r, w, id, length, force), Own(w.acts[id], length, force);
            var d := Decide(r.min, op, w.store.now, w.store.doc);
            && v.store.doc == After(r.min, op, w.store.now, w.store.doc)
            && v.store.now == w.store.now && v.store.flights == w.store.flights && v.disk == w.disk
            && v.acts == Proceed(w.acts, id, AfterAttempt(w.acts[id], d))
  {
    var op := Own(w.acts[id], length, force);
    UndisturbedUpdate(Rules(r.min), w.store, id, op);
    var w2 := Next(r, Next(r, w, Attempt(id, length, force)), Evaluate(id));
    assert id in w2.store.flights && w2.store.flights[id].Ready?;
    assert Wins(w2.store, id) || w2.store.flights[id].decision.Cancel?;
  }

  /** A node that stores the blob, or verifies the file it has, ends up with the file and listed as an
      owner, with nothing left to do. */
  lemma StoreCompletes(r: Regime, w: World, id: nat, node: NodeId, kind: Kind, length: int, force: bool)
    requires id !in w.acts && id !in w.store.flights && Idle(w, node)
    requires kind.Store? || (kind.Verify? && node in w.disk)
    ensures var v := Attempted(r, Next(r, w, Start(id, node, kind)), id, length, force);
            && node in v.disk && node in Owners(v.store.doc) && v.acts == w.acts
            && v.store.doc == After(r.min, Record(node, length, force), w.store.now, w.store.doc)
  {
    var w1 := Next(r, w, Start(id, node, kind));
    AttemptedAlone(r, w1, id, length, force);
    RefusedIff(r.min, Record(node, length, force), w.store.now, w.store.doc);
    assert w.acts[id := Activity(node, Storing)] - {id} == w.acts;
  }

  /** A store whose first rename failed is a store all the same if the second works; if not, the node is left
      without the file and nothing is recorded. */
  lemma ReplaceCompletes(r: Regime, w: World, id: nat, node: NodeId, ok: bool)
    requires id !in w.acts && id !in w.store.flights && Idle(w, node) && (r.sturdy ==> node !in w.disk)
    ensures var v := Next(r, Next(r, w, Start(id, node, Replace)), RenameAgain(id, ok));
            && v.store == w.store
            && if ok then v.disk == w.disk + {node} && v.acts == w.acts[id := Activity(node, Storing)]
               else v.disk == w.disk - {node} && v.acts == w.acts
  {
    var w1 := Next(r, w, Start(id, node, Replace));
    assert w1.acts - {id} == w.acts;
    assert w.disk - {node} + {node} == w.disk + {node};
  }

  lemma RemovalAttempted(r: Regime, w: World, id: nat)
    requires id in w.acts && (w.acts[id].phase.Releasing? || w.acts[id].phase.Forcing?) && id !in w.store.flights
    ensures var v, act := Attempted(r, w, id, 0, false), w.acts[id];
            && v.disk == w.disk
            && if act.phase.Forcing? || MayGo(r.min, act.node, w.store.now, w.store.doc)
               then v.acts == w.acts[id := Activity(act.node, Erasing)] && act.node !in Owners(v.store.doc)
               else v.acts == w.acts - {id} && v.store.doc == w.store.doc
  {
    var op := Own(w.acts[id], 0, false);
    AttemptedAlone(r, w, id, 0, false);
    RefusedIff(r.min, op, w.store.now, w.store.doc);
    OwnersAfter(r.min, op, w.store.now, w.store.doc);
  }

  lemma EraseEnds(r: Regime, w: World, id: nat, node: NodeId, others: map<nat, Activity>)
    requires id !in others
    requires w.acts - {id} == others && (id in w.acts ==> w.acts[id] == Activity(node, Erasing))
    ensures var v := Next(r, w, Erase(id));
            && v.acts == others && v.store == w.store
            && v.disk == if id in w.acts then w.disk - {node} else w.disk
  {
    assert id !in w.acts ==> w.acts - {id} == w.acts;
  }

  /** A node that removes the blob ends up without the file and off the record, unless the guard refuses;
      then nothing has changed. */
  lemma RemovalCompletes(r: Regime, w: World, id: nat, node: NodeId, kind: Kind)
    requires id !in w.acts && id !in w.store.flights && Idle(w, node)
    requires kind.Remove? || kind.ForceRemove?
    ensures var v := Next(r, Attempted(r, Next(r, w, Start(id, node, kind)), id, 0, false), Erase(id));
            && v.acts == w.acts
            && if kind.ForceRemove? || MayGo(r.min, node, w.store.now, w.store.doc)
               then v.disk == w.disk - {node} && node !in Owners(v.store.doc)
               else v.disk == w.disk && v.store.doc == w.store.doc
  {
    var w1 := Next(r, w, Start(id, node, kind));
    var phase := if kind.Remove? then Releasing else Forcing;
    assert w1 == w.(acts := w.acts[id := Activity(node, phase)]);
    RemovalAttempted(r, w1, id);
    EraseEnds(r, Attempted(r, w1, id, 0, false), id, node, w.acts);
  }

  /** A reference, mark or removal by another node that nobody disturbs takes effect. */
  lemma ForeignCompletes(r: Regime, w: World, id: nat, op: Op)
    requires id !in w.acts && id !in w.store.flights && (op.Reference? || op.MarkGarbage? || op.Drop?)
    ensures var v := Next(r, Next(r, Next(r, w, Foreign(id, op)), Evaluate(id)), Finish(id));
            v.store.doc == After(r.min, op, w.store.now, w.store.doc) && v.disk == w.disk && v.acts == w.acts
  {
    UndisturbedUpdate(Rules(r.min), w.store, id, op);
  }
}
