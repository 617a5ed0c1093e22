/** Garbage collection against uploads and links, on one blob, in real time.

Any number of nodes update the blob's record through compare-and-swap.  An upload
stamps the record with its own ownership, a link stamps it with a reference; only
later does the file that points to the blob appear.  The collector takes a page of
the file view at some instant and, if no file pointed to the blob then, marks the
blob as garbage at some later instant.  Two delays matter: `linkDelay` bounds the
time from a stamp to the file it allows, `sweepDelay` the time from a page to the
marks made on its strength.

A file can also come back without a new stamp: a store that saw the file, and is retried
after somebody deleted it, still carries the old revision.  And links and restores go on
to store the file when the reference they tried to make was not accepted.
*/
module Cluster {
  import opened Options
  import opened Cas
  import opened Ownership

  /** `quiet` says that unguarded removals respect `Quiet` below, `revives` that a deleted file may
      come back with a store that was under way, `bare` that a file may appear without a stamp. */
  datatype Params = Params(min: int, linkDelay: nat, sweepDelay: nat, quiet: bool, revives: bool, bare: bool)

  /** A file that points to the blob: the stamp that allowed it and the time it appeared. */
  datatype Link = Link(stamp: nat, when: nat)

  datatype State = State(
    store: Cas.State<Op, Blob>,
    links: map<string, Link>,
    gone: map<string, Link>,   // deleted files
    stamps: set<nat>,          // stamps of all accepted uploads and references
    scans: set<nat>,           // times of pages that showed no file for the blob
    sweeps: map<nat, nat>)     // mark attempt -> the page it acts on

  datatype Event =
    | Tick(elapsed: nat)
    | Read(id: nat, op: Op)
    | Sweep(id: nat, scan: nat)
    | Compute(id: nat)
    | Commit(id: nat)
    | LinkFile(stamp: nat, file: string)
    | Unlink(file: string)
    | Revive(file: string)
    | BareLink(file: string)
    | Scan

  /** An unguarded removal is quiet when the latest stamp is a quarter of an hour old, or another owner
      has it, or it is that of the last reference and the record stays. */
  ghost predicate Quiet(me: NodeId, node: NodeId, now: nat, doc: Option<Blob>) {
    doc.Some? ==>
      var b, t := doc.value, LatestReference(doc.value);
      || t + QUARTER <= now
      || (exists n :: n in b.nodes && n != node && b.nodes[n] == t)
      || (b.referenced == t && (me != node || exists n :: n in b.nodes && n != node))
  }

  ghost predicate MayCompute(p: Params, s: State, id: nat)
  {
    id in s.store.flights ==>
      var f := s.store.flights[id];
      && (f.op.MarkGarbage? ==> id in s.sweeps && s.store.now <= s.sweeps[id] + p.sweepDelay)
      && (f.op.Drop? && p.quiet ==> Quiet(f.op.me, f.op.node, s.store.now, f.seen))
  }

  ghost function Step(p: Params, s: State, e: Cas.Event<Op>): State {
    s.(store := Cas.Next(Rules(p.min), s.store, e))
  }

  ghost function Next(p: Params, s: State, e: Event): State {
    match e
    case Tick(elapsed) => Step(p, s, Cas.Tick(elapsed))
    case Read(id, op) =>
      if op.MarkGarbage? then s else Step(p, s, Cas.Read(id, op))
    case Sweep(id, scan) =>
      if id !in s.store.flights && scan in s.scans
      then Step(p, s, Cas.Read(id, MarkGarbage)).(sweeps := s.sweeps[id := scan])
      else s
    case Compute(id) =>
      if MayCompute(p, s, id) then Step(p, s, Cas.Compute(id)) else s
    case Commit(id) =>
      var t := Step(p, s, Cas.Commit(id));
      if Wins(s.store, id) && (s.store.flights[id].op.Record? || s.store.flights[id].op.Reference?)
      then t.(stamps := s.stamps + {s.store.flights[id].at})
      else t
    case LinkFile(stamp, file) =>
      if stamp in s.stamps && s.store.now <= stamp + p.linkDelay
      then s.(links := s.links[file := Link(stamp, s.store.now)])
      else s
    case Unlink(file) =>
      if file in s.links then s.(links := s.links - {file}, gone := s.gone[file := s.links[file]]) else s
    case Revive(file) =>
      if p.revives && file in s.gone
      then s.(links := s.links[file := Link(s.gone[file].stamp, s.store.now)])
      else s
    case BareLink(file) =>
      if p.bare then s.(links := s.links[file := Link(s.store.now, s.store.now)]) else s
    case Scan =>
      if s.links == map[] then s.(scans := s.scans + {s.store.now}) else s
  }

  ghost function Run(p: Params, s: State, es: seq<Event>): State
    decreases |es|
  {
    if es == [] then s else Run(p, Next(p, s, es[0]), es[1..])
  }

  ghost predicate Initial(s: State) {
    && Cas.Initial(s.store) && s.store.doc == None
    && s.links == map[] && s.gone == map[] && s.stamps == {} && s.scans == {} && s.sweeps == map[]
  }

  /** A file points to a condemned blob. */
  ghost predicate Bad(s: State) {
    IsGarbage(s.store.doc) && s.links != map[]
  }

  ghost predicate SafeAlways(p: Params) {
    forall s, es :: Initial(s) ==> !Bad(Run(p, s, es))
  }

  /** The record still shows a reference at least as recent as `stamp`, or a quarter of an hour
      had already passed when it last changed. */
  ghost predicate Remembered(s: Cas.State<Op, Blob>, stamp: nat) {
    stamp <= LatestOf(s.doc) || stamp + QUARTER <= s.lastWrite
  }

  ghost predicate FlightOk(p: Params, s: State, id: nat)
    requires id in s.store.flights
  {
    var f := s.store.flights[id];
    && (f.op.MarkGarbage? ==>
          && id in s.sweeps && s.sweeps[id] in s.scans
          && (f.Ready? ==> f.at <= s.sweeps[id] + p.sweepDelay))
    && (f.op.Drop? && f.Ready? ==> Quiet(f.op.me, f.op.node, f.at, f.seen))
  }

  ghost predicate Inv(p: Params, s: State) {
    && Coherent(Rules(p.min), s.store)
    && LatestOf(s.store.doc) <= s.store.lastWrite
    && (forall st :: st in s.stamps ==> Remembered(s.store, st))
    && (IsGarbage(s.store.doc) ==> s.links == map[])
    && (IsGarbage(s.store.doc) ==> forall st :: st in s.stamps ==> st + QUARTER <= s.store.lastWrite)
    && (forall f :: f in s.links ==>
          && s.links[f].stamp in s.stamps
          && s.links[f].when <= s.store.now
          && s.links[f].when <= s.links[f].stamp + p.linkDelay)
    && (forall t, f :: t in s.scans && f in s.links ==> t <= s.links[f].when)
    && (forall t :: t in s.scans ==> t <= s.store.now)
    && (forall id :: id in s.store.flights ==> FlightOk(p, s, id))
  }

  ghost predicate Bounded(p: Params) {
    1 <= p.min && p.quiet && !p.revives && !p.bare && p.linkDelay + p.sweepDelay < QUARTER
  }

  /** A mark that is accepted finds no file pointing to the blob, and no recent stamp. */
  lemma MarkFindsNoLink(p: Params, s: State, id: nat)
    requires Bounded(p) && Inv(p, s)
    requires Wins(s.store, id) && s.store.flights[id].op.MarkGarbage?
    ensures s.links == map[]
    ensures forall st :: st in s.stamps ==> st + QUARTER <= s.store.now
  {
  }

  /** Guarded removal forgets only stamps that are at least an hour old. */
  lemma ReleaseForgetsOnlyOld(min: int, me: NodeId, now: nat, b: Blob, st: nat)
    requires 1 <= min && !b.garbage && st <= LatestReference(b)
    requires !Decide(min, Release(me), now, Some(b)).Cancel?
    ensures Decide(min, Release(me), now, Some(b)).Write?
    ensures st <= LatestReference(Decide(min, Release(me), now, Some(b)).doc) || st + HOUR <= now
  {
    var left := b.nodes - {me};
    assert left.Keys == b.nodes.Keys - {me};
    assert |left.Keys| >= |b.nodes.Keys| - 1 >= 1;
    assert left != map[];
    if st > b.referenced {
      var n :| n in b.nodes && b.nodes[n] >= st;
      if n != me {
        assert n in left;
      }
    }
  }

  lemma RecordRemembers(min: int, me: NodeId, length: int, force: bool, now: nat, b: Blob, st: nat)
    requires st <= LatestReference(b) <= now
    requires Decide(min, Record(me, length, force), now, Some(b)).Write?
    ensures st <= LatestReference(Decide(min, Record(me, length, force), now, Some(b)).doc)
  {
    var after := Decide(min, Record(me, length, force), now, Some(b)).doc;
    if st > b.referenced {
      var n :| n in b.nodes && b.nodes[n] >= st;
      assert n in after.nodes && me in after.nodes;
    }
  }

  /** A quiet unguarded removal forgets nothing, unless everything is old. */
  lemma QuietForgetsOnlyOld(me: NodeId, node: NodeId, now: nat, b: Blob)
    requires Quiet(me, node, now, Some(b))
    ensures || LatestOf(After(0, Drop(me, node), now, Some(b))) == LatestReference(b)
            || LatestReference(b) + QUARTER <= now
  {
    var left := b.nodes - {node};
    assert forall n :: n in b.nodes && n != node ==> n in left;
  }

  /** No accepted update forgets a recent stamp. */
  lemma StampKept(p: Params, s: State, id: nat, st: nat)
    requires Bounded(p) && Inv(p, s)
    requires Wins(s.store, id) && st in s.stamps
    ensures Remembered(Next(p, s, Event.Commit(id)).store, st)
  {
    var f := s.store.flights[id];
    GuardHoldsAtCommit(Rules(p.min), s.store, id);
    assert FlightOk(p, s, id) && Remembered(s.store, st);
    if s.store.doc.Some? && st <= LatestOf(s.store.doc) {
      var b := s.store.doc.value;
      match f.op {
        case Record(me, length, force) => RecordRemembers(p.min, me, length, force, f.at, b, st);
        case Release(me) => if !b.garbage { ReleaseForgetsOnlyOld(p.min, me, f.at, b, st); }
        case Drop(me, node) =>
          QuietForgetsOnlyOld(me, node, f.at, b);
          assert f.decision == Decide(0, f.op, f.at, s.store.doc);
        case _ =>
      }
    }
  }

  lemma CommitRemembers(p: Params, s: State, id: nat)
    requires Bounded(p) && Inv(p, s) && Wins(s.store, id)
    ensures var t := Next(p, s, Event.Commit(id));
            && LatestOf(t.store.doc) <= t.store.lastWrite
            && forall st :: st in t.stamps ==> Remembered(t.store, st)
  {
    var t := Next(p, s, Event.Commit(id));
    var f := s.store.flights[id];
    GuardHoldsAtCommit(Rules(p.min), s.store, id);
    StampsStayPast(p.min, f.op, f.at, s.store.doc);
    forall st | st in t.stamps
      ensures Remembered(t.store, st)
    {
      if st in s.stamps {
        StampKept(p, s, id, st);
      } else {
        assert f.op.Record? ==> f.op.me in t.store.doc.value.nodes;
      }
    }
  }

  /** Only a mark condemns a record. */
  lemma CommitCondemns(p: Params, s: State, id: nat)
    requires Bounded(p) && Inv(p, s) && Wins(s.store, id)
    ensures var t := Next(p, s, Event.Commit(id));
            IsGarbage(t.store.doc) ==>
              s.links == map[] && forall st :: st in t.stamps ==> st + QUARTER <= t.store.lastWrite
  {
    GuardHoldsAtCommit(Rules(p.min), s.store, id);
    if s.store.flights[id].op.MarkGarbage? {
      MarkFindsNoLink(p, s, id);
    }
  }

  lemma InvCommit(p: Params, s: State, id: nat)
    requires Bounded(p) && Inv(p, s)
    ensures Inv(p, Next(p, s, Event.Commit(id)))
  {
    var t := Next(p, s, Event.Commit(id));
    CoherentNext(Rules(p.min), s.store, Cas.Commit(id));
    forall i | i in t.store.flights
      ensures FlightOk(p, t, i)
    {
      assert FlightOk(p, s, i);
    }
    if Wins(s.store, id) {
      CommitRemembers(p, s, id);
      CommitCondemns(p, s, id);
    }
  }

  /** Time passing, reads and computations keep the invariant. */
  lemma InvStep(p: Params, s: State, e: Cas.Event<Op>)
    requires Bounded(p) && Inv(p, s)
    requires !e.Commit?
    requires e.Read? ==> !e.op.MarkGarbage?
    requires e.Compute? ==> MayCompute(p, s, e.id)
    ensures Inv(p, Step(p, s, e))
  {
    var t := Step(p, s, e);
    CoherentNext(Rules(p.min), s.store, e);
    forall i | i in t.store.flights
      ensures FlightOk(p, t, i)
    {
      if i in s.store.flights {
        assert FlightOk(p, s, i);
      }
    }
  }

  lemma InvSweep(p: Params, s: State, id: nat, scan: nat)
    requires Bounded(p) && Inv(p, s)
    requires id !in s.store.flights && scan in s.scans
    ensures Inv(p, Next(p, s, Sweep(id, scan)))
  {
    var t := Next(p, s, Sweep(id, scan));
    CoherentNext(Rules(p.min), s.store, Cas.Read(id, MarkGarbage));
    forall i | i in t.store.flights
      ensures FlightOk(p, t, i)
    {
      if i in s.store.flights {
        assert FlightOk(p, s, i);
      }
    }
  }

  /** Files come and go, pages are taken. */
  lemma InvFiles(p: Params, s: State, e: Event)
    requires Bounded(p) && Inv(p, s)
    requires e.LinkFile? || e.Unlink? || e.Revive? || e.BareLink? || e.Scan?
    ensures Inv(p, Next(p, s, e))
  {
    var t := Next(p, s, e);
    assert forall i :: i in t.store.flights ==> FlightOk(p, s, i) && FlightOk(p, t, i);
  }

  lemma InvNext(p: Params, s: State, e: Event)
    requires Bounded(p) && Inv(p, s)
    ensures Inv(p, Next(p, s, e))
  {
    match e {
      case Commit(id) => InvCommit(p, s, id);
      case Tick(elapsed) => InvStep(p, s, Cas.Tick(elapsed));
      case Read(id, op) => if !op.MarkGarbage? { InvStep(p, s, Cas.Read(id, op)); }
      case Sweep(id, scan) => if id !in s.store.flights && scan in s.scans { InvSweep(p, s, id, scan); }
      case Compute(id) => if MayCompute(p, s, id) { InvStep(p, s, Cas.Compute(id)); }
      case _ => InvFiles(p, s, e);
    }
  }

  lemma {:induction false} InvRun(p: Params, s: State, es: seq<Event>)
    requires Bounded(p) && Inv(p, s)
    ensures Inv(p, Run(p, s, es))
    decreases |es|
  {
    if es == [] {
    } else {
      InvNext(p, s, es[0]);
      InvRun(p, Next(p, s, es[0]), es[1..]);
    }
  }

  lemma InitialInv(p: Params, s: State)
    requires Initial(s)
    ensures Inv(p, s)
  {
  }

  /** One more event at the end of a run. */
  lemma {:induction false} RunAppend(p: Params, s: State, es: seq<Event>, e: Event)
    ensures Run(p, s, es + [e]) == Next(p, Run(p, s, es), e)
    decreases |es|
  {
    if es == [] {
      assert ([] + [e])[1..] == [];
    } else {
      assert (es + [e])[1..] == es[1..] + [e];
      RunAppend(p, Next(p, s, es[0]), es[1..], e);
    }
  }

  /** A run, one event longer. */
  lemma Extend(p: Params, s0: State, es: seq<Event>, s: State, e: Event) returns (es': seq<Event>, s': State)
    requires Run(p, s0, es) == s
    ensures es' == es + [e] && s' == Next(p, s, e) && Run(p, s0, es') == s'
  {
    RunAppend(p, s0, es, e);
    es', s' := es + [e], Next(p, s, e);
  }

  const EMPTY: State :=
    State.State(Cas.State.State(0, 0, None, 0, map[]), map[], map[], {}, {}, map[])

  /** One undisturbed upload, reference or removal. */
  lemma Perform(p: Params, s0: State, es: seq<Event>, s: State, op: Op) returns (es': seq<Event>, s': State)
    requires Run(p, s0, es) == s && 0 !in s.store.flights
    requires !op.MarkGarbage? && (op.Drop? ==> !p.quiet)
    requires !Decide(p.min, op, s.store.now, s.store.doc).Cancel?
    ensures Run(p, s0, es') == s'
    ensures s'.store.now == s.store.now && s'.store.flights == s.store.flights
    ensures s'.store.doc == After(p.min, op, s.store.now, s.store.doc)
    ensures s'.links == s.links && s'.scans == s.scans
    ensures s'.stamps == s.stamps + (if op.Record? || op.Reference? then {s.store.now} else {})
  {
    var es1, s1 := Extend(p, s0, es, s, Event.Read(0, op));
    var es2, s2 := Extend(p, s0, es1, s1, Event.Compute(0));
    es', s' := Extend(p, s0, es2, s2, Event.Commit(0));
    assert s'.store.flights == s.store.flights;
  }

  /** One undisturbed mark on the strength of page `scan`. */
  lemma Condemn(p: Params, s0: State, es: seq<Event>, s: State, scan: nat) returns (es': seq<Event>, s': State)
    requires Run(p, s0, es) == s && 0 !in s.store.flights
    requires scan in s.scans && s.store.now <= scan + p.sweepDelay
    requires s.store.doc.Some? && LatestOf(s.store.doc) + QUARTER <= s.store.now
    ensures Run(p, s0, es') == s'
    ensures IsGarbage(s'.store.doc) && s'.links == s.links && s'.gone == s.gone
  {
    var es1, s1 := Extend(p, s0, es, s, Sweep(0, scan));
    assert MayCompute(p, s1, 0);
    var es2, s2 := Extend(p, s0, es1, s1, Event.Compute(0));
    assert s2.store.flights[0].decision == Write(s.store.doc.value.(garbage := true));
    assert Wins(s2.store, 0);
    es', s' := Extend(p, s0, es2, s2, Event.Commit(0));
  }

  /** Delays that add up to a quarter of an hour let a mark slip past a file that has just appeared. */
  lemma LongDelaysUnsafe(p: Params)
    requires QUARTER <= p.linkDelay + p.sweepDelay
    ensures exists s, es :: Initial(s) && Bad(Run(p, s, es))
  {
    var es, s := Perform(p, EMPTY, [], EMPTY, Record("a", 1, true));
    es, s := Extend(p, EMPTY, es, s, Event.Tick(p.linkDelay));
    es, s := Extend(p, EMPTY, es, s, Scan);
    es, s := Extend(p, EMPTY, es, s, LinkFile(0, "f"));
    es, s := Extend(p, EMPTY, es, s, Event.Tick(p.sweepDelay));
    es, s := Condemn(p, EMPTY, es, s, p.linkDelay);
    assert "f" in s.links;
    assert Bad(Run(p, EMPTY, es));
  }

  lemma FreshlyLinked(p: Params) returns (es: seq<Event>, s: State)
    ensures Run(p, EMPTY, es) == s && s.store.now == QUARTER && s.store.flights == map[]
    ensures s.store.doc == Some(Blob(1, map["a" := QUARTER], false, 0))
    ensures s.links.Keys == {"f"} && QUARTER in s.scans
  {
    var es1, s1 := Extend(p, EMPTY, [], EMPTY, Event.Tick(QUARTER));
    var es2, s2 := Perform(p, EMPTY, es1, s1, Record("a", 1, true));
    var es3, s3 := Extend(p, EMPTY, es2, s2, Scan);
    es, s := Extend(p, EMPTY, es3, s3, LinkFile(QUARTER, "f"));
  }

  /** An unguarded removal leaves a record of a freshly linked blob without owners, hence without stamps. */
  lemma StampsDropped(p: Params) returns (es: seq<Event>, s: State)
    requires !p.quiet
    ensures Run(p, EMPTY, es) == s && s.store.now == QUARTER && s.store.flights == map[]
    ensures s.store.doc == Some(Blob(1, map[], false, 0))
    ensures "f" in s.links && QUARTER in s.scans
  {
    var es1, s1 := FreshlyLinked(p);
    assert s1.store.doc.value.nodes - {"a"} == map[];
    es, s := Perform(p, EMPTY, es1, s1, Drop("b", "a"));
  }

  /** A single unguarded removal of a fresh owner does the same, whatever the delays. */
  lemma LoudDropsUnsafe(p: Params)
    requires !p.quiet
    ensures exists s, es :: Initial(s) && Bad(Run(p, s, es))
  {
    var es1, s1 := StampsDropped(p);
    var es, s := Condemn(p, EMPTY, es1, s1, QUARTER);
    assert "f" in s.links;
    assert Bad(Run(p, EMPTY, es));
  }

  lemma LoneOwner(p: Params, es0: seq<Event>, s0: State, n: NodeId) returns (es: seq<Event>, s: State)
    requires Run(p, EMPTY, es0) == s0 && 0 !in s0.store.flights && s0.store.doc == None && s0.store.now == 0
    ensures Run(p, EMPTY, es) == s && s.store.now == HOUR && s.store.flights == s0.store.flights
    ensures s.store.doc == Some(Blob(1, map[n := 0], false, 0)) && s.links == s0.links
  {
    var es1, s1 := Perform(p, EMPTY, es0, s0, Record(n, 1, true));
    es, s := Extend(p, EMPTY, es1, s1, Event.Tick(HOUR));
  }

  /** Without a replica minimum, the last owner may delete a record that was just referenced. */
  lemma LastOwnerLeaves(p: Params, es0: seq<Event>, s0: State, n: NodeId) returns (es: seq<Event>, s: State)
    requires p.min <= 0
    requires Run(p, EMPTY, es0) == s0 && 0 !in s0.store.flights && s0.store.now == HOUR
    requires s0.store.doc == Some(Blob(1, map[n := 0], false, 0))
    ensures Run(p, EMPTY, es) == s && s.store.now == HOUR && s.store.flights == s0.store.flights
    ensures s.store.doc == None && HOUR in s.stamps && s.links == s0.links
  {
    var es1, s1 := Perform(p, EMPTY, es0, s0, Reference);
    assert map[n := 0] - {n} == map[];
    es, s := Perform(p, EMPTY, es1, s1, Release(n));
  }

  /** A late creation of the record, begun before, then shows only its own old stamp. */
  lemma ReferenceForgotten(p: Params) returns (es: seq<Event>, s: State)
    requires p.min <= 0
    ensures Run(p, EMPTY, es) == s && s.store.now == HOUR && s.store.flights == map[]
    ensures s.store.doc == Some(Blob(1, map["c" := 0], false, 0)) && HOUR in s.stamps
    ensures s.links == map[]
  {
    var es1, s1 := Launch(p, 1, Record("c", 1, true));
    var es2, s2 := LoneOwner(p, es1, s1, "b");
    var es3, s3 := LastOwnerLeaves(p, es2, s2, "b");
    assert Wins(s3.store, 1);
    es, s := Extend(p, EMPTY, es3, s3, Event.Commit(1));
  }

  lemma Launch(p: Params, id: nat, op: Op) returns (es: seq<Event>, s: State)
    requires op.Record?
    ensures Run(p, EMPTY, es) == s
    ensures s == EMPTY.(store := EMPTY.store.(flights :=
                 map[id := Ready(op, 0, None, 0, Write(Blob(op.length, map[op.me := 0], false, 0)))]))
  {
    es, s := Extend(p, EMPTY, [], EMPTY, Event.Read(id, op));
    es, s := Extend(p, EMPTY, es, s, Event.Compute(id));
  }

  lemma NoMinimumUnsafe(p: Params)
    requires p.min <= 0
    ensures exists s, es :: Initial(s) && Bad(Run(p, s, es))
  {
    var es, s := ReferenceForgotten(p);
    es, s := Extend(p, EMPTY, es, s, Scan);
    es, s := Extend(p, EMPTY, es, s, LinkFile(HOUR, "f"));
    es, s := Condemn(p, EMPTY, es, s, HOUR);
    assert "f" in s.links;
    assert Bad(Run(p, EMPTY, es));
  }

  /** A file is deleted, and later its blob condemned. */
  lemma CondemnedAfterDelete(p: Params) returns (es: seq<Event>, s: State)
    ensures Run(p, EMPTY, es) == s && IsGarbage(s.store.doc) && "f" in s.gone
  {
    var es1, s1 := FreshlyLinked(p);
    var es2, s2 := Extend(p, EMPTY, es1, s1, Unlink("f"));
    var es3, s3 := Extend(p, EMPTY, es2, s2, Event.Tick(QUARTER));
    assert s3.links == map[];
    var es4, s4 := Extend(p, EMPTY, es3, s3, Scan);
    es, s := Condemn(p, EMPTY, es4, s4, 2 * QUARTER);
  }

  /** Then the file comes back, or another one appears without a stamp. */
  lemma StamplessUnsafe(p: Params)
    requires p.revives || p.bare
    ensures exists s, es :: Initial(s) && Bad(Run(p, s, es))
  {
    var es1, s1 := CondemnedAfterDelete(p);
    var es2, s2 := Extend(p, EMPTY, es1, s1, if p.revives then Revive("f") else BareLink("f"));
    assert "f" in s2.links;
    assert Bad(Run(p, EMPTY, es2));
  }

  /** No file ever points to a condemned blob, in any interleaving, exactly when the two delays
      together stay under a quarter of an hour, unguarded removals are quiet, no file comes back or
      appears without a stamp, and at least one replica has to be kept. */
  lemma CollectionIsSafeIff(p: Params)
    ensures SafeAlways(p) <==>
              p.linkDelay + p.sweepDelay < QUARTER && p.quiet && !p.revives && !p.bare && 1 <= p.min
  {
    if p.linkDelay + p.sweepDelay >= QUARTER {
      LongDelaysUnsafe(p);
    } else if !p.quiet {
      LoudDropsUnsafe(p);
    } else if p.revives || p.bare {
      StamplessUnsafe(p);
    } else if p.min <= 0 {
      NoMinimumUnsafe(p);
    } else {
      forall s, es | Initial(s)
        ensures !Bad(Run(p, s, es))
      {
        InitialInv(p, s);
        InvRun(p, s, es);
      }
    }
  }
}
