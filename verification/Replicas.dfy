/** How many replicas survive, over every run of interleaved updates of one record.

Requests to remove a replica come from several planners that look at old views of
the record; nothing relates them to the record's present state.  Only the guard
inside the removal does.
*/
module Replicas {
  import opened Options
  import opened Cas
  import opened Ownership

  function Floor(k: nat, min: int): int {
    if k < min then k else min
  }

  ghost predicate Sound(min: int, s: State<Op, Blob>) {
    Coherent(Rules(min), s) && LatestOf(s.doc) <= s.lastWrite
  }

  lemma SoundNext(min: int, s: State<Op, Blob>, e: Event<Op>)
    requires Sound(min, s)
    ensures Sound(min, Next(Rules(min), s, e))
  {
    CoherentNext(Rules(min), s, e);
    if e.Commit? && Wins(s, e.id) {
      GuardHoldsAtCommit(Rules(min), s, e.id);
      StampsStayPast(min, s.flights[e.id].op, s.flights[e.id].at, s.doc);
    }
  }

  /** No unguarded removal is begun. */
  ghost predicate Guarded(es: seq<Event<Op>>) {
    forall e :: e in es && e.Read? ==> !e.op.Drop?
  }

  /** Unguarded removals still in flight have been overtaken. */
  ghost predicate Overtaken(s: State<Op, Blob>) {
    forall id :: id in s.flights && s.flights[id].op.Drop? ==>
      s.flights[id].seen.None? || s.flights[id].version < s.version
  }

  /** `e` is the commit of a mark, and it is accepted. */
  ghost predicate Condemns(s: State<Op, Blob>, e: Event<Op>) {
    e.Commit? && Wins(s, e.id) && s.flights[e.id].op.MarkGarbage?
  }

  ghost predicate Condemned(min: int, s: State<Op, Blob>, es: seq<Event<Op>>)
    decreases |es|
  {
    es != [] && (Condemns(s, es[0]) || Condemned(min, Next(Rules(min), s, es[0]), es[1..]))
  }

  /** What an operation that is not cancelled does to the number of owners. */
  lemma OwnersAfter(min: int, op: Op, now: nat, doc: Option<Blob>)
    requires !Decide(min, op, now, doc).Cancel?
    ensures var before, after := OwnerCount(doc), OwnerCount(After(min, op, now, doc));
            match op
            case Record(me, _, _) => before <= after
            case Reference => after == before
            case MarkGarbage => after == before
            case Drop(_, node) => after == before - if node in Owners(doc) then 1 else 0
            case Release(me) => after == before - if me in Owners(doc) then 1 else 0
  {
    if doc.Some? {
      match op {
        case Record(me, _, _) => NoneFewer(doc.value.nodes, me, now);
        case Drop(_, node) => RemovalLeaves(min, op, now, doc.value, node);
        case Release(me) => RemovalLeaves(min, op, now, doc.value, me);
        case _ =>
      }
    }
  }

  lemma RemovalLeaves(min: int, op: Op, now: nat, b: Blob, n: NodeId)
    requires !Decide(min, op, now, Some(b)).Cancel?
    requires (op.Drop? && op.node == n) || (op.Release? && op.me == n)
    ensures OwnerCount(After(min, op, now, Some(b))) == |b.nodes| - if n in b.nodes then 1 else 0
  {
    OneFewer(b.nodes, n);
  }

  lemma NoneFewer(nodes: map<NodeId, nat>, n: NodeId, stamp: nat)
    ensures |nodes| <= |nodes[n := stamp]|
  {
    assert nodes[n := stamp].Keys == nodes.Keys + {n};
  }

  lemma OneFewer(nodes: map<NodeId, nat>, n: NodeId)
    ensures |nodes - {n}| == |nodes| - if n in nodes then 1 else 0
  {
  }

  /** Exactly which operations take a record below its floor in one step. */
  lemma BelowFloorIff(min: int, op: Op, now: nat, doc: Option<Blob>)
    requires !Decide(min, op, now, doc).Cancel?
    ensures OwnerCount(After(min, op, now, doc)) < Floor(OwnerCount(doc), min)
       <==> && OwnerCount(doc) <= min
            && ((op.Drop? && op.node in Owners(doc)) || (op.Release? && op.me in Owners(doc) && IsGarbage(doc)))
  {
    OwnersAfter(min, op, now, doc);
  }

  lemma StepKeepsFloor(min: int, s: State<Op, Blob>, e: Event<Op>, k: nat)
    requires Sound(min, s) && Overtaken(s) && Guarded([e])
    requires !IsGarbage(s.doc) && Floor(k, min) <= OwnerCount(s.doc)
    requires !Condemns(s, e)
    ensures var t := Next(Rules(min), s, e);
            Overtaken(t) && !IsGarbage(t.doc) && Floor(k, min) <= OwnerCount(t.doc)
  {
    assert e in [e];
    if e.Commit? && Wins(s, e.id) {
      var f := s.flights[e.id];
      GuardHoldsAtCommit(Rules(min), s, e.id);
      BelowFloorIff(min, f.op, f.at, s.doc);
    }
  }

  /** A record that is never condemned keeps at least the smaller of its starting owner count
      and the configured minimum, however many guarded removals are attempted. */
  lemma {:induction false} ReplicaFloor(min: int, s: State<Op, Blob>, es: seq<Event<Op>>, k: nat)
    requires Sound(min, s) && Overtaken(s) && Guarded(es)
    requires !IsGarbage(s.doc) && Floor(k, min) <= OwnerCount(s.doc)
    requires !Condemned(min, s, es)
    ensures var t := Run(Rules(min), s, es);
            !IsGarbage(t.doc) && Floor(k, min) <= OwnerCount(t.doc)
    decreases |es|
  {
    if es == [] {
    } else {
      assert es[0] in es;
      SoundNext(min, s, es[0]);
      StepKeepsFloor(min, s, es[0], k);
      ReplicaFloor(min, Next(Rules(min), s, es[0]), es[1..], k);
    }
  }

  /** The record still carries a reference made at `r` or later. */
  ghost predicate ReferencedSince(s: State<Op, Blob>, r: nat) {
    s.doc.Some? && r <= s.doc.value.referenced
  }

  lemma ReferenceNext(min: int, s: State<Op, Blob>, e: Event<Op>, r: nat)
    requires 1 <= min && Sound(min, s) && Overtaken(s) && Guarded([e])
    requires !IsGarbage(s.doc) && ReferencedSince(s, r) && !Condemns(s, e)
    ensures ReferencedSince(Next(Rules(min), s, e), r)
  {
    assert e in [e];
    if e.Commit? && Wins(s, e.id) {
      GuardHoldsAtCommit(Rules(min), s, e.id);
      OwnersAfter(min, s.flights[e.id].op, s.flights[e.id].at, s.doc);
    }
  }

  lemma {:induction false} ReferenceStays(min: int, s: State<Op, Blob>, es: seq<Event<Op>>, r: nat)
    requires 1 <= min && Sound(min, s) && Overtaken(s) && Guarded(es)
    requires !IsGarbage(s.doc) && ReferencedSince(s, r)
    requires !Condemned(min, s, es)
    ensures var t := Run(Rules(min), s, es);
            Sound(min, t) && ReferencedSince(t, r)
    decreases |es|
  {
    if es == [] {
    } else {
      assert es[0] in es;
      ReferenceNext(min, s, es[0], r);
      SoundNext(min, s, es[0]);
      StepKeepsFloor(min, s, es[0], 0);
      ReferenceStays(min, Next(Rules(min), s, es[0]), es[1..], r);
    }
  }

  /** A reference accepted at clock reading `r` on a record with k owners rescues the blob: until
      the next mark is accepted, no removal, queued or in flight, takes it below the smaller of k
      and the minimum; and that mark consults the clock no earlier than a quarter of an hour
      after `r`. */
  lemma ReferenceRescues(min: int, s: State<Op, Blob>, id: nat, es: seq<Event<Op>>, next: Event<Op>)
    requires 1 <= min && Sound(min, s)
    requires Wins(s, id) && s.flights[id].op.Reference?
    requires Guarded(es)
    requires !Condemned(min, Next(Rules(min), s, Commit(id)), es)
    ensures var t := Run(Rules(min), Next(Rules(min), s, Commit(id)), es);
            && !IsGarbage(t.doc)
            && Floor(OwnerCount(s.doc), min) <= OwnerCount(t.doc)
            && (Condemns(t, next) ==> s.flights[id].at + QUARTER <= t.flights[next.id].at)
  {
    var r := s.flights[id].at;
    var u := Next(Rules(min), s, Commit(id));
    GuardHoldsAtCommit(Rules(min), s, id);
    SoundNext(min, s, Commit(id));
    assert Overtaken(u) by {
      assert forall i :: i in u.flights ==> FlightCoherent(Rules(min), s, s.flights[i]);
    }
    ReplicaFloor(min, u, es, OwnerCount(s.doc));
    ReferenceStays(min, u, es, r);
    var t := Run(Rules(min), u, es);
    if Condemns(t, next) {
      GuardHoldsAtCommit(Rules(min), t, next.id);
    }
  }

  /** The commit of an ownership or a reference, accepted. */
  ghost predicate Rescues(s: State<Op, Blob>, e: Event<Op>) {
    e.Commit? && Wins(s, e.id) && (s.flights[e.id].op.Record? || s.flights[e.id].op.Reference?)
  }

  ghost predicate Rescued(min: int, s: State<Op, Blob>, es: seq<Event<Op>>)
    decreases |es|
  {
    es != [] && (Rescues(s, es[0]) || Rescued(min, Next(Rules(min), s, es[0]), es[1..]))
  }

  /** The record is condemned, or already gone. */
  ghost predicate Done(s: State<Op, Blob>) {
    s.doc.None? || s.doc.value.garbage
  }

  lemma CondemnedNext(min: int, s: State<Op, Blob>, e: Event<Op>)
    requires Coherent(Rules(min), s) && Done(s) && !Rescues(s, e)
    ensures var t := Next(Rules(min), s, e); Done(t) && Owners(t.doc) <= Owners(s.doc)
  {
    if e.Commit? && Wins(s, e.id) {
      var f := s.flights[e.id];
      GuardHoldsAtCommit(Rules(min), s, e.id);
      RefusedIff(min, f.op, f.at, s.doc);
      if s.doc.Some? { FieldsAfter(min, f.op, f.at, s.doc.value); }
    }
  }

  /** Unless an ownership or a reference is accepted, a condemned record stays condemned until it is gone,
      stays gone then, and never gets a new owner. */
  lemma {:induction false} CondemnedRun(min: int, s: State<Op, Blob>, es: seq<Event<Op>>)
    requires Coherent(Rules(min), s) && Done(s) && !Rescued(min, s, es)
    ensures var t := Run(Rules(min), s, es);
            Coherent(Rules(min), t) && Done(t) && Owners(t.doc) <= Owners(s.doc)
    decreases |es|
  {
    if es == [] {
    } else {
      CondemnedNext(min, s, es[0]);
      CoherentNext(Rules(min), s, es[0]);
      CondemnedRun(min, Next(Rules(min), s, es[0]), es[1..]);
    }
  }

  /** A guarded removal that has read a condemned record goes through, whatever the clock and the minimum. */
  lemma CondemnedReleases(min: int, s: State<Op, Blob>, id: nat)
    requires id in s.flights && s.flights[id].Fetched? && s.flights[id].op.Release? && IsGarbage(s.flights[id].seen)
    ensures var f := Next(Rules(min), s, Compute(id)).flights[id];
            && f.Ready? && !f.decision.Cancel?
            && (f.decision.Delete? <==> Owners(f.seen) <= {f.op.me})
            && (f.decision.Write? ==> RestKept(f.seen.value, f.decision.doc, f.op.me))
  {
    var f := s.flights[id];
    RefusedIff(min, f.op, s.now, f.seen);
    FieldsAfter(min, f.op, s.now, f.seen.value);
  }

  lemma OneReleased(min: int, s: State<Op, Blob>, id: nat, me: NodeId)
    requires id !in s.flights && IsGarbage(s.doc) && (me in Owners(s.doc) || Owners(s.doc) == {})
    ensures var t := Updated(Rules(min), s, id, Release(me));
            && t.flights == s.flights
            && (t.doc.Some? ==> IsGarbage(t.doc) && Owners(t.doc) < Owners(s.doc))
  {
    var b := s.doc.value;
    UndisturbedUpdate(Rules(min), s, id, Release(me));
    RefusedIff(min, Release(me), s.now, s.doc);
    FieldsAfter(min, Release(me), s.now, b);
    var after := After(min, Release(me), s.now, s.doc);
    if after.Some? {
      var c := after.value;
      assert (b.nodes - {me}).Keys == b.nodes.Keys - {me};
      assert (c.nodes - {me}).Keys == c.nodes.Keys - {me};
      assert c.nodes.Keys == b.nodes.Keys - {me};
      assert me in b.nodes.Keys;
    }
  }

  /** From any state, the owners of a condemned record can remove themselves one after the other, and the
      last one deletes the record. */
  lemma {:induction false} CondemnedVanishes(min: int, s: State<Op, Blob>, id: nat) returns (es: seq<Event<Op>>)
    requires id !in s.flights && IsGarbage(s.doc)
    ensures Run(Rules(min), s, es).doc == None
    ensures forall e :: e in es && e.Read? ==> e.op.Release?
    decreases Owners(s.doc)
  {
    var me: NodeId := "";
    if Owners(s.doc) != {} { me :| me in Owners(s.doc); }
    var t := Updated(Rules(min), s, id, Release(me));
    OneReleased(min, s, id, me);
    var rest := [];
    if t.doc.Some? {
      rest := CondemnedVanishes(min, t, id);
    }
    es := [Read(id, Release(me)), Compute(id), Commit(id)] + rest;
    RunUpdate(Rules(min), s, id, Release(me), rest);
  }
}
