/** The ownership record of one blob and the operations nodes perform on it.

A record lists the nodes that hold the blob, each with the time it last stored or
verified it, the time the blob was last referenced by a link, and whether the
garbage collector has condemned it.  Times are nanoseconds; 0 is the zero time.
*/
module Ownership {
  import opened Options
  import opened Cas

  type NodeId = string

  const MINUTE: nat := 60_000_000_000
  const QUARTER: nat := 15 * MINUTE
  const HOUR: nat := 60 * MINUTE

  datatype Blob = Blob(length: int, nodes: map<NodeId, nat>, garbage: bool, referenced: nat)

  datatype Op =
    | Record(me: NodeId, length: int, force: bool)
    | Reference
    | MarkGarbage
    | Drop(me: NodeId, node: NodeId)   // unguarded removal of `node`, executed by `me`
    | Release(me: NodeId)              // guarded removal of `me` by itself

  /** The most recent stamp among the owners, the zero time if there is none. */
  ghost function LatestStamp(nodes: map<NodeId, nat>): (t: nat)
    ensures forall n :: n in nodes ==> nodes[n] <= t
    ensures t == 0 || exists n :: n in nodes && nodes[n] == t
  {
    if nodes == map[] then 0
    else
      var n :| n in nodes;
      var rest := nodes - {n};
      var t := LatestStamp(rest);
      assert forall m :: m in nodes ==> m == n || (m in rest && rest[m] == nodes[m]);
      if nodes[n] > t then nodes[n] else t
  }

  ghost function LatestReference(b: Blob): (t: nat)
    ensures b.referenced <= t
    ensures forall n :: n in b.nodes ==> b.nodes[n] <= t
    ensures t == b.referenced || exists n :: n in b.nodes && b.nodes[n] == t
  {
    var t := LatestStamp(b.nodes);
    if b.referenced > t then b.referenced else t
  }

  function StampOf(b: Blob, n: NodeId): nat {
    if n in b.nodes then b.nodes[n] else 0
  }

  function OwnerCount(doc: Option<Blob>): nat {
    if doc.Some? then |doc.value.nodes| else 0
  }

  function Owners(doc: Option<Blob>): set<NodeId> {
    if doc.Some? then doc.value.nodes.Keys else {}
  }

  predicate IsGarbage(doc: Option<Blob>) {
    doc.Some? && doc.value.garbage
  }

  /** What the callback of each operation decides; `min` is the configured minimum replica count. */
  ghost function Decide(min: int, op: Op, now: nat, doc: Option<Blob>): Decision<Blob> {
    match op
    case Record(me, length, force) =>
      if doc.None? then Write(Blob(length, map[me := now], false, 0))
      else if me in doc.value.nodes && !force then Cancel(NoError)
      else Write(Blob(length, doc.value.nodes[me := now], false, doc.value.referenced))
    case Reference =>
      if doc.None? then Cancel(NotFound)
      else Write(doc.value.(referenced := now, garbage := false))
    case MarkGarbage =>
      if doc.None? then Cancel(NotFound)
      else if now - LatestReference(doc.value) < QUARTER then Cancel(TooSoon)
      else Write(doc.value.(garbage := true))
    case Drop(me, node) =>
      if doc.None? then Cancel(NoError)
      else
        var left := doc.value.nodes - {node};
        if left == map[] && node == me then Delete else Write(doc.value.(nodes := left))
    case Release(me) =>
      if doc.None? then Cancel(NoError)
      else if !doc.value.garbage && now - StampOf(doc.value, me) < HOUR then Cancel(TooSoon)
      else if !doc.value.garbage && |doc.value.nodes| - 1 < min then Cancel(InsufficientReplicas)
      else
        var left := doc.value.nodes - {me};
        if left == map[] then Delete else Write(doc.value.(nodes := left))
  }

  ghost function Rules(min: int): Cas.Callback<Op, Blob> {
    (op: Op, now: nat, doc: Option<Blob>) => Decide(min, op, now, doc)
  }

  /** The record after `op` as one uninterrupted step. */
  ghost function After(min: int, op: Op, now: nat, doc: Option<Blob>): Option<Blob> {
    Effect(Decide(min, op, now, doc), doc)
  }

  ghost function LatestOf(doc: Option<Blob>): nat {
    if doc.Some? then LatestReference(doc.value) else 0
  }

  /** No update writes a stamp from the future. */
  lemma StampsStayPast(min: int, op: Op, now: nat, doc: Option<Blob>)
    requires LatestOf(doc) <= now
    ensures LatestOf(After(min, op, now, doc)) <= now
  {
  }

  /** When an operation is refused, and with what answer. */
  lemma RefusedIff(min: int, op: Op, now: nat, doc: Option<Blob>)
    ensures var d := Decide(min, op, now, doc);
            match op
            case Record(me, _, force) => d == Cancel(NoError) <==> doc.Some? && me in doc.value.nodes && !force
            case Reference => d == Cancel(NotFound) <==> doc.None?
            case MarkGarbage =>
              && (d == Cancel(NotFound) <==> doc.None?)
              && (d == Cancel(TooSoon) <==> doc.Some? && now - LatestReference(doc.value) < QUARTER)
            case Drop(_, _) => d == Cancel(NoError) <==> doc.None?
            case Release(me) =>
              && (d == Cancel(NoError) <==> doc.None?)
              && (d == Cancel(TooSoon) <==>
                    doc.Some? && !doc.value.garbage && now - StampOf(doc.value, me) < HOUR)
              && (d == Cancel(InsufficientReplicas) <==>
                    && doc.Some? && !doc.value.garbage
                    && now - StampOf(doc.value, me) >= HOUR && |doc.value.nodes| <= min)
    ensures var d := Decide(min, op, now, doc);
            d.Cancel? ==>
              match op
              case Record(_, _, _) => d.why == NoError
              case Reference => d.why == NotFound
              case MarkGarbage => d.why in {NotFound, TooSoon}
              case Drop(_, _) => d.why == NoError
              case Release(_) => d.why in {NoError, TooSoon, InsufficientReplicas}
  {
  }

  /** `b` and `c` list the same owners with the same stamps, except for `n`. */
  predicate SameOthers(b: Blob, c: Blob, n: NodeId) {
    b.nodes - {n} == c.nodes - {n}
  }

  /** Nothing but the owner `n` is gone. */
  predicate RestKept(b: Blob, c: Blob, n: NodeId) {
    && c.length == b.length && c.garbage == b.garbage && c.referenced == b.referenced
    && n !in c.nodes && SameOthers(b, c, n)
  }

  lemma EmptyLeft(nodes: map<NodeId, nat>, n: NodeId)
    ensures nodes - {n} == map[] <==> nodes.Keys <= {n}
    ensures nodes - {n} - {n} == nodes - {n}
  {
    if nodes.Keys <= {n} {
      assert forall m :: m !in nodes - {n};
    } else {
      var m :| m in nodes && m != n;
      assert m in nodes - {n};
    }
  }

  lemma RemovalFields(min: int, op: Op, now: nat, b: Blob, n: NodeId)
    requires !Decide(min, op, now, Some(b)).Cancel?
    requires (op.Drop? && op.node == n) || (op.Release? && op.me == n)
    ensures var after := After(min, op, now, Some(b));
            && (after.None? <==> b.nodes.Keys <= {n} && op.me == n)
            && (after.Some? ==> RestKept(b, after.value, n))
  {
    EmptyLeft(b.nodes, n);
  }

  /** What an operation that is not refused does to each field of an existing record, and when it deletes
      the record. */
  lemma FieldsAfter(min: int, op: Op, now: nat, b: Blob)
    requires !Decide(min, op, now, Some(b)).Cancel?
    ensures var after := After(min, op, now, Some(b));
            match op
            case Record(me, length, _) =>
              && after.Some? && var c := after.value;
              && c.length == length && !c.garbage && c.referenced == b.referenced
              && SameOthers(b, c, me) && me in c.nodes && c.nodes[me] == now
            case Reference =>
              && after.Some? && var c := after.value;
              && c.length == b.length && !c.garbage && c.referenced == now && c.nodes == b.nodes
            case MarkGarbage =>
              && after.Some? && var c := after.value;
              && c.length == b.length && c.garbage && c.referenced == b.referenced && c.nodes == b.nodes
            case Drop(me, node) =>
              && (after.None? <==> b.nodes.Keys <= {node} && me == node)
              && (after.Some? ==> RestKept(b, after.value, node))
            case Release(me) =>
              && (after.None? <==> b.nodes.Keys <= {me})
              && (after.Some? ==> RestKept(b, after.value, me))
  {
    match op {
      case Record(me, _, _) => assert b.nodes[me := now] - {me} == b.nodes - {me};
      case Drop(_, node) => RemovalFields(min, op, now, b, node);
      case Release(me) => RemovalFields(min, op, now, b, me);
      case _ =>
    }
  }

  /** A new record lists just its creator. */
  lemma FieldsCreated(min: int, me: NodeId, length: int, force: bool, now: nat)
    ensures var after := After(min, Record(me, length, force), now, None);
            && after.Some? && var c := after.value;
            && c.length == length && !c.garbage && c.referenced == 0
            && c.nodes.Keys == {me} && c.nodes[me] == now
  {
  }

  lemma KeysLeft(nodes: map<NodeId, nat>, n: NodeId)
    ensures |nodes - {n}| == |nodes.Keys - {n}|
  {
    assert (nodes - {n}).Keys == nodes.Keys - {n};
  }

  /** The record as the nodes change it: each method is one uncontended run of the update loop. */
  class Document {
    var doc: Option<Blob>

    constructor ()
      ensures doc == None
    {
      doc := None;
    }

    method RecordOwnership(me: NodeId, length: int, force: bool, now: nat)
      modifies this
      ensures forall min :: doc == After(min, Record(me, length, force), now, old(doc))
    {
      if doc.Some? {
        if me in doc.value.nodes && !force {
          return;
        }
        doc := Some(doc.value.(nodes := doc.value.nodes[me := now]));
      } else {
        doc := Some(Blob(0, map[me := now], false, 0));
      }
      doc := Some(doc.value.(length := length, garbage := false));
    }

    method ReferenceBlob(now: nat) returns (result: Option<Blob>)
      modifies this
      ensures forall min :: doc == After(min, Reference, now, old(doc))
      ensures old(doc).Some? ==> result == doc
      ensures old(doc).None? ==> result == None
    {
      if doc.None? {
        return None;
      }
      var ownership := doc.value;
      ownership := ownership.(referenced := now);
      ownership := ownership.(garbage := false);
      doc := Some(ownership);
      return doc;
    }

    /** Scans the owners for the most recent stamp. */
    method MostRecent() returns (node: NodeId, t: nat)
      requires doc.Some?
      ensures t == LatestStamp(doc.value.nodes)
      ensures t > 0 ==> node in doc.value.nodes && doc.value.nodes[node] == t
      ensures t == 0 ==> node == ""
    {
      node, t := "", 0;
      var left := doc.value.nodes.Keys;
      while left != {}
        invariant left <= doc.value.nodes.Keys
        invariant forall n :: n in doc.value.nodes && n !in left ==> doc.value.nodes[n] <= t
        invariant t > 0 ==> node in doc.value.nodes && doc.value.nodes[node] == t
        invariant t == 0 ==> node == ""
        decreases left
      {
        var n :| n in left;
        if doc.value.nodes[n] > t {
          node, t := n, doc.value.nodes[n];
        }
        left := left - {n};
      }
    }

    method MarkGarbage(now: nat) returns (why: Refusal)
      modifies this
      ensures forall min :: doc == After(min, Op.MarkGarbage, now, old(doc))
      ensures why == if old(doc).None? then NotFound
                     else if now - LatestReference(old(doc).value) < QUARTER then TooSoon else NoError
    {
      if doc.None? {
        return NotFound;
      }
      var _, t := MostRecent();
      if doc.value.referenced > t {
        t := doc.value.referenced;
      }
      if now - t < QUARTER {
        return TooSoon;
      }
      doc := Some(doc.value.(garbage := true));
      return NoError;
    }

    /** Returns the number of owners left, -1 if there was no record.  `earlier` are the records met by
        attempts that came too late, `fails` says that the last write met an error of the bucket. */
    method RemoveOwnershipRecord(me: NodeId, node: NodeId, earlier: seq<Blob>, fails: bool) returns (numOwners: int)
      modifies this
      ensures fails ==> doc == old(doc)
      ensures !fails ==> forall min, now :: doc == After(min, Drop(me, node), now, old(doc))
      ensures old(doc).Some? ==> numOwners == if fails then -1 else |old(doc).value.nodes.Keys - {node}|
      ensures old(doc).None? ==>
                numOwners == if earlier == [] then -1 else |earlier[|earlier| - 1].nodes.Keys - {node}|
    {
      numOwners := -1;
      for i := 0 to |earlier|
        invariant doc == old(doc)
        invariant numOwners == if i == 0 then -1 else |earlier[i - 1].nodes.Keys - {node}|
      {
        var nodes := earlier[i].nodes - {node};
        KeysLeft(earlier[i].nodes, node);
        numOwners := |nodes|;
      }
      if doc.None? {
        return;
      }
      var nodes := doc.value.nodes - {node};
      KeysLeft(doc.value.nodes, node);
      numOwners := |nodes|;
      if fails {
        return -1;
      }
      doc := if |nodes| == 0 && node == me then None else Some(doc.value.(nodes := nodes));
    }

    /** An error of the bucket goes unnoticed: `why` is only what the callback decided. */
    method MaybeRemoveOwnership(me: NodeId, min: int, now: nat, fails: bool) returns (why: Refusal)
      modifies this
      ensures doc == if fails then old(doc) else After(min, Release(me), now, old(doc))
      ensures why == if old(doc).None? || old(doc).value.garbage then NoError
                     else if now - StampOf(old(doc).value, me) < HOUR then TooSoon
                     else if |old(doc).value.nodes| - 1 < min then InsufficientReplicas else NoError
    {
      if doc.None? {
        return NoError;
      }
      if doc.value.garbage {
      } else if now - StampOf(doc.value, me) < HOUR {
        return TooSoon;
      } else if |doc.value.nodes| - 1 < min {
        return InsufficientReplicas;
      }
      if fails {
        return NoError;
      }
      var nodes := doc.value.nodes - {me};
      if |nodes| == 0 {
        doc := None;
      } else {
        doc := Some(doc.value.(nodes := nodes));
      }
      return NoError;
    }
  }

  /** An update that is accepted would also pass its guards at that very instant. */
  lemma GuardPassesAtCommit(min: int, s: State<Op, Blob>, id: nat)
    requires Coherent(Rules(min), s) && Wins(s, id)
    ensures !Decide(min, s.flights[id].op, s.now, s.doc).Cancel?
    ensures s.flights[id].op.MarkGarbage? || s.flights[id].op.Drop? || s.flights[id].op.Release? ==>
              s.flights[id].decision == Decide(min, s.flights[id].op, s.now, s.doc)
  {
    GuardHoldsAtCommit(Rules(min), s, id);
  }
}
