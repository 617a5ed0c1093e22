/** Documents in the shared bucket and the compare-and-swap loop that changes them.

An update reads a document together with its version, lets a callback decide, and
writes back only if nobody wrote in between.  A document that was missing is
written with an add, which succeeds whenever the document is missing again.
Any number of updates may be in flight on one document; their read, compute and
write steps interleave freely.  A conflicting update simply starts over, which is
a fresh read.
*/
module Cas {
  import opened Options

  /** Why a callback gave up. */
  datatype Refusal = NoError | NotFound | TooSoon | InsufficientReplicas | PreconditionFailed

  /** What a callback wants done with the document it was shown. */
  datatype Decision<+D> = Write(doc: D) | Delete | Cancel(why: Refusal)

  /** A callback sees the operation's arguments, the clock and the document. */
  type Callback<!O, !D> = (O, nat, Option<D>) -> Decision<D>

  datatype Flight<+O, +D> =
    | Fetched(op: O, version: nat, seen: Option<D>)
    | Ready(op: O, version: nat, seen: Option<D>, at: nat, decision: Decision<D>)

  /** `lastWrite` is the time of the latest change, kept for stating properties. */
  datatype State<O, D> = State(
    now: nat,
    lastWrite: nat,
    doc: Option<D>,
    version: nat,
    flights: map<nat, Flight<O, D>>)

  datatype Event<+O> = Tick(elapsed: nat) | Read(id: nat, op: O) | Compute(id: nat) | Commit(id: nat)

  function Effect<D>(decision: Decision<D>, doc: Option<D>): Option<D> {
    match decision
    case Write(d) => Some(d)
    case Delete => None
    case Cancel(_) => doc
  }

  /** The bucket accepts the write: an add needs a missing document, anything else the version read. */
  predicate Accepts<O, D>(s: State<O, D>, f: Flight<O, D>) {
    if f.seen.None? then s.doc.None? else f.version == s.version
  }

  /** Committing flight `id` now changes the document. */
  predicate Wins<O, D>(s: State<O, D>, id: nat) {
    && id in s.flights
    && s.flights[id].Ready?
    && !s.flights[id].decision.Cancel?
    && Accepts(s, s.flights[id])
  }

  function Next<O, D>(cb: Callback<O, D>, s: State<O, D>, e: Event<O>): State<O, D> {
    match e
    case Tick(elapsed) =>
      s.(now := s.now + elapsed)
    case Read(id, op) =>
      if id in s.flights then s
      else s.(flights := s.flights[id := Fetched(op, s.version, s.doc)])
    case Compute(id) =>
      if id in s.flights && s.flights[id].Fetched? then
        var f := s.flights[id];
        s.(flights := s.flights[id := Ready(f.op, f.version, f.seen, s.now, cb(f.op, s.now, f.seen))])
      else s
    case Commit(id) =>
      var landed := s.(flights := s.flights - {id});
      if Wins(s, id) then
        landed.(doc := Effect(s.flights[id].decision, s.doc), version := s.version + 1, lastWrite := s.now)
      else if id in s.flights && s.flights[id].Ready? then landed
      else s
  }

  function Run<O, D>(cb: Callback<O, D>, s: State<O, D>, es: seq<Event<O>>): State<O, D>
    decreases |es|
  {
    if es == [] then s else Run(cb, Next(cb, s, es[0]), es[1..])
  }

  predicate Initial<O, D>(s: State<O, D>) {
    s.flights == map[] && s.lastWrite <= s.now
  }

  /** What every update in flight still knows about the document. */
  ghost predicate FlightCoherent<O, D>(cb: Callback<O, D>, s: State<O, D>, f: Flight<O, D>) {
    && f.version <= s.version
    && (f.seen.Some? && f.version == s.version ==> f.seen == s.doc)
    && (f.Ready? ==>
          && f.at <= s.now
          && f.decision == cb(f.op, f.at, f.seen)
          && (f.seen.Some? && f.version == s.version ==> s.lastWrite <= f.at))
  }

  ghost predicate Coherent<O, D>(cb: Callback<O, D>, s: State<O, D>) {
    && s.lastWrite <= s.now
    && forall id :: id in s.flights ==> FlightCoherent(cb, s, s.flights[id])
  }

  lemma CoherentNext<O, D>(cb: Callback<O, D>, s: State<O, D>, e: Event<O>)
    requires Coherent(cb, s)
    ensures Coherent(cb, Next(cb, s, e))
  {
  }

  lemma {:induction false} CoherentRun<O, D>(cb: Callback<O, D>, s: State<O, D>, es: seq<Event<O>>)
    requires Coherent(cb, s)
    ensures Coherent(cb, Run(cb, s, es))
    decreases |es|
  {
    if es == [] {
    } else {
      CoherentNext(cb, s, es[0]);
      CoherentRun(cb, Next(cb, s, es[0]), es[1..]);
    }
  }

  /** Whatever a callback decided about the document it read, it would decide, with the same clock
      reading, about the document its accepted write replaces; and no accepted change to an existing
      document happened after the callback consulted the clock. */
  lemma GuardHoldsAtCommit<O, D>(cb: Callback<O, D>, s: State<O, D>, id: nat)
    requires Coherent(cb, s)
    requires Wins(s, id)
    ensures s.flights[id].seen == s.doc
    ensures s.flights[id].decision == cb(s.flights[id].op, s.flights[id].at, s.doc)
    ensures s.flights[id].at <= s.now
    ensures s.doc.Some? ==> s.lastWrite <= s.flights[id].at
  {
  }

  /** The three steps of an update, with nothing in between. */
  function Updated<O, D>(cb: Callback<O, D>, s: State<O, D>, id: nat, op: O): State<O, D> {
    Next(cb, Next(cb, Next(cb, s, Read(id, op)), Compute(id)), Commit(id))
  }

  /** An update that nobody disturbs does to the document what its callback says, and leaves the
      other updates in flight alone. */
  lemma UndisturbedUpdate<O, D>(cb: Callback<O, D>, s: State<O, D>, id: nat, op: O)
    requires id !in s.flights
    ensures var t := Updated(cb, s, id, op);
            && t.doc == Effect(cb(op, s.now, s.doc), s.doc)
            && t.now == s.now && t.flights == s.flights
  {
    var s2 := Next(cb, Next(cb, s, Read(id, op)), Compute(id));
    assert s2.flights - {id} == s.flights;
  }

  lemma RunUpdate<O, D>(cb: Callback<O, D>, s: State<O, D>, id: nat, op: O, rest: seq<Event<O>>)
    ensures Run(cb, s, [Read(id, op), Compute(id), Commit(id)] + rest) == Run(cb, Updated(cb, s, id, op), rest)
  {
    var es := [Read(id, op), Compute(id), Commit(id)] + rest;
    var s1 := Next(cb, s, Read(id, op));
    assert es[1..] == [Compute(id), Commit(id)] + rest;
    assert es[1..][1..] == [Commit(id)] + rest;
    assert es[1..][1..][1..] == rest;
    assert Run(cb, s, es) == Run(cb, s1, es[1..]);
    assert Run(cb, s1, es[1..]) == Run(cb, Next(cb, s1, Compute(id)), es[1..][1..]);
  }

  /** A commit ends the update, whether it was accepted or not, and it touches no other; so a late one
      can start over.  The document changes only if it was accepted. */
  lemma CommitEnds<O, D>(cb: Callback<O, D>, s: State<O, D>, id: nat)
    requires id in s.flights && s.flights[id].Ready?
    ensures var t := Next(cb, s, Commit(id));
            && t.flights == s.flights - {id}
            && (!Wins(s, id) ==> t.doc == s.doc && t.version == s.version)
            && (Wins(s, id) ==> t.version > s.version)
  {
  }

  /** The accepted updates of a run, in commit order, each with the clock reading it used. */
  function Log<O, D>(cb: Callback<O, D>, s: State<O, D>, es: seq<Event<O>>): seq<(O, nat)>
    decreases |es|
  {
    if es == [] then []
    else
      var here := if es[0].Commit? && Wins(s, es[0].id)
                  then [(s.flights[es[0].id].op, s.flights[es[0].id].at)] else [];
      here + Log(cb, Next(cb, s, es[0]), es[1..])
  }

  /** The same updates executed one after the other, each in a single step. */
  function Replay<O, D>(cb: Callback<O, D>, doc: Option<D>, log: seq<(O, nat)>): Option<D>
    decreases |log|
  {
    if log == [] then doc
    else Replay(cb, Effect(cb(log[0].0, log[0].1, doc), doc), log[1..])
  }

  /** Every interleaving of reads, computations and conditional writes leaves the document as
      some sequence of atomic updates would. */
  lemma {:induction false} RunIsSerial<O, D>(cb: Callback<O, D>, s: State<O, D>, es: seq<Event<O>>)
    requires Coherent(cb, s)
    ensures Run(cb, s, es).doc == Replay(cb, s.doc, Log(cb, s, es))
    decreases |es|
  {
    if es == [] {
    } else {
      var t := Next(cb, s, es[0]);
      CoherentNext(cb, s, es[0]);
      RunIsSerial(cb, t, es[1..]);
      var rest := Log(cb, t, es[1..]);
      if es[0].Commit? && Wins(s, es[0].id) {
        var f := s.flights[es[0].id];
        GuardHoldsAtCommit(cb, s, es[0].id);
        var log := [(f.op, f.at)] + rest;
        assert log[1..] == rest;
      } else {
        assert [] + rest == rest;
      }
    }
  }
}
