/** Conditional stores and deletes of one file by any number of clients at once. */
module ConditionalWrites {
  import opened Options
  import opened Cas
  import opened Files
  import Conditions

  /** A store carries the documents that its attempts so far have seen. */
  datatype Request =
    | Store(fm: Meta, revs: int, h: Headers, earlier: seq<Option<Meta>>)
    | Delete(h: Headers)
    | Replace(fm: Meta)
    | Note(userdata: string)

  function Respond(r: Request, now: nat, doc: Option<Meta>): Decision<Meta> {
    match r
    case Store(fm, revs, h, earlier) => Retried(fm, revs, h, earlier + [doc])
    case Delete(h) =>
      if Allowed(h, doc) then Decision.Delete else Cancel(PreconditionFailed)
    case Replace(fm) => Write(fm)
    case Note(userdata) =>
      if doc.None? then Cancel(NotFound) else Write(doc.value.(userdata := Some(userdata)))
  }

  predicate Conditional(r: Request) {
    r.Store? || r.Delete?
  }

  const RULES: Callback<Request, Meta> :=
    (r: Request, now: nat, doc: Option<Meta>) => Respond(r, now, doc)

  /** `doc` is one the headers accept: with an If-Match list it exists and the list names it, with
      If-None-Match it is missing or not named. */
  predicate Accepted(ifMatch: Conditions.Condition, ifNoneMatch: Conditions.Condition, doc: Option<Meta>) {
    && (ifMatch.Any? ==> doc.Some?)
    && (ifMatch.List? ==> doc.Some? && Conditions.Named(ifMatch.tags, doc.value.oid))
    && (ifNoneMatch.Any? ==> doc.None?)
    && (ifNoneMatch.List? && doc.Some? ==> !Conditions.Named(ifNoneMatch.tags, doc.value.oid))
  }

  lemma AllowedIff(ifMatch: Conditions.Condition, ifNoneMatch: Conditions.Condition, doc: Option<Meta>)
    requires Conditions.WellFormed(ifMatch) && Conditions.WellFormed(ifNoneMatch)
    requires doc.Some? ==> Conditions.ObjectName(doc.value.oid)
    ensures Allowed(Headers(Conditions.Text(ifMatch), Conditions.Text(ifNoneMatch)), doc) <==>
              Accepted(ifMatch, ifNoneMatch, doc)
  {
    if ifMatch.List? {
      Conditions.ListText(ifMatch);
      if doc.Some? { Conditions.ContainsIffNamed(ifMatch.gaps, ifMatch.tags, doc.value.oid); }
    }
    if ifNoneMatch.List? {
      Conditions.ListText(ifNoneMatch);
      if doc.Some? { Conditions.ContainsIffNamed(ifNoneMatch.gaps, ifNoneMatch.tags, doc.value.oid); }
    }
  }

  /** After any run, a conditional request that is now accepted by the bucket replaces or deletes a
      document its headers accept. */
  lemma NoLostUpdate(start: State<Request, Meta>, es: seq<Event<Request>>, id: nat,
                     ifMatch: Conditions.Condition, ifNoneMatch: Conditions.Condition)
    requires Initial(start)
    requires Conditions.WellFormed(ifMatch) && Conditions.WellFormed(ifNoneMatch)
    ensures var s := Run(RULES, start, es);
            && Wins(s, id) && Conditional(s.flights[id].op)
            && s.flights[id].op.h == Headers(Conditions.Text(ifMatch), Conditions.Text(ifNoneMatch))
            && (s.doc.Some? ==> Conditions.ObjectName(s.doc.value.oid))
            ==> Accepted(ifMatch, ifNoneMatch, s.doc)
  {
    var s := Run(RULES, start, es);
    CoherentRun(RULES, start, es);
    if Wins(s, id) && (s.doc.Some? ==> Conditions.ObjectName(s.doc.value.oid)) {
      GuardHoldsAtCommit(RULES, s, id);
      if Conditional(s.flights[id].op) { NotCancelled(s.flights[id].op, s.doc); }
      AllowedIff(ifMatch, ifNoneMatch, s.doc);
    }
  }

  /** A conditional request that goes through is allowed by its headers. */
  lemma NotCancelled(r: Request, doc: Option<Meta>)
    requires Conditional(r) && !Respond(r, 0, doc).Cancel?
    ensures Allowed(r.h, doc)
    ensures Respond(r, 0, doc).Write? <==> r.Store?
  {
    if r.Store? && !Allowed(r.h, doc) {
      RetriedCancels(r.fm, r.revs, r.h, r.earlier + [doc]);
    }
  }

  /** The commit of a store that insists on creating the file, accepted. */
  predicate Creates(s: State<Request, Meta>, e: Event<Request>) {
    e.Commit? && Wins(s, e.id) && s.flights[e.id].op.Store? && s.flights[e.id].op.h.ifNoneMatch == "*"
  }

  /** The commit of a delete of an existing file, accepted. */
  predicate Deletes(s: State<Request, Meta>, e: Event<Request>) {
    e.Commit? && Wins(s, e.id) && s.flights[e.id].op.Delete? && s.doc.Some?
  }

  function Creations(s: State<Request, Meta>, es: seq<Event<Request>>): nat
    decreases |es|
  {
    if es == [] then 0
    else (if Creates(s, es[0]) then 1 else 0) + Creations(Next(RULES, s, es[0]), es[1..])
  }

  function Deletions(s: State<Request, Meta>, es: seq<Event<Request>>): nat
    decreases |es|
  {
    if es == [] then 0
    else (if Deletes(s, es[0]) then 1 else 0) + Deletions(Next(RULES, s, es[0]), es[1..])
  }

  /** Among all stores that insist on creating the file, at most one succeeds per absence: one at
      the start if the file is missing, and one after each delete of an existing file. */
  lemma {:induction false} CreatedOncePerAbsence(s: State<Request, Meta>, es: seq<Event<Request>>)
    requires Coherent(RULES, s)
    ensures Creations(s, es) <= Deletions(s, es) + if s.doc.None? then 1 else 0
    decreases |es|
  {
    if es == [] {
    } else {
      CoherentNext(RULES, s, es[0]);
      CreatedOncePerAbsence(Next(RULES, s, es[0]), es[1..]);
      if es[0].Commit? && Wins(s, es[0].id) {
        GuardHoldsAtCommit(RULES, s, es[0].id);
        if Conditional(s.flights[es[0].id].op) { NotCancelled(s.flights[es[0].id].op, s.doc); }
      }
    }
  }

  /** A request as a change of the document. */
  function ChangeOf(r: Request): Change {
    match r
    case Store(fm, revs, h, earlier) => Put(fm, revs, h, earlier)
    case Delete(h) => Remove(h)
    case Replace(fm) => Link(fm)
    case Note(userdata) => Annotate(userdata)
  }

  /** The accepted requests of a log, in order. */
  function Changes(log: seq<(Request, nat)>): seq<Change> {
    seq(|log|, i requires 0 <= i < |log| => ChangeOf(log[i].0))
  }

  lemma {:induction false} ReplayApplies(doc: Option<Meta>, log: seq<(Request, nat)>)
    ensures Replay(RULES, doc, log) == ApplyAll(doc, Changes(log))
    decreases |log|
  {
    if log == [] {
    } else {
      var next := Effect(Respond(log[0].0, log[0].1, doc), doc);
      assert next == Apply(doc, ChangeOf(log[0].0));
      assert Changes(log)[1..] == Changes(log[1..]);
      ReplayApplies(next, log[1..]);
    }
  }

  /** After any interleaving of stores, deletes, links and annotations by any number of clients, the document shows
      a window of the history that the accepted requests, in the order of their commits, have made; provided that no
      delete came between the attempts of an accepted store. */
  lemma WindowAfterAnyRun(start: State<Request, Meta>, es: seq<Event<Request>>, hist: seq<Revision>)
    requires Initial(start) && Shows(start.doc, hist)
    requires AllClean(start.doc, Changes(Log(RULES, start, es)))
    ensures Shows(Run(RULES, start, es).doc, FullHistory(hist, start.doc, Changes(Log(RULES, start, es))))
  {
    var log := Log(RULES, start, es);
    RunIsSerial(RULES, start, es);
    ReplayApplies(start.doc, log);
    WindowOfHistory(start.doc, hist, Changes(log));
  }

  /** `m` is `fm` stored over `e`: content from the one, annotation from the other, and the next number. */
  predicate StoredOver(m: Meta, fm: Meta, e: Meta, revs: int) {
    && m.headers == fm.headers && m.oid == fm.oid && m.length == fm.length && m.modified == fm.modified
    && m.userdata == e.userdata && m.revno == e.revno + 1
    && |m.previous| == WindowLength(revs, |e.previous|)
    && (m.previous != [] ==>
          m.previous[|m.previous| - 1] == Revision(e.headers, e.oid, e.length, e.modified, e.revno))
  }

  /** What an accepted store writes, after any run, over the document that is there at that moment. */
  lemma AcceptedStoreWrites(start: State<Request, Meta>, es: seq<Event<Request>>, id: nat)
    requires Initial(start)
    requires var s := Run(RULES, start, es);
             && Wins(s, id) && s.flights[id].op.Store?
             && Clean(s.doc, ChangeOf(s.flights[id].op)) && (s.doc.Some? ==> 0 <= s.doc.value.revno)
    ensures var s := Run(RULES, start, es);
            var op, t := s.flights[id].op, Next(RULES, s, Commit(id));
            && t.doc.Some?
            && if s.doc.Some? then StoredOver(t.doc.value, op.fm, s.doc.value, op.revs) else t.doc.value == op.fm
  {
    var s := Run(RULES, start, es);
    var op := s.flights[id].op;
    CoherentRun(RULES, start, es);
    GuardHoldsAtCommit(RULES, s, id);
    NotCancelled(op, s.doc);
    PutStores(s.doc, ChangeOf(op));
    if s.doc.Some? { StoredIsOver(op.fm, op.revs, s.doc.value); }
  }

  lemma StoredIsOver(fm: Meta, revs: int, e: Meta)
    ensures StoredOver(Stored(fm, revs, Some(e)), fm, e, revs)
  {
  }
}
