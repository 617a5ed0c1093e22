/** File documents: revisions, conditional stores and deletes. */
module Files {
  import opened Options
  import opened Cas
  import Conditions

  datatype Revision = Revision(headers: string, oid: string, length: int, modified: nat, revno: int)

  datatype Meta = Meta(
    headers: string,
    oid: string,
    length: int,
    modified: nat,
    userdata: Option<string>,
    previous: seq<Revision>,
    revno: int)

  /** The two conditional headers; "" when not sent. */
  datatype Headers = Headers(ifMatch: string, ifNoneMatch: string)

  predicate Allowed(h: Headers, existing: Option<Meta>) {
    Conditions.ShouldStore(h.ifMatch, h.ifNoneMatch, existing.Some?, if existing.Some? then existing.value.oid else "")
  }

  function Current(m: Meta): Revision {
    Revision(m.headers, m.oid, m.length, m.modified, m.revno)
  }

  /** A document as an upload first builds it. */
  predicate Fresh(fm: Meta) {
    fm.userdata == None && fm.previous == [] && fm.revno == 0
  }

  /** The old revisions kept by a store: -1 keeps all, a positive number that many, anything else none. */
  function Window(existing: Meta, revs: int): seq<Revision> {
    var all := existing.previous + [Current(existing)];
    if revs == -1 then all
    else if revs > 0 then all[if |all| > revs then |all| - revs else 0..]
    else []
  }

  /** What a store makes of the existing document when nothing went before. */
  function Stored(fm: Meta, revs: int, existing: Option<Meta>): Meta {
    match existing
    case None => fm
    case Some(e) => fm.(userdata := e.userdata, revno := e.revno + 1, previous := Window(e, revs))
  }

  /** The store of one file.  The callback changes the captured document, so what an attempt writes
      depends on the attempts before it. */
  class Upload {
    var fm: Meta

    constructor (fm: Meta)
      ensures this.fm == fm
    {
      this.fm := fm;
    }

    method Attempt(revs: int, h: Headers, existing: Option<Meta>) returns (d: Decision<Meta>)
      modifies this
      ensures fm == AfterAttempt(old(fm), revs, h, existing)
      ensures d == if Allowed(h, existing) then Write(fm) else Cancel(PreconditionFailed)
    {
      if !Allowed(h, existing) {
        return Cancel(PreconditionFailed);
      }
      if existing.Some? {
        var e := existing.value;
        fm := fm.(userdata := e.userdata);
        fm := fm.(revno := e.revno + 1);
        if revs == -1 || revs > 0 {
          var newMeta := Revision(e.headers, e.oid, e.length, e.modified, e.revno);
          fm := fm.(previous := e.previous + [newMeta]);
          var diff := |fm.previous| - revs;
          if revs != -1 && diff > 0 {
            fm := fm.(previous := fm.previous[diff..]);
          }
        }
      }
      return Write(fm);
    }

    /** One store: the callback runs on every document the retries come across; the last write is
        the one accepted. */
    method Store(revs: int, h: Headers, seen: seq<Option<Meta>>) returns (d: Decision<Meta>)
      requires seen != []
      modifies this
      ensures d == Retried(old(fm), revs, h, seen)
    {
      d := Cancel(NoError);
      ghost var fm0 := fm;
      for i := 0 to |seen|
        invariant i > 0 ==> !d.Cancel?
        invariant Retried(fm0, revs, h, seen) == if i == |seen| then d else Retried(fm, revs, h, seen[i..])
      {
        d := Attempt(revs, h, seen[i]);
        if d.Cancel? {
          return;
        }
      }
    }
  }

  /** The captured document after one run of the callback. */
  function AfterAttempt(fm: Meta, revs: int, h: Headers, existing: Option<Meta>): Meta {
    if !Allowed(h, existing) || existing.None? then fm
    else
      var e := existing.value;
      var kept := if revs == -1 || revs > 0 then Window(e, revs) else fm.previous;
      fm.(userdata := e.userdata, revno := e.revno + 1, previous := kept)
  }

  /** The outcome of a store whose callback is shown the documents `seen`, one per attempt. */
  function Retried(fm: Meta, revs: int, h: Headers, seen: seq<Option<Meta>>): (d: Decision<Meta>)
    requires seen != []
    ensures !d.Delete?
    decreases |seen|
  {
    if !Allowed(h, seen[0]) then Cancel(PreconditionFailed)
    else if |seen| == 1 then Write(AfterAttempt(fm, revs, h, seen[0]))
    else Retried(AfterAttempt(fm, revs, h, seen[0]), revs, h, seen[1..])
  }

  predicate AllAllowed(h: Headers, seen: seq<Option<Meta>>) {
    forall i :: 0 <= i < |seen| ==> Allowed(h, seen[i]) && (seen[i].Some? ==> 0 <= seen[i].value.revno)
  }

  predicate AllMissing(seen: seq<Option<Meta>>) {
    forall i :: 0 <= i < |seen| ==> seen[i].None?
  }

  /** The last document among those seen that was not missing. */
  function LastExisting(seen: seq<Option<Meta>>): Option<Meta> {
    if seen == [] then None
    else if seen[|seen| - 1].Some? then seen[|seen| - 1]
    else LastExisting(seen[..|seen| - 1])
  }

  lemma {:induction false} LastExistingCons(first: Option<Meta>, rest: seq<Option<Meta>>)
    ensures LastExisting([first] + rest) == if LastExisting(rest).Some? then LastExisting(rest) else first
  {
    var seen := [first] + rest;
    if rest == [] {
    } else {
      var n := |rest| - 1;
      assert seen[..|seen| - 1] == [first] + rest[..n];
      LastExistingCons(first, rest[..n]);
    }
  }

  lemma {:induction false} LastExistingNone(seen: seq<Option<Meta>>)
    ensures LastExisting(seen).None? <==> AllMissing(seen)
    ensures LastExisting(seen).Some? ==> LastExisting(seen) in seen
  {
    if seen == [] {
    } else {
      LastExistingNone(seen[..|seen| - 1]);
    }
  }

  lemma StoredTwice(fm: Meta, revs: int, first: Option<Meta>, second: Option<Meta>)
    ensures Stored(Stored(fm, revs, first), revs, second) == Stored(fm, revs, if second.Some? then second else first)
  {
  }

  /** A retried store writes what a first attempt would have written on the last document that any
      attempt saw, even if that document was deleted afterwards. */
  lemma {:induction false} RetriedResult(fm: Meta, revs: int, h: Headers, seen: seq<Option<Meta>>)
    requires seen != [] && AllAllowed(h, seen)
    requires revs == -1 || revs > 0 || fm.previous == []
    ensures Retried(fm, revs, h, seen) == Write(Stored(fm, revs, LastExisting(seen)))
    decreases |seen|
  {
    assert Allowed(h, seen[0]);
    assert seen == [seen[0]] + seen[1..];
    LastExistingCons(seen[0], seen[1..]);
    if |seen| == 1 {
    } else {
      var fm1, rest := AfterAttempt(fm, revs, h, seen[0]), seen[1..];
      assert fm1 == Stored(fm, revs, seen[0]);
      RetriedResult(fm1, revs, h, rest);
      StoredTwice(fm, revs, seen[0], LastExisting(rest));
    }
  }

  /** A store that is retried writes what a first attempt on the last document would have written,
      exactly when that document exists or no attempt before it saw one. */
  lemma RetryIsCleanIff(fm: Meta, revs: int, h: Headers, seen: seq<Option<Meta>>)
    requires Fresh(fm) && seen != [] && AllAllowed(h, seen)
    ensures Retried(fm, revs, h, seen) == Write(Stored(fm, revs, seen[|seen| - 1]))
       <==> seen[|seen| - 1].Some? || AllMissing(seen)
  {
    RetriedResult(fm, revs, h, seen);
    LastExistingNone(seen);
  }

  /** Otherwise, if old revisions are kept, the newest of them is the document deleted in between. */
  lemma DeletedComesBack(fm: Meta, revs: int, h: Headers, seen: seq<Option<Meta>>)
    requires Fresh(fm) && seen != [] && AllAllowed(h, seen) && (revs == -1 || revs > 0)
    requires seen[|seen| - 1].None? && !AllMissing(seen)
    ensures LastExisting(seen).Some?
    ensures var d := Retried(fm, revs, h, seen);
            d.Write? && d.doc.previous != [] &&
            d.doc.previous[|d.doc.previous| - 1] == Current(LastExisting(seen).value)
  {
    RetriedResult(fm, revs, h, seen);
    LastExistingNone(seen);
  }

  datatype Change =
    | Put(fm: Meta, revs: int, h: Headers, earlier: seq<Option<Meta>>)   // documents seen by failed attempts
    | Remove(h: Headers)
    | Link(fm: Meta)
    | Annotate(userdata: string)

  function Apply(doc: Option<Meta>, c: Change): Option<Meta> {
    match c
    case Put(fm, revs, h, earlier) => Effect(Retried(fm, revs, h, earlier + [doc]), doc)
    case Remove(h) => if Allowed(h, doc) then None else doc
    case Link(fm) => Some(fm)
    case Annotate(userdata) => if doc.Some? then Some(doc.value.(userdata := Some(userdata))) else None
  }

  /** Documents are built fresh, and no delete came between the attempts of a store. */
  predicate Clean(doc: Option<Meta>, c: Change) {
    && (c.Put? || c.Link? ==> Fresh(c.fm))
    && (c.Put? ==> AllAllowed(c.h, c.earlier) && (doc.Some? || AllMissing(c.earlier)))
  }

  /** Every revision since the file was created or last linked, oldest first. */
  function History(hist: seq<Revision>, doc: Option<Meta>, c: Change): seq<Revision> {
    match c
    case Put(fm, _, h, _) =>
      if Allowed(h, doc) then hist + [Current(fm).(revno := |hist|)] else hist
    case Remove(h) => if Allowed(h, doc) then [] else hist
    case Link(fm) => [Current(fm)]
    case Annotate(_) => hist
  }

  /** The document shows the newest revision and an unbroken run of the ones just before it. */
  predicate Shows(doc: Option<Meta>, hist: seq<Revision>) {
    && (forall i :: 0 <= i < |hist| ==> hist[i].revno == i)
    && (doc.None? <==> hist == [])
    && (doc.Some? ==>
          var m, n := doc.value, |hist| - 1;
          && Current(m) == hist[n]
          && |m.previous| <= n
          && m.previous == hist[n - |m.previous|..n])
  }

  function WindowLength(revs: int, before: nat): nat {
    if revs == -1 then before + 1
    else if revs > 0 then if before + 1 < revs then before + 1 else revs
    else 0
  }

  lemma ShowsStored(hist: seq<Revision>, m: Meta, fm: Meta, revs: int)
    requires Shows(Some(m), hist) && Fresh(fm)
    ensures var s := Stored(fm, revs, Some(m));
            && Shows(Some(s), hist + [Current(fm).(revno := |hist|)])
            && |s.previous| == WindowLength(revs, |m.previous|)
            && s.userdata == m.userdata
  {
  }

  /** However often it was retried, a clean store that is let through stores over the last document seen. */
  lemma PutStores(doc: Option<Meta>, c: Change)
    requires c.Put? && Clean(doc, c) && Allowed(c.h, doc)
    requires doc.Some? ==> 0 <= doc.value.revno
    ensures Apply(doc, c) == Some(Stored(c.fm, c.revs, doc))
  {
    var seen := c.earlier + [doc];
    assert AllAllowed(c.h, seen);
    assert doc.None? ==> AllMissing(seen);
    LastExistingNone(seen);
    RetriedResult(c.fm, c.revs, c.h, seen);
  }

  /** A store that is let through adds one revision to the history. */
  lemma ShowsPut(doc: Option<Meta>, hist: seq<Revision>, c: Change)
    requires Shows(doc, hist) && Clean(doc, c)
    requires c.Put? && Allowed(c.h, doc)
    ensures Shows(Apply(doc, c), hist + [Current(c.fm).(revno := |hist|)])
    ensures doc.Some? ==>
              && |Apply(doc, c).value.previous| == WindowLength(c.revs, |doc.value.previous|)
              && Apply(doc, c).value.userdata == doc.value.userdata
  {
    assert doc.Some? ==> doc.value.revno == |hist| - 1;
    PutStores(doc, c);
    if doc.Some? { ShowsStored(hist, doc.value, c.fm, c.revs); }
  }

  /** One change keeps the document in step with the history. */
  lemma ShowsNext(doc: Option<Meta>, hist: seq<Revision>, c: Change)
    requires Shows(doc, hist) && Clean(doc, c)
    ensures Shows(Apply(doc, c), History(hist, doc, c))
    ensures c.Put? && Allowed(c.h, doc) && doc.Some? ==>
              && |Apply(doc, c).value.previous| == WindowLength(c.revs, |doc.value.previous|)
              && Apply(doc, c).value.userdata == doc.value.userdata
    ensures c.Annotate? && doc.Some? ==>
              Apply(doc, c).Some? && var m := Apply(doc, c).value;
              m.userdata == Some(c.userdata) && Current(m) == Current(doc.value) && m.previous == doc.value.previous
  {
    if c.Put? {
      if Allowed(c.h, doc) {
        ShowsPut(doc, hist, c);
      } else {
        RetriedCancels(c.fm, c.revs, c.h, c.earlier + [doc]);
      }
    }
  }

  lemma {:induction false} RetriedCancels(fm: Meta, revs: int, h: Headers, seen: seq<Option<Meta>>)
    requires seen != [] && !Allowed(h, seen[|seen| - 1])
    ensures Retried(fm, revs, h, seen).Cancel?
    decreases |seen|
  {
    if |seen| > 1 && Allowed(h, seen[0]) {
      RetriedCancels(AfterAttempt(fm, revs, h, seen[0]), revs, h, seen[1..]);
    }
  }

  function ApplyAll(doc: Option<Meta>, cs: seq<Change>): Option<Meta>
    decreases |cs|
  {
    if cs == [] then doc else ApplyAll(Apply(doc, cs[0]), cs[1..])
  }

  function FullHistory(hist: seq<Revision>, doc: Option<Meta>, cs: seq<Change>): seq<Revision>
    decreases |cs|
  {
    if cs == [] then hist else FullHistory(History(hist, doc, cs[0]), Apply(doc, cs[0]), cs[1..])
  }

  predicate AllClean(doc: Option<Meta>, cs: seq<Change>)
    decreases |cs|
  {
    cs == [] || (Clean(doc, cs[0]) && AllClean(Apply(doc, cs[0]), cs[1..]))
  }

  /** Over any sequence of stores, links, deletes and annotations, whatever numbers of revisions
      they ask to keep, the document shows a window of the full history. */
  lemma {:induction false} WindowOfHistory(doc: Option<Meta>, hist: seq<Revision>, cs: seq<Change>)
    requires Shows(doc, hist) && AllClean(doc, cs)
    ensures Shows(ApplyAll(doc, cs), FullHistory(hist, doc, cs))
    decreases |cs|
  {
    if cs == [] {
    } else {
      ShowsNext(doc, hist, cs[0]);
      WindowOfHistory(Apply(doc, cs[0]), History(hist, doc, cs[0]), cs[1..]);
    }
  }

  /** Looks an old revision up by number; "" when it is not there, which is also the answer for the
      current revision. */
  method FindRevision(m: Meta, revno: int) returns (oid: string)
    ensures oid != "" ==> exists k :: 0 <= k < |m.previous| && m.previous[k].revno == revno && m.previous[k].oid == oid
    ensures forall hist: seq<Revision> :: Shows(Some(m), hist) ==>
              oid == if |hist| - 1 - |m.previous| <= revno < |hist| - 1 then hist[revno].oid else ""
  {
    oid := "";
    for i := 0 to |m.previous|
      invariant oid == ""
      invariant forall k :: 0 <= k < i ==> m.previous[k].revno != revno
    {
      if m.previous[i].revno == revno {
        oid := m.previous[i].oid;
        FoundRevision(m, i);
        return;
      }
    }
    NoSuchRevision(m, revno);
  }

  lemma FoundRevision(m: Meta, i: nat)
    requires i < |m.previous|
    ensures forall hist: seq<Revision> :: Shows(Some(m), hist) ==>
              var r := m.previous[i].revno;
              |hist| - 1 - |m.previous| <= r < |hist| - 1 && hist[r].oid == m.previous[i].oid
  {
    forall hist: seq<Revision> | Shows(Some(m), hist)
      ensures var r := m.previous[i].revno;
              |hist| - 1 - |m.previous| <= r < |hist| - 1 && hist[r].oid == m.previous[i].oid
    {
      RevisionOf(m, hist, i);
    }
  }

  lemma RevisionOf(m: Meta, hist: seq<Revision>, i: nat)
    requires i < |m.previous| && Shows(Some(m), hist)
    ensures var r := |hist| - 1 - |m.previous| + i; m.previous[i] == hist[r] && hist[r].revno == r
  {
  }

  lemma NoSuchRevision(m: Meta, revno: int)
    requires forall k :: 0 <= k < |m.previous| ==> m.previous[k].revno != revno
    ensures forall hist: seq<Revision> :: Shows(Some(m), hist) ==> !(|hist| - 1 - |m.previous| <= revno < |hist| - 1)
  {
    forall hist: seq<Revision> | Shows(Some(m), hist)
      ensures !(|hist| - 1 - |m.previous| <= revno < |hist| - 1)
    {
      if |hist| - 1 - |m.previous| <= revno < |hist| - 1 {
        RevisionAt(m, hist, revno);
      }
    }
  }

  lemma RevisionAt(m: Meta, hist: seq<Revision>, revno: int)
    requires Shows(Some(m), hist) && |hist| - 1 - |m.previous| <= revno < |hist| - 1
    ensures exists k :: 0 <= k < |m.previous| && m.previous[k].revno == revno
  {
    RevisionOf(m, hist, revno - (|hist| - 1 - |m.previous|));
  }
}
