/** The garbage collector's walk over the file/blob view, one page at a time. */
module Collector {
  import opened Options
  import opened Views
  import Hex

  const FIRST_KEY: string := "g"

  datatype Removal = Removal(node: string, oid: string)

  /** What the collector knows besides the view: the nodes it can reach, the objects that are
      part of a backup, and the answer it gets when it tries to mark the blob of a row. */
  datatype Context = Context(nodes: set<string>, backedUp: set<Hex.Bytes>, ok: nat -> bool)

  predicate InBackup(c: Context, oid: string) {
    Hex.Decode(oid).Some? && Hex.Decode(oid).value in c.backedUp
  }

  /** `oid` is the hexadecimal name of an object in the backup. */
  predicate BackedUp(c: Context, oid: string) {
    exists b :: b in c.backedUp && Hex.Lower(oid) == Hex.Encode(b)
  }

  lemma InBackupIff(c: Context, oid: string)
    ensures InBackup(c, oid) <==> BackedUp(c, oid)
  {
    if InBackup(c, oid) {
      Hex.DecodesIff(oid, Hex.Decode(oid).value);
    }
    if b :| b in c.backedUp && Hex.Lower(oid) == Hex.Encode(b) {
      Hex.DecodesIff(oid, b);
    }
  }

  datatype Fate = Keep | DropRecord | Sweep

  /** What should become of row `i`, judged against the whole view. */
  function FateOf(view: seq<Row>, c: Context, i: nat): Fate
    requires i < |view|
  {
    if view[i].FileRow? || HasFile(view, view[i].oid) then Keep
    else if view[i].node == "" then DropRecord
    else if view[i].node in c.nodes && !InBackup(c, view[i].oid) && c.ok(i) then Sweep
    else Keep
  }

  /** The removals due to rows lo..hi. */
  function Removals(view: seq<Row>, c: Context, lo: nat, hi: nat): seq<Removal>
    requires lo <= hi <= |view|
  {
    if lo == hi then []
    else
      Removals(view, c, lo, hi - 1) +
      if FateOf(view, c, hi - 1).Sweep? then [Removal(view[hi - 1].node, view[hi - 1].oid)] else []
  }

  /** The ownerless records due for dropping in rows lo..hi. */
  function Dropped(view: seq<Row>, c: Context, lo: nat, hi: nat): seq<string>
    requires lo <= hi <= |view|
  {
    if lo == hi then []
    else
      Dropped(view, c, lo, hi - 1) +
      if FateOf(view, c, hi - 1).DropRecord? then [view[hi - 1].oid] else []
  }

  /** Exactly the rows of objects below `start` come at or after row `lo`. */
  predicate Below(view: seq<Row>, start: string, lo: nat) {
    lo <= |view| && forall i :: 0 <= i < |view| ==> (i < lo <==> !Before(view[i].oid, start))
  }

  /** Where a descending query from [start] begins: rows whose key comes after [start] are left out. */
  method Query(view: seq<Row>, start: string) returns (lo: nat)
    requires Descending(view)
    ensures lo <= |view| && forall i :: 0 <= i < |view| ==> (i < lo <==> KeyBefore([start], KeyOf(view[i])))
    ensures Below(view, start, lo)
  {
    lo := 0;
    while lo < |view| && KeyBefore([start], KeyOf(view[lo]))
      invariant lo <= |view|
      invariant forall i :: 0 <= i < lo ==> KeyBefore([start], KeyOf(view[i]))
    {
      lo := lo + 1;
    }
    forall i | 0 <= i < |view|
      ensures i < lo <==> KeyBefore([start], KeyOf(view[i]))
      ensures i < lo <==> !Before(view[i].oid, start)
    {
      StartIsExclusive(view[i], start);
      if lo < i {
        StartIsExclusive(view[lo], start);
        LowerStill(view, lo, i, start);
      }
    }
  }

  lemma LowerStill(view: seq<Row>, i: nat, j: nat, start: string)
    requires Descending(view) && i < j < |view| && Before(view[i].oid, start)
    ensures Before(view[j].oid, start)
  {
    FilesFirst(view, i, j);
    BeforeTotal(view[i].oid, view[j].oid);
    if view[i].oid != view[j].oid {
      BeforeTransitive(view[j].oid, view[i].oid, start);
    }
  }

  /** `last` is the object of the latest file row among rows lo..hi, "" if there is none. */
  predicate LatestFile(view: seq<Row>, lo: nat, hi: nat, last: string)
    requires lo <= hi <= |view|
  {
    if hi == lo then last == ""
    else if view[hi - 1].FileRow? then last == view[hi - 1].oid
    else LatestFile(view, lo, hi - 1, last)
  }

  lemma {:induction false} LatestFileShown(view: seq<Row>, lo: nat, hi: nat, last: string)
    requires lo <= hi <= |view| && LatestFile(view, lo, hi, last) && last != ""
    ensures HasFile(view, last)
  {
    if !view[hi - 1].FileRow? {
      LatestFileShown(view, lo, hi - 1, last);
    }
  }

  /** If row j is a file row of the object of row k, no row between them changes the answer. */
  lemma {:induction false} LatestFileOf(view: seq<Row>, lo: nat, hi: nat, j: nat, k: nat, last: string)
    requires Descending(view)
    requires lo <= j < hi <= k < |view|
    requires view[j].FileRow? && view[j].oid == view[k].oid
    requires LatestFile(view, lo, hi, last)
    ensures last == view[k].oid
  {
    if j < hi - 1 {
      FilesFirst(view, j, hi - 1);
      FilesFirst(view, hi - 1, k);
      BeforeTotal(view[hi - 1].oid, view[k].oid);
      if !view[hi - 1].FileRow? {
        LatestFileOf(view, lo, hi - 1, j, k, last);
      }
    }
  }

  /** At a blob row, remembering only the latest file row of the page tells whether any file row in
      the whole view belongs to the same object. */
  lemma LatestFileSuffices(view: seq<Row>, start: string, lo: nat, k: nat, last: string)
    requires Descending(view) && Below(view, start, lo)
    requires lo <= k < |view| && view[k].BlobRow? && view[k].oid != ""
    requires LatestFile(view, lo, k, last)
    ensures view[k].oid == last <==> HasFile(view, view[k].oid)
  {
    if HasFile(view, view[k].oid) {
      var j :| 0 <= j < |view| && view[j].FileRow? && view[j].oid == view[k].oid;
      if k < j { FilesFirst(view, k, j); }
      LatestFileOf(view, lo, k, j, k, last);
    }
    if view[k].oid == last {
      LatestFileShown(view, lo, k, last);
    }
  }

  /** Blob records have an object name. */
  predicate Named(view: seq<Row>) {
    forall i :: 0 <= i < |view| && view[i].BlobRow? ==> view[i].oid != ""
  }

  lemma JudgeRow(view: seq<Row>, c: Context, start: string, lo: nat, k: nat, last: string)
    requires Descending(view) && Named(view) && Below(view, start, lo)
    requires lo <= k < |view| && view[k].BlobRow? && LatestFile(view, lo, k, last)
    ensures FateOf(view, c, k) ==
              if view[k].oid == last then Keep
              else if view[k].node == "" then DropRecord
              else if view[k].node in c.nodes && !InBackup(c, view[k].oid) && c.ok(k) then Sweep
              else Keep
  {
    LatestFileSuffices(view, start, lo, k, last);
  }

  /** One page: the rows from `lo` up to `hi` are visited in order. */
  method SweepPage(view: seq<Row>, c: Context, ghost start: string, lo: nat, hi: nat)
      returns (queue: seq<Removal>, dropped: seq<string>, startKey: string)
    requires Descending(view) && Named(view)
    requires Below(view, start, lo) && lo < hi <= |view|
    ensures queue == Removals(view, c, lo, hi)
    ensures dropped == Dropped(view, c, lo, hi)
    ensures startKey == view[hi - 1].oid
  {
    queue, dropped, startKey := [], [], "";
    var lastBlob := "";
    var k := lo;
    while k < hi
      invariant lo <= k <= hi
      invariant LatestFile(view, lo, k, lastBlob)
      invariant queue == Removals(view, c, lo, k)
      invariant dropped == Dropped(view, c, lo, k)
      invariant k > lo ==> startKey == view[k - 1].oid
    {
      startKey := view[k].oid;
      match view[k] {
        case FileRow(blobId, _) =>
          lastBlob := blobId;
        case BlobRow(blobId, blobNode) =>
          JudgeRow(view, c, start, lo, k, lastBlob);
          if blobId != lastBlob {
            if blobNode == "" {
              dropped := dropped + [blobId];
            } else if blobNode in c.nodes {
              if InBackup(c, blobId) {
              } else if c.ok(k) {
                queue := queue + [Removal(blobNode, blobId)];
              }
            }
          }
      }
      assert queue == Removals(view, c, lo, k + 1);
      assert dropped == Dropped(view, c, lo, k + 1);
      k := k + 1;
    }
  }

  /** A page fetched from the view: rows lo..hi. */
  datatype Page = Page(lo: nat, hi: nat)

  predicate InOrder(pages: seq<Page>, n: nat) {
    && (forall a :: 0 <= a < |pages| ==> pages[a].lo < pages[a].hi <= n)
    && (forall a, b :: 0 <= a < b < |pages| ==> pages[a].hi <= pages[b].lo)
  }

  function AllRemovals(view: seq<Row>, c: Context, pages: seq<Page>): seq<Removal>
    requires InOrder(pages, |view|)
  {
    if pages == [] then []
    else
      var last := pages[|pages| - 1];
      AllRemovals(view, c, pages[..|pages| - 1]) + Removals(view, c, last.lo, last.hi)
  }

  function AllDropped(view: seq<Row>, c: Context, pages: seq<Page>): seq<string>
    requires InOrder(pages, |view|)
  {
    if pages == [] then []
    else
      var last := pages[|pages| - 1];
      AllDropped(view, c, pages[..|pages| - 1]) + Dropped(view, c, last.lo, last.hi)
  }

  /** Some page shows a row of the same object as row i, at or before it. */
  predicate Visited(view: seq<Row>, pages: seq<Page>, i: nat)
    requires i < |view|
  {
    exists a, j :: 0 <= a < |pages| && pages[a].lo <= j < pages[a].hi && j <= i && view[j].oid == view[i].oid
  }

  lemma VisitedMore(view: seq<Row>, pages: seq<Page>, page: Page, i: nat)
    requires i < |view| && Visited(view, pages, i)
    ensures Visited(view, pages + [page], i)
  {
    var a, j :| 0 <= a < |pages| && pages[a].lo <= j < pages[a].hi && j <= i && view[j].oid == view[i].oid;
    assert (pages + [page])[a] == pages[a];
  }

  lemma VisitedNow(view: seq<Row>, pages: seq<Page>, page: Page, j: nat, i: nat)
    requires page.lo <= j < page.hi && j <= i < |view| && view[j].oid == view[i].oid
    ensures Visited(view, pages + [page], i)
  {
    assert (pages + [page])[|pages|] == page;
  }

  /** The query after a page that ends with row hi-1 skips exactly the rest of that row's object. */
  lemma NextStart(view: seq<Row>, hi: nat, next: nat)
    requires Descending(view) && 0 < hi <= |view| && Below(view, view[hi - 1].oid, next)
    ensures hi <= next
    ensures forall i :: hi <= i < next ==> view[i].oid == view[hi - 1].oid
  {
    BeforeTotal(view[hi - 1].oid, view[hi - 1].oid);
    forall i | hi <= i < next
      ensures view[i].oid == view[hi - 1].oid
    {
      FilesFirst(view, hi - 1, i);
      BeforeTotal(view[hi - 1].oid, view[i].oid);
    }
  }

  /** What the collector has achieved once the next query starts at row `next`: the pages lie in
      order below the first key, and no object before `next` was missed. */
  ghost predicate Progress(view: seq<Row>, first: nat, next: nat, pages: seq<Page>) {
    && InOrder(pages, |view|)
    && first <= next <= |view|
    && (forall a :: 0 <= a < |pages| ==> first <= pages[a].lo && pages[a].hi <= next)
    && (forall i :: first <= i < next ==> Visited(view, pages, i))
  }

  lemma PageProgress(view: seq<Row>, first: nat, lo: nat, hi: nat, next: nat, pages: seq<Page>)
    requires Descending(view) && lo < hi <= |view|
    requires Progress(view, first, lo, pages)
    requires Below(view, view[hi - 1].oid, next)
    ensures hi <= next
    ensures Progress(view, first, next, pages + [Page(lo, hi)])
  {
    NextStart(view, hi, next);
    var more := pages + [Page(lo, hi)];
    forall i | first <= i < next
      ensures Visited(view, more, i)
    {
      if i < lo {
        VisitedMore(view, pages, Page(lo, hi), i);
      } else if i < hi {
        VisitedNow(view, pages, Page(lo, hi), i, i);
      } else {
        VisitedNow(view, pages, Page(lo, hi), hi - 1, i);
      }
    }
  }

  /** Pages only show objects below `start`. */
  predicate AllBelow(view: seq<Row>, start: string, pages: seq<Page>)
    requires InOrder(pages, |view|)
  {
    forall a, i :: 0 <= a < |pages| && pages[a].lo <= i < pages[a].hi ==> Before(view[i].oid, start)
  }

  /** No object below `start` was missed by the pages. */
  predicate NoneMissed(view: seq<Row>, start: string, pages: seq<Page>) {
    forall i :: 0 <= i < |view| && Before(view[i].oid, start) ==> Visited(view, pages, i)
  }

  lemma ProgressMeans(view: seq<Row>, start: string, first: nat, next: nat, pages: seq<Page>)
    requires Below(view, start, first) && Progress(view, first, next, pages)
    ensures AllBelow(view, start, pages)
    ensures next == |view| ==> NoneMissed(view, start, pages)
  {
  }

  /** The whole run.  `relock` says whether the lease could be renewed after each page. */
  method Collect(view: seq<Row>, c: Context, limit: nat, relock: nat -> bool)
      returns (queue: seq<Removal>, dropped: seq<string>, finished: bool, ghost pages: seq<Page>)
    requires Descending(view) && Named(view)
    requires 1 <= limit
    ensures InOrder(pages, |view|)
    ensures queue == AllRemovals(view, c, pages)
    ensures dropped == AllDropped(view, c, pages)
    ensures AllBelow(view, FIRST_KEY, pages)
    ensures finished ==> NoneMissed(view, FIRST_KEY, pages)
    ensures (forall n :: relock(n)) ==> finished
  {
    queue, dropped, pages := [], [], [];
    var startKey := FIRST_KEY;
    var lo: nat := Query(view, startKey);
    ghost var first := lo;
    var done := false;
    var n := 0;
    while !done
      invariant Below(view, startKey, lo)
      invariant Progress(view, first, lo, pages)
      invariant queue == AllRemovals(view, c, pages)
      invariant dropped == AllDropped(view, c, pages)
      invariant done ==> lo == |view|
      decreases !done, |view| - lo
    {
      var hi := if lo + limit + 1 < |view| then lo + limit + 1 else |view|;
      done := hi - lo < limit;
      if lo < hi {
        var q, d, last := SweepPage(view, c, startKey, lo, hi);
        startKey := last;
        var next := Query(view, startKey);
        PageProgress(view, first, lo, hi, next, pages);
        ghost var more := pages + [Page(lo, hi)];
        assert more[..|more| - 1] == pages;
        queue, dropped, pages, lo := queue + q, dropped + d, more, next;
      }
      if !relock(n) {
        ProgressMeans(view, FIRST_KEY, first, lo, pages);
        finished := false;
        return;
      }
      n := n + 1;
    }
    ProgressMeans(view, FIRST_KEY, first, lo, pages);
    finished := true;
  }

  /** The ownership record of an object. */
  predicate Records(doc: Doc, oid: string) {
    doc.BlobDoc? && doc.oid == oid
  }

  /** Nothing that is kept by a file, or part of a backup, is ever queued for removal. */
  lemma SweepRespectsFiles(docs: map<string, Doc>, view: seq<Row>, c: Context, i: nat)
    requires IsView(docs, view) && i < |view|
    requires !FateOf(view, c, i).Keep?
    ensures forall id :: id in docs ==> !References(docs[id], view[i].oid)
    ensures FateOf(view, c, i).Sweep? ==> !BackedUp(c, view[i].oid)
    ensures FateOf(view, c, i).Sweep? ==>
              exists id :: id in docs && Records(docs[id], view[i].oid) && view[i].node in docs[id].nodes
    ensures FateOf(view, c, i).DropRecord? ==>
              exists id ::
                id in docs && Records(docs[id], view[i].oid) && (docs[id].nodes == {} || "" in docs[id].nodes)
  {
    FileRowIff(docs, view, view[i].oid);
    InBackupIff(c, view[i].oid);
    assert view[i] in view;
    var id :| id in docs && view[i] in RowsOf(id, docs[id]);
  }

  /** Row i calls for removal r: it shows a reachable owner of an object that has no file, is not in the
      backup and could be marked. */
  predicate Calls(view: seq<Row>, c: Context, i: nat, r: Removal)
    requires i < |view|
  {
    && view[i] == BlobRow(r.oid, r.node) && r.node != "" && r.node in c.nodes
    && !HasFile(view, r.oid) && !BackedUp(c, r.oid) && c.ok(i)
  }

  /** Row i shows a record without owners, of an object that has no file. */
  predicate CallsDrop(view: seq<Row>, i: nat, oid: string)
    requires i < |view|
  {
    view[i] == BlobRow(oid, "") && !HasFile(view, oid)
  }

  lemma {:induction false} PageQueuesIff(view: seq<Row>, c: Context, lo: nat, hi: nat, r: Removal)
    requires lo <= hi <= |view|
    ensures r in Removals(view, c, lo, hi) <==> exists i :: lo <= i < hi && Calls(view, c, i, r)
  {
    if lo == hi {
    } else {
      PageQueuesIff(view, c, lo, hi - 1, r);
      InBackupIff(c, view[hi - 1].oid);
      assert r in Removals(view, c, lo, hi) <==> r in Removals(view, c, lo, hi - 1) || Calls(view, c, hi - 1, r);
    }
  }

  lemma {:induction false} PageDropsIff(view: seq<Row>, c: Context, lo: nat, hi: nat, oid: string)
    requires lo <= hi <= |view|
    ensures oid in Dropped(view, c, lo, hi) <==> exists i :: lo <= i < hi && CallsDrop(view, i, oid)
  {
    if lo == hi {
    } else {
      PageDropsIff(view, c, lo, hi - 1, oid);
      assert oid in Dropped(view, c, lo, hi) <==>
             oid in Dropped(view, c, lo, hi - 1) || CallsDrop(view, hi - 1, oid);
    }
  }

  /** A record is dropped exactly when some row on some page shows it without owners and without a file. */
  lemma {:induction false} DroppedIff(view: seq<Row>, c: Context, pages: seq<Page>, oid: string)
    requires InOrder(pages, |view|)
    ensures oid in AllDropped(view, c, pages) <==>
              exists a, i :: 0 <= a < |pages| && pages[a].lo <= i < pages[a].hi && CallsDrop(view, i, oid)
  {
    if pages == [] {
    } else {
      var n := |pages| - 1;
      DroppedIff(view, c, pages[..n], oid);
      PageDropsIff(view, c, pages[n].lo, pages[n].hi, oid);
      assert forall a :: 0 <= a < n ==> pages[..n][a] == pages[a];
    }
  }

  /** A removal is queued exactly when some row on some page calls for it. */
  lemma {:induction false} QueuedIff(view: seq<Row>, c: Context, pages: seq<Page>, r: Removal)
    requires InOrder(pages, |view|)
    ensures r in AllRemovals(view, c, pages) <==>
              exists a, i :: 0 <= a < |pages| && pages[a].lo <= i < pages[a].hi && Calls(view, c, i, r)
  {
    if pages == [] {
    } else {
      var n := |pages| - 1;
      QueuedIff(view, c, pages[..n], r);
      PageQueuesIff(view, c, pages[n].lo, pages[n].hi, r);
      assert forall a :: 0 <= a < n ==> pages[..n][a] == pages[a];
    }
  }

  /** Whatever the pages, a queued object is kept by no file in the bucket, its name is that of no object
      in the backup, and the node asked to remove it is listed as an owner. */
  lemma QueueRespectsFiles(docs: map<string, Doc>, view: seq<Row>, c: Context, pages: seq<Page>, r: Removal)
    requires IsView(docs, view) && InOrder(pages, |view|)
    requires r in AllRemovals(view, c, pages)
    ensures forall id :: id in docs ==> !References(docs[id], r.oid)
    ensures forall b :: b in c.backedUp ==> Hex.Lower(r.oid) != Hex.Encode(b)
    ensures exists id :: id in docs && Records(docs[id], r.oid) && r.node in docs[id].nodes
  {
    QueuedIff(view, c, pages, r);
    var a, i :| 0 <= a < |pages| && pages[a].lo <= i < pages[a].hi && Calls(view, c, i, r);
    FileRowIff(docs, view, r.oid);
    assert view[i] in view;
    var id :| id in docs && view[i] in RowsOf(id, docs[id]);
  }

  /** The walk starts above every object: names in hexadecimal come before its first key. */
  lemma ObjectsBelowFirst(view: seq<Row>, pages: seq<Page>, i: nat)
    requires i < |view| && NoneMissed(view, FIRST_KEY, pages)
    requires forall k :: 0 <= k < |view[i].oid| ==> Hex.LowerDigit(view[i].oid[k])
    ensures Visited(view, pages, i)
  {
    var oid := view[i].oid;
    assert oid != "" ==> Hex.LowerDigit(oid[0]);
    assert Before(oid, FIRST_KEY);
  }
}
