/** Rows of the file/blob view and the order they are sorted in. */
module Views {

  type Key = seq<string>

  datatype Doc =
    | FileDoc(name: string, oid: string, older: seq<string>)
    | BlobDoc(oid: string, nodes: set<string>)

  /** Strings compare character by character, a proper prefix first. */
  predicate Before(a: string, b: string) {
    b != "" && (a == "" || a[0] < b[0] || (a[0] == b[0] && Before(a[1..], b[1..])))
  }

  /** Arrays compare element by element, the shorter first. */
  predicate KeyBefore(a: Key, b: Key) {
    b != [] && (a == [] || Before(a[0], b[0]) || (a[0] == b[0] && KeyBefore(a[1..], b[1..])))
  }

  lemma {:induction false} BeforeTotal(a: string, b: string)
    ensures Before(a, b) || a == b || Before(b, a)
    ensures !(Before(a, b) && Before(b, a))
    ensures !Before(a, a)
  {
    if a != "" && b != "" {
      BeforeTotal(a[1..], b[1..]);
      assert a[0] == b[0] && a[1..] == b[1..] ==> a == b by {
        if a[0] == b[0] && a[1..] == b[1..] {
          assert a == [a[0]] + a[1..] == [b[0]] + b[1..] == b;
        }
      }
      BeforeTotal(a[1..], a[1..]);
    } else if a != "" {
      BeforeTotal(a[1..], a[1..]);
    }
  }

  lemma {:induction false} BeforeTransitive(a: string, b: string, c: string)
    requires Before(a, b) && Before(b, c)
    ensures Before(a, c)
  {
    if a != "" && a[0] == b[0] && b[0] == c[0] {
      BeforeTransitive(a[1..], b[1..], c[1..]);
    }
  }

  datatype Row = FileRow(oid: string, name: string) | BlobRow(oid: string, node: string)

  /** The key a row is sorted under. */
  function KeyOf(r: Row): Key {
    match r
    case FileRow(oid, name) => [oid, "file", name]
    case BlobRow(oid, node) => [oid, "blob", node]
  }

  function RowsOf(id: string, doc: Doc): set<Row> {
    match doc
    case FileDoc(name, oid, older) =>
      set k | k in [oid] + older :: FileRow(k, if name != "" then name else id)
    case BlobDoc(oid, nodes) =>
      if nodes == {} then {BlobRow(oid, "")} else set n | n in nodes :: BlobRow(oid, n)
  }

  predicate Descending(view: seq<Row>) {
    forall i, j :: 0 <= i < j < |view| ==> !KeyBefore(KeyOf(view[i]), KeyOf(view[j]))
  }

  /** `view` is what a query for all rows of `docs`, in descending order, returns. */
  ghost predicate IsView(docs: map<string, Doc>, view: seq<Row>) {
    && Descending(view)
    && (forall r :: r in view ==> exists id :: id in docs && r in RowsOf(id, docs[id]))
    && (forall id, r :: id in docs && r in RowsOf(id, docs[id]) ==> r in view)
  }

  predicate References(doc: Doc, oid: string) {
    doc.FileDoc? && (doc.oid == oid || oid in doc.older)
  }

  predicate HasFile(view: seq<Row>, oid: string) {
    exists i :: 0 <= i < |view| && view[i].FileRow? && view[i].oid == oid
  }

  /** The view has a file row for an object exactly when some file keeps it as its current or as
      an older revision. */
  lemma FileRowIff(docs: map<string, Doc>, view: seq<Row>, oid: string)
    requires IsView(docs, view)
    ensures HasFile(view, oid) <==> exists id :: id in docs && References(docs[id], oid)
  {
    if id :| id in docs && References(docs[id], oid) {
      var d := docs[id];
      var r := FileRow(oid, if d.name != "" then d.name else id);
      assert oid in [d.oid] + d.older;
      assert r in RowsOf(id, d);
      assert r in view;
    }
    if HasFile(view, oid) {
      var i :| 0 <= i < |view| && view[i].FileRow? && view[i].oid == oid;
      assert view[i] in view;
      var id :| id in docs && view[i] in RowsOf(id, docs[id]);
      assert References(docs[id], oid);
    }
  }

  /** The view has a blob row for an object and a node exactly when the object's record lists the node, and one
      without a node exactly when a record lists nobody. */
  lemma BlobRowIff(docs: map<string, Doc>, view: seq<Row>, oid: string, node: string)
    requires IsView(docs, view) && forall id :: id in docs && docs[id].BlobDoc? ==> "" !in docs[id].nodes
    ensures BlobRow(oid, node) in view <==>
              exists id :: id in docs && docs[id].BlobDoc? && docs[id].oid == oid
                           && if node == "" then docs[id].nodes == {} else node in docs[id].nodes
  {
    var r := BlobRow(oid, node);
    if r in view {
      var id :| id in docs && r in RowsOf(id, docs[id]);
      assert docs[id].BlobDoc? && docs[id].oid == oid;
    }
    if id :| id in docs && docs[id].BlobDoc? && docs[id].oid == oid
             && if node == "" then docs[id].nodes == {} else node in docs[id].nodes {
      assert r in RowsOf(id, docs[id]);
    }
  }

  /** Objects come in descending order, and each object's file rows before its blob rows. */
  lemma FilesFirst(view: seq<Row>, i: nat, j: nat)
    requires Descending(view)
    requires i < j < |view|
    ensures !Before(view[i].oid, view[j].oid)
    ensures view[i].oid == view[j].oid && view[j].FileRow? ==> view[i].FileRow?
  {
    var a, b := KeyOf(view[i]), KeyOf(view[j]);
    assert !KeyBefore(a, b);
    if a[0] == b[0] {
      BeforeTotal(a[0], b[0]);
      assert !KeyBefore(a[1..], b[1..]);
      assert a[1..][0] == a[1] && b[1..][0] == b[1];
      assert Before("blob", "file");
    }
  }

  /** A query that starts at the one-element array [start] and descends begins strictly below
      every row of `start` itself. */
  lemma StartIsExclusive(r: Row, start: string)
    ensures KeyBefore([start], KeyOf(r)) <==> !Before(r.oid, start)
  {
    BeforeTotal(r.oid, start);
    assert [start][1..] == [];
    assert KeyBefore([], KeyOf(r)[1..]);
  }
}
