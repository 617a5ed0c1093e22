/** Writing a blob under the hash of its content. */
module HashStore {
  import opened Options

  type Bytes = seq<int>

  /** A record of one write in progress.  `temp` is the content of its temporary file while that
      exists, `sh` the bytes hashed so far, and `spilt` the number of bytes that failed writes
      nevertheless put into the file. */
  datatype Rec = Rec(live: bool, temp: Option<Bytes>, sh: Bytes, hashin: string, written: int, spilt: nat)

  /** How a call to the file system went: closing, and up to two renames. */
  datatype Luck = Luck(close: bool, rename: bool, renameAgain: bool)

  datatype Outcome = Stored(name: string) | Refused | Failed

  function Begun(hashin: string): Rec {
    Rec(true, Some([]), [], hashin, 0, 0)
  }

  /** A write of `p` of which the file took `n` bytes; `ok` when it took all without an error. */
  function Written(r: Rec, p: Bytes, n: nat, ok: bool): Rec
    requires n <= |p| && (ok ==> n == |p|)
  {
    var temp := if r.temp.Some? then Some(r.temp.value + p[..n]) else None;
    if ok then r.(temp := temp, sh := r.sh + p, written := r.written + n)
    else r.(temp := temp, spilt := r.spilt + n)
  }

  function Finished(hash: Bytes -> string, r: Rec, luck: Luck): Outcome {
    if !r.live || !luck.close then Failed
    else if r.hashin != "" && r.hashin != hash(r.sh) then Refused
    else if r.temp.Some? && (luck.rename || luck.renameAgain) then Stored(hash(r.sh))
    else Failed
  }

  function RecAfter(hash: Bytes -> string, r: Rec, luck: Luck): Rec {
    if !r.live || !luck.close || (r.hashin != "" && r.hashin != hash(r.sh)) then r
    else r.(live := !Finished(hash, r, luck).Stored?, temp := None)
  }

  function BlobsAfter(hash: Bytes -> string, r: Rec, luck: Luck, blobs: map<string, Bytes>): map<string, Bytes> {
    if !r.live || !luck.close || (r.hashin != "" && r.hashin != hash(r.sh)) then blobs
    else if Finished(hash, r, luck).Stored? then blobs[hash(r.sh) := r.temp.value]
    else blobs - {hash(r.sh)}
  }

  /** The blobs on a disk, by name. */
  class Disk {
    var blobs: map<string, Bytes>
    const hash: Bytes -> string

    constructor (hash: Bytes -> string)
      ensures blobs == map[] && this.hash == hash
    {
      blobs := map[];
      this.hash := hash;
    }
  }

  class HashRecord {
    const disk: Disk
    const hashin: string
    var live: bool
    var temp: Option<Bytes>
    var sh: Bytes
    var written: int
    ghost var spilt: nat

    ghost function Value(): Rec
      reads this
    {
      Rec(live, temp, sh, hashin, written, spilt)
    }

    constructor (disk: Disk, hashin: string)
      ensures this.disk == disk && Value() == Begun(hashin)
    {
      this.disk, this.hashin := disk, hashin;
      live, temp, sh, written, spilt := true, Some([]), [], 0, 0;
    }

    method Write(p: Bytes, n: nat, ok: bool)
      requires n <= |p| && (ok ==> n == |p|)
      modifies this
      ensures Value() == Written(old(Value()), p, n, ok)
    {
      if temp.Some? {
        temp := Some(temp.value + p[..n]);
      }
      if !ok {
        spilt := spilt + n;
        return;
      }
      sh := sh + p;
      written := written + n;
    }

    method Finish(luck: Luck) returns (outcome: Outcome)
      modifies this, disk`blobs
      ensures outcome == Finished(disk.hash, old(Value()), luck)
      ensures Value() == RecAfter(disk.hash, old(Value()), luck)
      ensures disk.blobs == BlobsAfter(disk.hash, old(Value()), luck, old(disk.blobs))
    {
      if !live || !luck.close {
        return Failed;
      }
      var hs := disk.hash(sh);
      if hashin != "" && hashin != hs {
        return Refused;
      }
      if temp.Some? && luck.rename {
        disk.blobs := disk.blobs[hs := temp.value];
        temp := None;
      } else {
        disk.blobs := disk.blobs - {hs};
        if temp.Some? && luck.renameAgain {
          disk.blobs := disk.blobs[hs := temp.value];
          temp := None;
        } else {
          temp := None;
          return Failed;
        }
      }
      live := false;
      return Stored(hs);
    }

    /** Copies chunks until one fails; finishes only if none did. */
    method Process(chunks: seq<(Bytes, nat, bool)>, luck: Luck) returns (outcome: Outcome, length: int)
      requires forall i :: 0 <= i < |chunks| ==>
                 chunks[i].1 <= |chunks[i].0| && (chunks[i].2 ==> chunks[i].1 == |chunks[i].0|)
      modifies this, disk`blobs
      ensures AllTaken(chunks) ==>
                && outcome == Finished(disk.hash, Copied(old(Value()), chunks), luck)
                && disk.blobs == BlobsAfter(disk.hash, Copied(old(Value()), chunks), luck, old(disk.blobs))
                && length == |Joined(chunks)|
      ensures !AllTaken(chunks) ==> outcome == Failed && disk.blobs == old(disk.blobs)
    {
      length := 0;
      ghost var r := Value();
      CopiedNone(r);
      for i := 0 to |chunks|
        invariant AllTaken(chunks[..i])
        invariant Value() == Copied(r, chunks[..i])
        invariant disk.blobs == old(disk.blobs)
        invariant length == |Joined(chunks[..i])|
      {
        var (p, n, ok) := chunks[i];
        assert chunks[..i + 1][..i] == chunks[..i];
        assert chunks[..i + 1][i] == chunks[i];
        if ok { CopiedMore(r, chunks[..i], chunks[i]); }
        assert chunks[..i] + [chunks[i]] == chunks[..i + 1];
        Write(p, n, ok);
        length := length + n;
        if !ok {
          return Failed, length;
        }
      }
      assert chunks[..|chunks|] == chunks;
      outcome := Finish(luck);
    }

    method Close()
      modifies this
      ensures Value() == if old(live) then old(Value()).(temp := None) else old(Value())
    {
      if live {
        temp := None;
      }
    }
  }

  predicate AllTaken(chunks: seq<(Bytes, nat, bool)>) {
    forall i :: 0 <= i < |chunks| ==> chunks[i].2
  }

  function Joined(chunks: seq<(Bytes, nat, bool)>): Bytes {
    if chunks == [] then [] else Joined(chunks[..|chunks| - 1]) + chunks[|chunks| - 1].0
  }

  /** A record after all chunks were taken. */
  function Copied(r: Rec, chunks: seq<(Bytes, nat, bool)>): Rec {
    var p := Joined(chunks);
    r.(temp := if r.temp.Some? then Some(r.temp.value + p) else None, sh := r.sh + p, written := r.written + |p|)
  }

  lemma CopiedNone(r: Rec)
    ensures Copied(r, []) == r
  {
    assert r.sh + [] == r.sh;
    assert r.temp.Some? ==> r.temp.value + [] == r.temp.value;
  }

  lemma CopiedMore(r: Rec, chunks: seq<(Bytes, nat, bool)>, c: (Bytes, nat, bool))
    requires c.1 == |c.0|
    ensures Copied(r, chunks + [c]) == Written(Copied(r, chunks), c.0, c.1, true)
  {
    var p := Joined(chunks);
    assert (chunks + [c])[..|chunks|] == chunks;
    assert c.0[..c.1] == c.0;
    assert r.sh + (p + c.0) == r.sh + p + c.0;
    assert r.temp.Some? ==> r.temp.value + (p + c.0) == r.temp.value + p + c.0;
  }

  /** Any number of records being written to one disk. */
  datatype World = World(recs: map<nat, Rec>, blobs: map<string, Bytes>)

  datatype Action =
    | Open(id: nat, hashin: string)
    | Put(id: nat, p: Bytes, n: nat, ok: bool)
    | Conclude(id: nat, luck: Luck)
    | Discard(id: nat)               // the record is closed, or its temporary file cleaned away
    | Erase(name: string)            // a stored blob is removed

  function Next(hash: Bytes -> string, w: World, a: Action): World {
    match a
    case Open(id, hashin) =>
      if id in w.recs then w else w.(recs := w.recs[id := Begun(hashin)])
    case Put(id, p, n, ok) =>
      if id in w.recs && n <= |p| && (ok ==> n == |p|)
      then w.(recs := w.recs[id := Written(w.recs[id], p, n, ok)]) else w
    case Conclude(id, luck) =>
      if id in w.recs
      then World(w.recs[id := RecAfter(hash, w.recs[id], luck)], BlobsAfter(hash, w.recs[id], luck, w.blobs)) else w
    case Discard(id) =>
      if id in w.recs then w.(recs := w.recs[id := w.recs[id].(temp := None)]) else w
    case Erase(name) => w.(blobs := w.blobs - {name})
  }

  function Run(hash: Bytes -> string, w: World, actions: seq<Action>): World
    decreases |actions|
  {
    if actions == [] then w else Run(hash, Next(hash, w, actions[0]), actions[1..])
  }

  const EMPTY := World(map[], map[])

  /** Every blob's content has the hash it is stored under. */
  predicate Sane(hash: Bytes -> string, blobs: map<string, Bytes>) {
    forall name :: name in blobs ==> hash(blobs[name]) == name
  }

  ghost predicate Injective(hash: Bytes -> string) {
    forall a, b :: hash(a) == hash(b) ==> a == b
  }

  /** The blobs are sane after every step. */
  predicate SaneThroughout(hash: Bytes -> string, w: World, actions: seq<Action>)
    decreases |actions|
  {
    && Sane(hash, w.blobs)
    && (actions != [] ==> SaneThroughout(hash, Next(hash, w, actions[0]), actions[1..]))
  }

  /** A record into which a failed write has put bytes is finished, and stored. */
  predicate Spoils(hash: Bytes -> string, w: World, a: Action) {
    && a.Conclude? && a.id in w.recs
    && w.recs[a.id].spilt > 0 && Finished(hash, w.recs[a.id], a.luck).Stored?
  }

  predicate Clean(hash: Bytes -> string, w: World, actions: seq<Action>)
    decreases |actions|
  {
    actions != [] ==> !Spoils(hash, w, actions[0]) && Clean(hash, Next(hash, w, actions[0]), actions[1..])
  }

  /** Temporary file and hashed bytes differ exactly by what failed writes left behind. */
  predicate RecOk(r: Rec) {
    r.temp.Some? ==> |r.temp.value| == |r.sh| + r.spilt && (r.spilt == 0 ==> r.temp.value == r.sh)
  }

  lemma WrittenOk(r: Rec, p: Bytes, n: nat, ok: bool)
    requires RecOk(r) && n <= |p| && (ok ==> n == |p|)
    ensures RecOk(Written(r, p, n, ok))
  {
  }

  /** Finishing a record stores content that matches its name exactly when the failed writes among
      those before it reported no bytes taken. */
  lemma StoresRightIff(hash: Bytes -> string, r: Rec, luck: Luck)
    requires Injective(hash) && RecOk(r) && Finished(hash, r, luck).Stored?
    ensures hash(r.temp.value) == Finished(hash, r, luck).name <==> r.spilt == 0
  {
  }

  /** A hash that does not match what was expected leaves the stored blobs alone; a success stores
      under the expected hash; and finishing disturbs no other blob, nor, if all bytes arrived and
      a rename works, the content of a blob that was there before. */
  lemma FinishChanges(hash: Bytes -> string, r: Rec, luck: Luck, blobs: map<string, Bytes>)
    requires Injective(hash) && RecOk(r) && Sane(hash, blobs)
    ensures r.hashin != "" && r.hashin != hash(r.sh) ==> BlobsAfter(hash, r, luck, blobs) == blobs
    ensures Finished(hash, r, luck).Stored? && r.hashin != "" ==> Finished(hash, r, luck).name == r.hashin
    ensures BlobsAfter(hash, r, luck, blobs) - {hash(r.sh)} == blobs - {hash(r.sh)}
    ensures r.temp.Some? && r.spilt == 0 && (luck.rename || luck.renameAgain) && hash(r.sh) in blobs ==>
              BlobsAfter(hash, r, luck, blobs) == blobs
  {
  }

  predicate RecsOk(w: World) {
    forall id :: id in w.recs ==> RecOk(w.recs[id])
  }

  lemma RecsOkNext(hash: Bytes -> string, w: World, a: Action)
    requires RecsOk(w)
    ensures RecsOk(Next(hash, w, a))
  {
    if a.Put? && a.id in w.recs && a.n <= |a.p| && (a.ok ==> a.n == |a.p|) {
      WrittenOk(w.recs[a.id], a.p, a.n, a.ok);
    }
  }

  /** One step keeps content and names in agreement unless it spoils a blob. */
  lemma SaneNextIff(hash: Bytes -> string, w: World, a: Action)
    requires Injective(hash) && RecsOk(w) && Sane(hash, w.blobs)
    ensures Sane(hash, Next(hash, w, a).blobs) <==> !Spoils(hash, w, a)
  {
    if a.Conclude? && a.id in w.recs {
      var r := w.recs[a.id];
      assert RecOk(r);
      if Finished(hash, r, a.luck).Stored? {
        StoresRightIff(hash, r, a.luck);
        assert hash(r.sh) in Next(hash, w, a).blobs;
      }
    }
  }

  lemma {:induction false} SaneThroughoutIff(hash: Bytes -> string, w: World, actions: seq<Action>)
    requires Injective(hash) && RecsOk(w) && Sane(hash, w.blobs)
    ensures SaneThroughout(hash, w, actions) <==> Clean(hash, w, actions)
    ensures Clean(hash, w, actions) ==> RecsOk(Run(hash, w, actions)) && Sane(hash, Run(hash, w, actions).blobs)
    decreases |actions|
  {
    if actions == [] {
    } else {
      RecsOkNext(hash, w, actions[0]);
      SaneNextIff(hash, w, actions[0]);
      if !Spoils(hash, w, actions[0]) {
        SaneThroughoutIff(hash, Next(hash, w, actions[0]), actions[1..]);
      }
    }
  }

  /** Over any interleaving of records, every blob's content has the hash it is stored under at every
      point, exactly when no record is stored after a failed write has put bytes into its file. */
  lemma ContentAddressedIff(hash: Bytes -> string, actions: seq<Action>)
    requires Injective(hash)
    ensures SaneThroughout(hash, EMPTY, actions) <==> Clean(hash, EMPTY, actions)
  {
    SaneThroughoutIff(hash, EMPTY, actions);
  }

  /** The expected hash does not help: all of the expected content arrives, a further write fails
      half way, and the record is finished. */
  lemma LateFailureSpoils(hash: Bytes -> string, content: Bytes, extra: Bytes, n: nat)
    requires Injective(hash) && 0 < n <= |extra|
    ensures var actions := [Open(0, hash(content)), Put(0, content, |content|, true),
                            Put(0, extra, n, false), Conclude(0, Luck(true, true, true))];
            !SaneThroughout(hash, EMPTY, actions)
  {
    var a1, a2 := Open(0, hash(content)), Put(0, content, |content|, true);
    var a3, a4 := Put(0, extra, n, false), Conclude(0, Luck(true, true, true));
    var w1 := Next(hash, EMPTY, a1);
    var w2 := Next(hash, w1, a2);
    var w3 := Next(hash, w2, a3);
    assert [] + content == content;
    assert w3.recs[0].sh == content && w3.recs[0].spilt == n;
    assert Spoils(hash, w3, a4);
    assert !Clean(hash, w3, [a4]);
    assert [a3, a4][1..] == [a4] && !Clean(hash, w2, [a3, a4]);
    assert [a2, a3, a4][1..] == [a3, a4] && !Clean(hash, w1, [a2, a3, a4]);
    assert [a1, a2, a3, a4][1..] == [a2, a3, a4];
    ContentAddressedIff(hash, [a1, a2, a3, a4]);
  }

  /** In a clean run a name that is stored at two points has the same content at both, whatever was
      stored, refused and removed in between. */
  lemma ContentNeverChanges(hash: Bytes -> string, before: seq<Action>, after: seq<Action>, name: string)
    requires Injective(hash) && Clean(hash, EMPTY, before) && Clean(hash, Run(hash, EMPTY, before), after)
    ensures var w := Run(hash, EMPTY, before);
            var v := Run(hash, w, after);
            name in w.blobs && name in v.blobs ==> v.blobs[name] == w.blobs[name]
  {
    var w := Run(hash, EMPTY, before);
    SaneThroughoutIff(hash, EMPTY, before);
    SaneThroughoutIff(hash, w, after);
  }

  /** All of the content arrives in chunks: it is stored under its hash if it is the one expected, or none was,
      and the file system lets it; otherwise it is refused and nothing changes. */
  lemma WholeIsStored(hash: Bytes -> string, hashin: string, chunks: seq<(Bytes, nat, bool)>, luck: Luck,
                      blobs: map<string, Bytes>)
    requires luck.close && (luck.rename || luck.renameAgain)
    ensures var r, content := Copied(Begun(hashin), chunks), Joined(chunks);
            if hashin == "" || hashin == hash(content)
            then && Finished(hash, r, luck) == Stored(hash(content))
                 && BlobsAfter(hash, r, luck, blobs) == blobs[hash(content) := content]
                 && r.written == |content|
            else Finished(hash, r, luck) == Refused && BlobsAfter(hash, r, luck, blobs) == blobs
  {
    var content := Joined(chunks);
    assert [] + content == content;
  }

  /** When both renames fail, whatever was stored under the name is gone. */
  lemma FailedRenamesErase(hash: Bytes -> string, r: Rec, luck: Luck, blobs: map<string, Bytes>)
    requires r.live && luck.close && !luck.rename && !luck.renameAgain && (r.hashin == "" || r.hashin == hash(r.sh))
    ensures Finished(hash, r, luck) == Failed && BlobsAfter(hash, r, luck, blobs) == blobs - {hash(r.sh)}
  {
  }

  /** A record stores at most once. */
  lemma StoresOnce(hash: Bytes -> string, r: Rec, luck: Luck, again: Luck, blobs: map<string, Bytes>)
    requires Finished(hash, r, luck).Stored?
    ensures var s := RecAfter(hash, r, luck);
            Finished(hash, s, again) == Failed && BlobsAfter(hash, s, again, blobs) == blobs
  {
  }

  /** Which stored blobs a step changes: removing one, that one; finishing a record, at most the one under the hash
      of what was written; nothing else any. */
  lemma ChangesOnly(hash: Bytes -> string, w: World, a: Action, name: string)
    ensures var v := Next(hash, w, a);
            match a
            case Erase(n) => if name == n then name !in v.blobs else SameBlob(w.blobs, v.blobs, name)
            case Conclude(id, _) => (id in w.recs ==> name != hash(w.recs[id].sh)) ==> SameBlob(w.blobs, v.blobs, name)
            case _ => SameBlob(w.blobs, v.blobs, name)
  {
  }

  predicate SameBlob(a: map<string, Bytes>, b: map<string, Bytes>, name: string) {
    (name in a <==> name in b) && (name in a && name in b ==> a[name] == b[name])
  }

  /** Once its temporary file was cleaned away a record can only fail, and takes a blob that was already stored
      under its hash with it. */
  lemma CleanedAwayErases(hash: Bytes -> string, w: World, id: nat, luck: Luck)
    requires id in w.recs && w.recs[id].live && luck.close
    requires w.recs[id].hashin == "" || w.recs[id].hashin == hash(w.recs[id].sh)
    ensures var v := Next(hash, Next(hash, w, Discard(id)), Conclude(id, luck));
            v.blobs == w.blobs - {hash(w.recs[id].sh)} && v.recs[id].live
  {
  }
}
