/** Mirroring a local directory tree to the server with deletion of what is not there locally.

The tree is walked directory by directory; each directory is compared with the
server's listing of it at that moment and yields upload and removal requests.
Workers execute requests in any order, also while the walk is still going on.
Paths are relative to the mirrored directory and its destination.
*/
module Mirror {

  type Path = seq<string>
  type Hash = string

  datatype Entry = File(hash: Hash) | Dir | Special

  /** What is on the local disk, and what the ignore patterns hide. */
  datatype Local = Local(tree: map<Path, Entry>, ignored: Path -> bool)

  /** The files under the destination. */
  type Remote = map<Path, Hash>

  datatype Listing = Listing(files: map<string, Hash>, dirs: set<string>)

  datatype Request = Upload(path: Path, remoteHash: Hash) | RemoveFile(path: Path) | RemoveTree(path: Path)

  /** A directory the walk enters: none of its ancestors, nor itself, is ignored. */
  predicate Walked(l: Local, d: Path) {
    forall k :: 0 <= k <= |d| ==> d[..k] in l.tree && l.tree[d[..k]].Dir? && !l.ignored(d[..k])
  }

  /** A child that takes part in the mirror. */
  predicate LocalName(l: Local, d: Path, n: string) {
    d + [n] in l.tree && !l.tree[d + [n]].Special? && !l.ignored(d + [n])
  }

  /** A file the mirror should show. */
  predicate Kept(l: Local, p: Path) {
    && p != [] && p in l.tree && l.tree[p].File? && !l.ignored(p)
    && Walked(l, p[..|p| - 1])
  }

  function Target(l: Local): Remote {
    map p | p in l.tree && Kept(l, p) :: l.tree[p].hash
  }

  function Last(d: Path, destName: string): string {
    if d == [] then destName else d[|d| - 1]
  }

  /** The server's listing of directory `d`: files directly below it, names that have files further
      down, and, if a file has the name of the directory itself, that file under its own last name. */
  ghost predicate Lists(remote: Remote, d: Path, destName: string, listing: Listing) {
    && (forall n :: n in listing.files <==> d + [n] in remote || (d in remote && n == Last(d, destName)))
    && (forall n :: n in listing.files && d + [n] in remote ==> listing.files[n] == remote[d + [n]])
    && (forall n :: n in listing.dirs <==> n !in listing.files && exists p :: p in remote && d + [n] < p)
  }

  /** Requests for one directory: every local file that the server does not list at all or lists
      as a file, and both kinds of removal for every listed, non-empty name that is not local. */
  predicate Planned(l: Local, d: Path, listing: Listing, r: Request) {
    && |r.path| == |d| + 1 && d < r.path
    && var n := r.path[|d|];
       match r
       case Upload(p, rh) =>
         && LocalName(l, d, n) && l.tree[d + [n]].File?
         && (if n in listing.files then rh == listing.files[n] else n !in listing.dirs && rh == "")
       case _ => n != "" && (n in listing.files || n in listing.dirs) && !LocalName(l, d, n)
  }

  lemma ChildOf(d: Path, p: Path)
    requires |p| == |d| + 1 && d < p
    ensures p == d + [p[|d|]]
  {
  }

  /** Plans one directory.  `children` are the names the local disk lists, in any order. */
  method SyncPath(l: Local, d: Path, children: set<string>, listing: Listing) returns (reqs: set<Request>)
    requires forall n :: n in children <==> d + [n] in l.tree
    requires forall n :: n in children ==> n != ""
    ensures forall r: Request :: r in reqs <==> Planned(l, d, listing, r)
  {
    var localNames := {};
    var left := children;
    while left != {}
      invariant left <= children
      invariant forall n :: n in localNames <==> n in children - left && LocalName(l, d, n)
      decreases left
    {
      var n :| n in left;
      if !l.tree[d + [n]].Special? && !l.ignored(d + [n]) {
        localNames := localNames + {n};
      }
      left := left - {n};
    }

    var remoteNames := (listing.files.Keys + listing.dirs) - {""};
    reqs := {};
    left := localNames;
    while left != {}
      invariant left <= localNames
      invariant forall r: Request :: r in reqs ==> r.Upload? && Planned(l, d, listing, r)
      invariant forall r: Request :: r.Upload? && Planned(l, d, listing, r) && r.path[|d|] !in left ==> r in reqs
      decreases left
    {
      var n :| n in left;
      forall r: Request | Planned(l, d, listing, r)
        ensures r.path == d + [r.path[|d|]]
      {
        ChildOf(d, r.path);
      }
      if l.tree[d + [n]].File? {
        if n !in remoteNames {
          reqs := reqs + {Upload(d + [n], "")};
        } else if n in listing.files {
          reqs := reqs + {Upload(d + [n], listing.files[n])};
        }
      }
      left := left - {n};
    }

    left := remoteNames;
    while left != {}
      invariant left <= remoteNames
      invariant forall r: Request :: r in reqs ==> Planned(l, d, listing, r)
      invariant forall r: Request :: Planned(l, d, listing, r) && (r.Upload? || r.path[|d|] !in left) ==> r in reqs
      decreases left
    {
      var m :| m in left;
      forall r: Request | Planned(l, d, listing, r)
        ensures r.path == d + [r.path[|d|]]
      {
        ChildOf(d, r.path);
      }
      if m !in localNames {
        reqs := reqs + {RemoveFile(d + [m]), RemoveTree(d + [m])};
      }
      left := left - {m};
    }
  }

  /** What a worker makes of a request. */
  function Executed(l: Local, remote: Remote, r: Request): Remote {
    match r
    case Upload(p, rh) =>
      if p in l.tree && l.tree[p].File? && (rh == "" || l.tree[p].hash != rh)
      then remote[p := l.tree[p].hash] else remote
    case RemoveFile(p) => remote - {p}
    case RemoveTree(p) => map q | q in remote && !(p <= q) :: remote[q]
  }

  /** A request does what it is for and touches nothing else: an upload that is needed puts the local file there,
      a removal takes the file, or all files at and below the name. */
  lemma ExecutedOnly(l: Local, remote: Remote, r: Request, q: Path)
    ensures var t := Executed(l, remote, r);
            match r
            case Upload(p, rh) =>
              if q == p && p in l.tree && l.tree[p].File? && (rh == "" || rh != l.tree[p].hash)
              then q in t && t[q] == l.tree[p].hash
              else Same(remote, t, q)
            case RemoveFile(p) => if q == p then q !in t else Same(remote, t, q)
            case RemoveTree(p) => if p <= q then q !in t else Same(remote, t, q)
  {
  }

  predicate Same(remote: Remote, t: Remote, q: Path) {
    (q in remote <==> q in t) && (q in remote && q in t ==> remote[q] == t[q])
  }

  /** A listed name that is not local is removed as a file and as a directory. */
  lemma BothRemovals(l: Local, d: Path, listing: Listing, n: string)
    ensures Planned(l, d, listing, RemoveFile(d + [n])) && Planned(l, d, listing, RemoveTree(d + [n])) <==>
              n != "" && (n in listing.files || n in listing.dirs) && !LocalName(l, d, n)
  {
  }

  /** The mirror at work: directories not yet planned, and requests not yet executed. */
  datatype State = State(remote: Remote, pending: set<Path>, queue: set<Request>)

  datatype Action = Plan(d: Path, listing: Listing, reqs: set<Request>) | Execute(r: Request)

  ghost function Next(l: Local, destName: string, s: State, a: Action): State {
    match a
    case Plan(d, listing, reqs) =>
      if && d in s.pending && Lists(s.remote, d, destName, listing)
         && (forall r: Request :: r in reqs <==> Planned(l, d, listing, r))
      then s.(pending := s.pending - {d}, queue := s.queue + reqs)
      else s
    case Execute(r) =>
      if r in s.queue then s.(remote := Executed(l, s.remote, r), queue := s.queue - {r}) else s
  }

  ghost function Run(l: Local, destName: string, s: State, actions: seq<Action>): State
    decreases |actions|
  {
    if actions == [] then s else Run(l, destName, Next(l, destName, s, actions[0]), actions[1..])
  }

  function Begin(l: Local, remote: Remote): State {
    State(remote, set d | d in l.tree && Walked(l, d), {})
  }

  predicate Done(s: State) {
    s.pending == {} && s.queue == {}
  }

  /** A remote file the mirror can neither overwrite nor reach: it has the name of a local directory,
      lies below the name of a local file, or below an empty name. */
  ghost predicate Stuck(l: Local, p: Path) {
    || Walked(l, p)
    || (exists k :: 0 <= k < |p| && Kept(l, p[..k]))
    || (exists k :: 0 <= k < |p| && Walked(l, p[..k]) && p[k] == "")
  }

  /** Local names are not empty. */
  predicate Named(l: Local) {
    forall p :: p in l.tree ==> "" !in p
  }

  /** Removal requests only name children that are not local. */
  ghost predicate Strange(l: Local, p: Path) {
    p != [] && Walked(l, p[..|p| - 1]) && p[|p| - 1] != "" && !LocalName(l, p[..|p| - 1], p[|p| - 1])
  }

  lemma WalkedPrefix(l: Local, d: Path, x: Path)
    requires Walked(l, d) && x <= d
    ensures Walked(l, x) && (x != [] ==> !Strange(l, x))
  {
    forall j | 0 <= j <= |x|
      ensures x[..j] == d[..j]
    {
    }
    if x != [] {
      assert x[..|x|] == x && x[..|x| - 1] + [x[|x| - 1]] == x;
    }
  }

  /** Neither a mirrored file nor a directory above it is strange. */
  lemma PrefixOfKept(l: Local, p: Path, x: Path)
    requires Kept(l, p) && x <= p
    ensures !Strange(l, x)
  {
    if |x| < |p| {
      WalkedPrefix(l, p[..|p| - 1], x);
    } else {
      assert x == p && x[..|x| - 1] + [x[|x| - 1]] == x;
    }
  }

  /** Nothing at or above a stuck file is strange. */
  lemma PrefixOfStuck(l: Local, p: Path, x: Path)
    requires Named(l) && Stuck(l, p) && x <= p && x != []
    ensures !Strange(l, x)
  {
    var n := |x| - 1;
    if Walked(l, p) {
      WalkedPrefix(l, p, x);
    } else if k :| 0 <= k < |p| && Kept(l, p[..k]) {
      if |x| <= k {
        PrefixOfKept(l, p[..k], x);
      } else {
        assert x[..n][..k] == p[..k];
        assert !Walked(l, x[..n]);
      }
    } else {
      var k :| 0 <= k < |p| && Walked(l, p[..k]) && p[k] == "";
      if |x| <= k {
        WalkedPrefix(l, p[..k], x);
      } else if k < n {
        assert x[..n][k] == "" && x[..n][..n] == x[..n];
        assert x[..n] !in l.tree;
        assert !Walked(l, x[..n]);
      }
    }
  }

  lemma WalkedChild(l: Local, d: Path, n: string)
    requires Walked(l, d) && LocalName(l, d, n) && l.tree[d + [n]].Dir?
    ensures Walked(l, d + [n])
  {
    var c := d + [n];
    forall j | 0 <= j <= |c|
      ensures c[..j] in l.tree && l.tree[c[..j]].Dir? && !l.ignored(c[..j])
    {
      if j <= |d| { assert c[..j] == d[..j]; } else { assert c[..j] == c; }
    }
  }

  /** Every path below a walked directory is mirrored, stuck, or at or below a strange name. */
  lemma {:induction false} StrangeAbove(l: Local, p: Path, k: nat)
    requires k < |p| && Walked(l, p[..k])
    ensures Kept(l, p) || Stuck(l, p) || exists n :: 0 < n <= |p| && Strange(l, p[..n])
    decreases |p| - k
  {
    var c := p[..k + 1];
    assert c[..k] == p[..k] && p[..k] + [p[k]] == c;
    assert k + 1 == |p| ==> c == p;
    if LocalName(l, p[..k], p[k]) {
      if l.tree[c].File? {
        assert Kept(l, c);
      } else {
        WalkedChild(l, p[..k], p[k]);
        if k + 1 < |p| { StrangeAbove(l, p, k + 1); }
      }
    } else if p[k] != "" {
      assert Strange(l, p[..k + 1]);
    }
  }

  /** Uploads only concern mirrored files, removals only strange names. */
  ghost predicate QueueOk(l: Local, s: State) {
    && (forall d :: d in s.pending ==> Walked(l, d))
    && (forall r :: r in s.queue ==> if r.Upload? then Kept(l, r.path) else Strange(l, r.path))
  }

  lemma QueueOkNext(l: Local, destName: string, s: State, a: Action)
    requires QueueOk(l, s)
    ensures QueueOk(l, Next(l, destName, s, a))
  {
    var t := Next(l, destName, s, a);
    forall r | r in t.queue && r !in s.queue
      ensures if r.Upload? then Kept(l, r.path) else Strange(l, r.path)
    {
      ChildOf(a.d, r.path);
      assert r.path[..|r.path| - 1] == a.d;
    }
  }

  /** Stuck files stay. */
  lemma {:induction false} StuckStays(l: Local, destName: string, s: State, actions: seq<Action>, p: Path)
    requires Named(l) && QueueOk(l, s) && Stuck(l, p) && p in s.remote
    ensures p in Run(l, destName, s, actions).remote
    decreases |actions|
  {
    if actions == [] {
    } else {
      var a := actions[0];
      if a.Execute? && a.r in s.queue && !a.r.Upload? && a.r.path <= p {
        PrefixOfStuck(l, p, a.r.path);
      }
      QueueOkNext(l, destName, s, a);
      StuckStays(l, destName, Next(l, destName, s, a), actions[1..], p);
    }
  }

  lemma KeptNotStuck(l: Local, p: Path)
    requires Named(l) && Kept(l, p)
    ensures !Stuck(l, p)
  {
    assert p[..|p|] == p;
    forall k | 0 <= k < |p|
      ensures !Kept(l, p[..k]) && p[k] != ""
    {
      assert p[..|p| - 1][..k] == p[..k];
    }
  }

  /** A file to be removed: its strange name is still to be planned or queued for removal. */
  ghost predicate Doomed(l: Local, s: State, p: Path, n: nat) {
    0 < n <= |p| && Strange(l, p[..n]) && (p[..n - 1] in s.pending || RemoveTree(p[..n]) in s.queue)
  }

  /** The server has file p as it is locally, or will be asked to take it. */
  ghost predicate Served(l: Local, s: State, p: Path)
    requires Kept(l, p)
  {
    || p[..|p| - 1] in s.pending
    || (p in s.remote && s.remote[p] == l.tree[p].hash)
    || exists rh :: Upload(p, rh) in s.queue && (rh == "" || rh != l.tree[p].hash)
  }

  ghost predicate Inv(l: Local, s: State) {
    && QueueOk(l, s)
    && (forall p :: p in s.remote ==> !Stuck(l, p))
    && (forall p :: p in s.remote ==> Kept(l, p) || exists n :: Doomed(l, s, p, n))
    && (forall p :: Kept(l, p) ==> Served(l, s, p))
  }

  lemma InvBegin(l: Local, remote: Remote)
    requires Named(l) && Walked(l, []) && forall p :: p in remote ==> !Stuck(l, p)
    ensures Inv(l, Begin(l, remote))
  {
    var s := Begin(l, remote);
    forall p | p in remote && !Kept(l, p)
      ensures exists n :: Doomed(l, s, p, n)
    {
      assert p[..0] == [];
      StrangeAbove(l, p, 0);
      var n :| 0 < n <= |p| && Strange(l, p[..n]);
      assert p[..n][..n - 1] == p[..n - 1];
      assert p[..n - 1][..n - 1] == p[..n - 1];
      assert Doomed(l, s, p, n);
    }
    forall p | Kept(l, p)
      ensures Served(l, s, p)
    {
      var d := p[..|p| - 1];
      assert d[..|d|] == d;
    }
  }

  lemma ListedBelow(remote: Remote, d: Path, destName: string, listing: Listing, p: Path, name: string)
    requires Lists(remote, d, destName, listing) && p in remote && d + [name] <= p
    ensures name in listing.files || name in listing.dirs
  {
    if d + [name] == p {
      assert name in listing.files;
    } else {
      assert d + [name] < p;
    }
  }

  lemma PlanDooms(l: Local, destName: string, s: State, a: Action, p: Path, n: nat)
    requires a.Plan? && p in s.remote && Doomed(l, s, p, n)
    ensures Doomed(l, Next(l, destName, s, a), p, n)
  {
    var t := Next(l, destName, s, a);
    if t != s && p[..n - 1] == a.d {
      var x, name := p[..n], p[n - 1];
      assert x[..n - 1] == a.d && a.d + [name] == x;
      ListedBelow(s.remote, a.d, destName, a.listing, p, name);
      assert Planned(l, a.d, a.listing, RemoveTree(x));
    }
  }

  lemma BelowKept(l: Local, p: Path, q: Path)
    requires Kept(l, p) && p < q
    ensures Stuck(l, q)
  {
    assert q[..|p|] == p;
  }

  lemma NothingBelow(l: Local, s: State, p: Path)
    requires Inv(l, s) && Kept(l, p)
    ensures forall q :: q in s.remote ==> !(p < q)
  {
    forall q | q in s.remote
      ensures !(p < q)
    {
      if p < q { BelowKept(l, p, q); }
    }
  }

  lemma PlanServes(l: Local, destName: string, s: State, a: Action, p: Path)
    requires Inv(l, s) && a.Plan? && Kept(l, p)
    ensures Served(l, Next(l, destName, s, a), p)
  {
    var t := Next(l, destName, s, a);
    assert Served(l, s, p);
    if t != s && p[..|p| - 1] == a.d {
      var d, n := a.d, p[|p| - 1];
      assert d + [n] == p && d < p;
      assert Walked(l, d) && d !in s.remote;
      if n in a.listing.files {
        assert Planned(l, d, a.listing, Upload(p, s.remote[p]));
        assert Upload(p, s.remote[p]) in t.queue;
      } else {
        NothingBelow(l, s, p);
        assert Planned(l, d, a.listing, Upload(p, ""));
        assert Upload(p, "") in t.queue;
      }
    }
  }

  lemma ExecuteDooms(l: Local, destName: string, s: State, r: Request, p: Path, n: nat)
    requires Doomed(l, s, p, n) && p in Next(l, destName, s, Execute(r)).remote
    ensures Doomed(l, Next(l, destName, s, Execute(r)), p, n)
  {
  }

  lemma ExecuteServes(l: Local, destName: string, s: State, r: Request, p: Path)
    requires Inv(l, s) && Kept(l, p)
    ensures Served(l, Next(l, destName, s, Execute(r)), p)
  {
    assert Served(l, s, p);
    if r in s.queue && !r.Upload? && r.path <= p {
      PrefixOfKept(l, p, r.path);
    }
  }

  lemma InvNext(l: Local, destName: string, s: State, a: Action)
    requires Named(l) && Inv(l, s)
    ensures Inv(l, Next(l, destName, s, a))
  {
    var t := Next(l, destName, s, a);
    QueueOkNext(l, destName, s, a);
    forall p | p in t.remote
      ensures !Stuck(l, p)
      ensures Kept(l, p) || exists n :: Doomed(l, t, p, n)
    {
      if Kept(l, p) {
        KeptNotStuck(l, p);
      } else {
        assert p in s.remote;
        var n :| Doomed(l, s, p, n);
        if a.Plan? { PlanDooms(l, destName, s, a, p, n); } else { ExecuteDooms(l, destName, s, a.r, p, n); }
      }
    }
    forall p | Kept(l, p)
      ensures Served(l, t, p)
    {
      if a.Plan? { PlanServes(l, destName, s, a, p); } else { ExecuteServes(l, destName, s, a.r, p); }
    }
  }

  lemma {:induction false} InvRun(l: Local, destName: string, s: State, actions: seq<Action>)
    requires Named(l) && Inv(l, s)
    ensures Inv(l, Run(l, destName, s, actions))
    decreases |actions|
  {
    if actions == [] {
    } else {
      InvNext(l, destName, s, actions[0]);
      InvRun(l, destName, Next(l, destName, s, actions[0]), actions[1..]);
    }
  }

  /** However planning and execution interleave, once nothing is left to do the server shows exactly
      the mirrored files with their hashes, if and only if no file was stuck to begin with. */
  lemma MirrorConvergesIff(l: Local, destName: string, remote: Remote, actions: seq<Action>)
    requires Named(l) && Walked(l, [])
    requires Done(Run(l, destName, Begin(l, remote), actions))
    ensures Run(l, destName, Begin(l, remote), actions).remote == Target(l) <==>
              forall p :: p in remote ==> !Stuck(l, p)
  {
    var s, t := Begin(l, remote), Run(l, destName, Begin(l, remote), actions);
    if p :| p in remote && Stuck(l, p) {
      StuckStays(l, destName, s, actions, p);
      if Kept(l, p) { KeptNotStuck(l, p); }
    } else {
      InvBegin(l, remote);
      InvRun(l, destName, s, actions);
      forall p
        ensures p in t.remote <==> p in Target(l)
        ensures p in t.remote && p in Target(l) ==> t.remote[p] == Target(l)[p]
      {
        assert forall n :: !Doomed(l, t, p, n);
        if Kept(l, p) {
          assert Served(l, t, p);
        }
      }
    }
  }

  /** The server can always answer with a listing. */
  lemma ListingExists(remote: Remote, d: Path, destName: string) returns (listing: Listing)
    ensures Lists(remote, d, destName, listing)
  {
    var own := if d in remote then {Last(d, destName)} else {};
    var names := own + set p | p in remote && |p| == |d| + 1 && d < p :: p[|d|];
    var files := map n | n in names :: if d + [n] in remote then remote[d + [n]] else "";
    var dirs := set p | p in remote && |p| > |d| + 1 && d < p && p[|d|] !in names :: p[|d|];
    listing := Listing(files, dirs);
    forall n
      ensures n in names <==> d + [n] in remote || (d in remote && n == Last(d, destName))
      ensures n in dirs <==> n !in names && exists p :: p in remote && d + [n] < p
    {
      if d + [n] in remote { assert (d + [n])[|d|] == n; }
      forall p | p in remote && |p| > |d| && d < p && p[|d|] == n
        ensures d + [n] <= p && (|p| == |d| + 1 ==> p == d + [n])
      {
        if |p| == |d| + 1 { ChildOf(d, p); }
      }
      if p :| p in remote && d + [n] < p { assert p[|d|] == n && d < p; }
    }
  }

  /** For every directory there are finitely many requests to make. */
  lemma PlanExists(l: Local, d: Path, listing: Listing) returns (reqs: set<Request>)
    ensures forall r: Request :: r in reqs <==> Planned(l, d, listing, r)
  {
    var names := listing.files.Keys + listing.dirs;
    var known := set p | p in l.tree && |p| == |d| + 1 ::
      Upload(p, if p[|d|] in listing.files then listing.files[p[|d|]] else "");
    var all := known + (set n | n in names :: RemoveFile(d + [n])) + (set n | n in names :: RemoveTree(d + [n]));
    reqs := set r | r in all && Planned(l, d, listing, r);
    forall r: Request | Planned(l, d, listing, r)
      ensures r in all
    {
      ChildOf(d, r.path);
    }
  }

  /** From any state the mirror can be brought to an end. */
  lemma {:induction false} CanFinish(l: Local, destName: string, s: State) returns (actions: seq<Action>)
    ensures Done(Run(l, destName, s, actions))
    decreases |s.pending|, |s.queue|
  {
    if Done(s) {
      return [];
    }
    var a: Action;
    if s.pending != {} {
      var d :| d in s.pending;
      var listing := ListingExists(s.remote, d, destName);
      var reqs := PlanExists(l, d, listing);
      a := Plan(d, listing, reqs);
    } else {
      var r :| r in s.queue;
      a := Execute(r);
    }
    var rest := CanFinish(l, destName, Next(l, destName, s, a));
    actions := [a] + rest;
    assert actions[1..] == rest;
  }
}
