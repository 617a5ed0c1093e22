/** Leases on a cluster-wide task.

A node starts a task by adding a marker that expires; a forced start overwrites the
marker.  While it works through its pages the node renews the marker: it reads it,
checks that it still carries its own name, and writes it back with compare-and-swap
and a fresh expiry.  A renewal clears the node to start one page, some time later.
*/
module Leases {
  import opened Options

  type NodeId = string

  /** `None` never expires: the expiry a renewal writes when the period has dropped below a second. */
  type Expiry = Option<nat>

  datatype Marker = Marker(node: NodeId, expires: Expiry, version: nat)

  /** `grants` is what each node believes it holds, `seen` the version its renewal has read,
      `cleared` who has renewed and not yet started a page, `pages` the pages each has started. */
  datatype Task = Task(
    now: nat,
    marker: Option<Marker>,
    version: nat,
    grants: map<NodeId, Expiry>,
    seen: map<NodeId, nat>,
    running: set<NodeId>,
    cleared: set<NodeId>,
    pages: map<NodeId, nat>)

  datatype Action =
    | Wait(elapsed: nat)
    | TryRun(node: NodeId, ttl: nat)
    | ForceRun(node: NodeId, ttl: nat)
    | RelockRead(node: NodeId)
    | RelockWrite(node: NodeId, ttl: nat)
    | StartPage(node: NodeId)

  predicate Live(e: Expiry, now: nat) {
    e.None? || now < e.value
  }

  function Until(now: nat, ttl: nat): Expiry {
    if ttl == 0 then None else Some(now + ttl)
  }

  predicate Marked(s: Task) {
    s.marker.Some? && Live(s.marker.value.expires, s.now)
  }

  predicate Holds(s: Task, n: NodeId) {
    n in s.grants && Live(s.grants[n], s.now)
  }

  function PagesOf(s: Task, n: NodeId): nat {
    if n in s.pages then s.pages[n] else 0
  }

  function Acquire(s: Task, n: NodeId, ttl: nat): Task {
    s.(marker := Some(Marker(n, Until(s.now, ttl), s.version)), version := s.version + 1,
       grants := s.grants[n := Until(s.now, ttl)], seen := s.seen - {n}, running := s.running + {n},
       cleared := s.cleared - {n})
  }

  function GiveUp(s: Task, n: NodeId): Task {
    s.(grants := s.grants - {n}, seen := s.seen - {n}, running := s.running - {n}, cleared := s.cleared - {n})
  }

  function Next(s: Task, a: Action): Task {
    match a
    case Wait(elapsed) => s.(now := s.now + elapsed)
    case TryRun(n, ttl) =>
      if ttl < 1 || Marked(s) then s else Acquire(s, n, ttl)
    case ForceRun(n, ttl) =>
      if ttl < 1 then s else Acquire(s, n, ttl)
    case RelockRead(n) =>
      if n !in s.running then s
      else if !Marked(s) || s.marker.value.node != n then GiveUp(s, n)
      else s.(seen := s.seen[n := s.marker.value.version], cleared := s.cleared - {n})
    case RelockWrite(n, ttl) =>
      if n !in s.seen then s
      else if !Marked(s) || s.marker.value.version != s.seen[n] then GiveUp(s, n)
      else Acquire(s, n, ttl).(cleared := s.cleared + {n})
    case StartPage(n) =>
      if n !in s.cleared then s
      else s.(cleared := s.cleared - {n}, pages := s.pages[n := PagesOf(s, n) + 1])
  }

  function Run(s: Task, actions: seq<Action>): Task
    decreases |actions|
  {
    if actions == [] then s else Run(Next(s, actions[0]), actions[1..])
  }

  predicate Initial(s: Task) {
    s.marker == None && s.grants == map[] && s.seen == map[] && s.cleared == {}
  }

  predicate Exclusive(s: Task) {
    forall m, n :: m in s.grants && n in s.grants && Holds(s, m) && Holds(s, n) ==> m == n
  }

  predicate Unforced(actions: seq<Action>) {
    forall a :: a in actions ==> !a.ForceRun?
  }

  ghost predicate ExclusiveAlways(forced: bool) {
    forall s, actions :: Initial(s) && (forced || Unforced(actions)) ==> Exclusive(Run(s, actions))
  }

  /** A renewal that has read the present marker belongs to the node named in it. */
  predicate ReadsOk(s: Task) {
    && (s.marker.Some? ==> s.marker.value.version < s.version)
    && (forall n :: n in s.seen ==> s.seen[n] < s.version && n in s.running && n !in s.cleared)
    && s.cleared <= s.running
    && (forall n :: n in s.seen && s.marker.Some? && s.marker.value.version == s.seen[n] ==> s.marker.value.node == n)
  }

  /** Whoever holds a live lease is named in the marker. */
  predicate GrantsOk(s: Task) {
    forall n :: n in s.grants && Holds(s, n) ==>
      s.marker.Some? && s.marker.value.node == n && s.marker.value.expires == s.grants[n]
  }

  lemma ReadsOkNext(s: Task, a: Action)
    requires ReadsOk(s)
    ensures ReadsOk(Next(s, a))
  {
  }

  lemma {:induction false} ReadsOkRun(s: Task, actions: seq<Action>)
    requires ReadsOk(s)
    ensures ReadsOk(Run(s, actions))
    decreases |actions|
  {
    if actions == [] {
    } else {
      ReadsOkNext(s, actions[0]);
      ReadsOkRun(Next(s, actions[0]), actions[1..]);
    }
  }

  lemma {:induction false} GrantsOkRun(s: Task, actions: seq<Action>)
    requires ReadsOk(s) && GrantsOk(s) && Unforced(actions)
    ensures GrantsOk(Run(s, actions))
    decreases |actions|
  {
    if actions == [] {
    } else {
      assert actions[0] in actions;
      ReadsOkNext(s, actions[0]);
      GrantsOkRun(Next(s, actions[0]), actions[1..]);
    }
  }

  /** No two nodes hold live leases on a task at once, exactly when no run is forced. */
  lemma ExclusiveIff(forced: bool)
    ensures ExclusiveAlways(forced) <==> !forced
  {
    if forced {
      var s := Task(0, None, 0, map[], map[], {}, {}, map[]);
      var s1 := Next(s, TryRun("a", 10));
      var s2 := Next(s1, ForceRun("b", 10));
      var actions := [TryRun("a", 10), ForceRun("b", 10)];
      assert actions[1..] == [ForceRun("b", 10)];
      assert Run(s1, [ForceRun("b", 10)]) == Run(s2, []);
      assert Run(s, actions) == s2;
      assert Holds(s2, "a") && Holds(s2, "b");
    } else {
      forall s, actions | Initial(s) && Unforced(actions)
        ensures Exclusive(Run(s, actions))
      {
        GrantsOkRun(s, actions);
      }
    }
  }

  predicate StartedBy(a: Action, n: NodeId) {
    (a.TryRun? || a.ForceRun?) && a.node == n
  }

  /** Node `n` can no longer renew. */
  predicate Ousted(s: Task, n: NodeId) {
    && (s.marker.Some? ==> s.marker.value.node != n)
    && ReadsOk(s)
  }

  /** A renewal by `n`, or the rest of one it had begun. */
  predicate Renews(s: Task, n: NodeId, a: Action) {
    (a.RelockRead? && a.node == n) || (a.RelockWrite? && a.node == n && n in s.seen)
  }

  /** The actions contain a renewal by `n`, or the rest of one it had begun. */
  predicate TriesToRenew(s: Task, n: NodeId, actions: seq<Action>) {
    exists a :: a in actions && Renews(s, n, a)
  }

  /** The actions have `n` start a page before they have it renew. */
  predicate StartsFirst(n: NodeId, actions: seq<Action>) {
    && actions != []
    && !(actions[0].RelockRead? && actions[0].node == n)
    && (actions[0] == StartPage(n) || StartsFirst(n, actions[1..]))
  }

  lemma OustedNext(s: Task, n: NodeId, a: Action)
    requires Ousted(s, n) && !StartedBy(a, n)
    ensures var t := Next(s, a);
            && Ousted(t, n)
            && PagesOf(t, n) == PagesOf(s, n) + (if n in s.cleared && a == StartPage(n) then 1 else 0)
            && (n in t.cleared <==> n in s.cleared && a != StartPage(n) && !Renews(s, n, a))
            && (n !in s.running || Renews(s, n, a) ==> n !in t.running)
            && (n in s.seen && !Renews(s, n, a) ==> n in t.seen)
  {
    ReadsOkNext(s, a);
  }

  /** A node that can no longer renew starts exactly one more page, or none: one if it was cleared
      for it and starts it before it tries to renew again. */
  lemma {:induction false} OustedRun(s: Task, n: NodeId, actions: seq<Action>)
    requires Ousted(s, n)
    requires forall a :: a in actions ==> !StartedBy(a, n)
    ensures var t := Run(s, actions);
            && PagesOf(t, n) == PagesOf(s, n) + (if n in s.cleared && StartsFirst(n, actions) then 1 else 0)
            && (n !in s.running || TriesToRenew(s, n, actions) ==> n !in t.running && n !in t.cleared)
    decreases |actions|
  {
    if actions == [] {
    } else {
      var a := actions[0];
      assert a in actions;
      OustedNext(s, n, a);
      OustedRun(Next(s, a), n, actions[1..]);
      assert forall b :: b in actions ==> b == a || b in actions[1..];
    }
  }

  /** After another node's forced start, a node that does not start the task itself begins at most
      the one page an earlier renewal had cleared it for, exactly when it gets to it before its next
      renewal; and that renewal, even one already half done, ends its run with nothing cleared. */
  lemma TakeoverStops(
      start: Task, before: seq<Action>, n: NodeId, m: NodeId, ttl: nat, actions: seq<Action>)
    requires Initial(start) && m != n && ttl >= 1
    requires forall a :: a in actions ==> !StartedBy(a, n)
    ensures var s := Run(start, before);
            var t := Next(s, ForceRun(m, ttl));
            var u := Run(t, actions);
            && PagesOf(u, n) == PagesOf(s, n) + (if n in s.cleared && StartsFirst(n, actions) then 1 else 0)
            && (TriesToRenew(t, n, actions) ==> n !in u.running && n !in u.cleared)
  {
    var s := Run(start, before);
    ReadsOkRun(start, before);
    ReadsOkNext(s, ForceRun(m, ttl));
    OustedRun(Next(s, ForceRun(m, ttl)), n, actions);
  }

  /** `n` runs the task and holds the lease until `expires`; the marker says the same. */
  predicate Holder(s: Task, n: NodeId, expires: Expiry) {
    && n in s.running && n in s.grants && s.grants[n] == expires
    && s.marker.Some? && s.marker.value.node == n && s.marker.value.expires == expires
  }

  /** A start succeeds exactly when it is forced or there is no live marker; otherwise nothing changes. */
  lemma StartsIff(s: Task, n: NodeId, ttl: nat, forced: bool)
    requires ttl >= 1
    ensures var t := Next(s, if forced then ForceRun(n, ttl) else TryRun(n, ttl));
            if forced || s.marker.None? || !Live(s.marker.value.expires, s.now)
            then Holder(t, n, Some(s.now + ttl)) && n !in t.cleared
            else t == s
  {
  }

  /** Once a marker has expired, or when there is none, anybody can start. */
  lemma ExpiredThenStarts(s: Task, n: NodeId, ttl: nat)
    requires ttl >= 1 && (s.marker.Some? ==> s.marker.value.expires.Some?)
    ensures var wait := if s.marker.Some? then s.marker.value.expires.value else 0;
            Holder(Next(Next(s, Wait(wait)), TryRun(n, ttl)), n, Some(s.now + wait + ttl))
  {
  }

  /** A renewal reads the marker exactly when it is live and names the node, and otherwise ends the run. */
  lemma RelockReadsIff(s: Task, n: NodeId)
    requires n in s.running
    ensures var t := Next(s, RelockRead(n));
            if s.marker.Some? && Live(s.marker.value.expires, s.now) && s.marker.value.node == n
            then n in t.running && n in t.seen && t.seen[n] == s.marker.value.version && t.grants == s.grants
            else n !in t.running && n !in t.grants && n !in t.seen
    ensures Next(s, RelockRead(n)).marker == s.marker
  {
  }

  /** A renewal succeeds exactly when the marker is live and still the one that was read: then the node goes
      on with the marker in its name and a fresh expiry, cleared for a page.  Otherwise its run ends and the
      marker stays as it is. */
  lemma RenewsIff(s: Task, n: NodeId, ttl: nat)
    requires n in s.seen
    ensures var t := Next(s, RelockWrite(n, ttl));
            if s.marker.Some? && Live(s.marker.value.expires, s.now) && s.marker.value.version == s.seen[n]
            then && Holder(t, n, if ttl == 0 then None else Some(s.now + ttl))
                 && n in t.cleared && n !in t.seen
            else n !in t.running && n !in t.grants && n !in t.cleared && t.marker == s.marker
  {
  }

  /** One node's own view of its run: until when it holds the lease, whether it is in the middle of a renewal,
      whether it is cleared for a page, and how many pages it has started. */
  datatype Course = Course(now: nat, expires: Expiry, reading: bool, clear: bool, pages: nat)

  /** What an action means to node `n` as long as nobody takes the lease from it. */
  function Follow(c: Course, n: NodeId, a: Action): Course {
    match a
    case Wait(elapsed) => c.(now := c.now + elapsed)
    case RelockRead(m) => if m == n then c.(reading := true, clear := false) else c
    case RelockWrite(m, ttl) =>
      if m == n && c.reading
      then c.(reading := false, clear := true, expires := if ttl == 0 then None else Some(c.now + ttl))
      else c
    case StartPage(m) => if m == n && c.clear then c.(clear := false, pages := c.pages + 1) else c
    case _ => c
  }

  /** Nobody forces a start, `n` does not start again, and it renews before each expiry. */
  predicate InTime(c: Course, n: NodeId, actions: seq<Action>)
    decreases |actions|
  {
    && Live(c.expires, c.now)
    && (actions != [] ==>
          && !actions[0].ForceRun? && !StartedBy(actions[0], n)
          && InTime(Follow(c, n, actions[0]), n, actions[1..]))
  }

  function FollowAll(c: Course, n: NodeId, actions: seq<Action>): Course
    decreases |actions|
  {
    if actions == [] then c else FollowAll(Follow(c, n, actions[0]), n, actions[1..])
  }

  predicate OnCourse(s: Task, n: NodeId, c: Course) {
    && Holder(s, n, c.expires) && s.now == c.now && PagesOf(s, n) == c.pages
    && (n in s.cleared <==> c.clear)
    && (n in s.seen <==> c.reading) && (n in s.seen ==> s.seen[n] == s.marker.value.version)
  }

  lemma FollowNext(s: Task, n: NodeId, c: Course, a: Action)
    requires ReadsOk(s) && OnCourse(s, n, c) && Live(c.expires, c.now)
    requires !a.ForceRun? && !StartedBy(a, n)
    ensures OnCourse(Next(s, a), n, Follow(c, n, a))
  {
  }

  /** A node that renews in time and is not forced out goes through its run as if it were alone, whatever the
      other nodes try: every renewal succeeds, and it starts exactly one page for each renewal that it follows
      with a page. */
  lemma {:induction false} HolderGoesOn(s: Task, n: NodeId, c: Course, actions: seq<Action>)
    requires ReadsOk(s) && OnCourse(s, n, c) && InTime(c, n, actions)
    ensures OnCourse(Run(s, actions), n, FollowAll(c, n, actions))
    ensures Holds(Run(s, actions), n)
    decreases |actions|
  {
    if actions == [] {
    } else {
      FollowNext(s, n, c, actions[0]);
      ReadsOkNext(s, actions[0]);
      HolderGoesOn(Next(s, actions[0]), n, Follow(c, n, actions[0]), actions[1..]);
    }
  }

  /** Renew, start a page, and then the rest. */
  function Round(n: NodeId, ttl: nat, rest: seq<Action>): seq<Action> {
    [RelockRead(n)] + ([RelockWrite(n, ttl)] + ([StartPage(n)] + rest))
  }

  function Rounds(n: NodeId, ttl: nat, k: nat): seq<Action> {
    if k == 0 then [] else Round(n, ttl, Rounds(n, ttl, k - 1))
  }

  lemma FollowCons(c: Course, n: NodeId, a: Action, rest: seq<Action>)
    requires Live(c.expires, c.now) && !a.ForceRun? && !StartedBy(a, n)
    ensures FollowAll(c, n, [a] + rest) == FollowAll(Follow(c, n, a), n, rest)
    ensures InTime(Follow(c, n, a), n, rest) ==> InTime(c, n, [a] + rest)
  {
    assert ([a] + rest)[1..] == rest;
  }

  predicate Harmless(c: Course, n: NodeId, a: Action) {
    Live(c.expires, c.now) && !a.ForceRun? && !StartedBy(a, n)
  }

  lemma FollowThree(c: Course, n: NodeId, a1: Action, a2: Action, a3: Action, rest: seq<Action>)
    requires Harmless(c, n, a1) && Harmless(Follow(c, n, a1), n, a2)
    requires Harmless(Follow(Follow(c, n, a1), n, a2), n, a3)
    ensures var d := Follow(Follow(Follow(c, n, a1), n, a2), n, a3);
            var actions := [a1] + ([a2] + ([a3] + rest));
            && FollowAll(c, n, actions) == FollowAll(d, n, rest)
            && (InTime(d, n, rest) ==> InTime(c, n, actions))
  {
    var c1 := Follow(c, n, a1);
    var r3 := [a3] + rest;
    var r2 := [a2] + r3;
    FollowCons(Follow(c1, n, a2), n, a3, rest);
    FollowCons(c1, n, a2, r3);
    FollowCons(c, n, a1, r2);
  }

  lemma {:induction false} RoundsFollowed(c: Course, n: NodeId, ttl: nat, k: nat)
    requires ttl >= 1 && Live(c.expires, c.now)
    ensures InTime(c, n, Rounds(n, ttl, k)) && FollowAll(c, n, Rounds(n, ttl, k)).pages == c.pages + k
    decreases k
  {
    if k == 0 {
    } else {
      var d := c.(expires := Some(c.now + ttl), reading := false, clear := false, pages := c.pages + 1);
      RoundsFollowed(d, n, ttl, k - 1);
      FollowThree(c, n, RelockRead(n), RelockWrite(n, ttl), StartPage(n), Rounds(n, ttl, k - 1));
    }
  }

  /** After any start the task gets done: k renewals, each followed by a page, start k pages. */
  lemma StartedRunGoesOn(start: Task, before: seq<Action>, n: NodeId, ttl: nat, k: nat)
    requires Initial(start) && ttl >= 1
    ensures var s := Next(Run(start, before), ForceRun(n, ttl));
            PagesOf(Run(s, Rounds(n, ttl, k)), n) == PagesOf(s, n) + k
  {
    var s := Next(Run(start, before), ForceRun(n, ttl));
    ReadsOkRun(start, before);
    ReadsOkNext(Run(start, before), ForceRun(n, ttl));
    var c := Course(s.now, Some(s.now + ttl), false, false, PagesOf(s, n));
    RoundsFollowed(c, n, ttl, k);
    HolderGoesOn(s, n, c, Rounds(n, ttl, k));
  }
}
