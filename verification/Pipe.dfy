/** Duplicating a stream: one reader pulls from the source, and everything it gets is pushed through
a synchronous pipe to a second reader.

A push blocks until the second reader has taken every byte or somebody closes the
pipe: the first reader on an error of the source, a timer when the push takes too
long, or either side giving up.  All of these may happen at any moment.
*/
module Pipe {
  import opened Options

  type Bytes = seq<int>

  datatype Error = Eof | ClosedPipe | Timeout | Other(what: string)

  /** A push in progress: `done` bytes of `chunk` are through; `err` came with the chunk. */
  datatype Push = Push(chunk: Bytes, done: nat, err: Option<Error>)

  /** `drawn` is all the source has delivered, `first` and `second` what the two readers got. */
  datatype State = State(closed: Option<Error>, push: Option<Push>, drawn: Bytes, first: Bytes, second: Bytes)

  datatype Action =
    | Draw(chunk: Bytes, err: Option<Error>)   // the first reader reads from the source
    | Take(size: nat)                          // the second reader reads up to `size` bytes
    | Close(reason: Error)
    | Settle                                   // the push returns to the first reader

  function Shut(s: State, err: Error): State {
    if s.closed.Some? then s else s.(closed := Some(err))
  }

  function Taken(p: Push, size: nat): nat
    requires p.done <= |p.chunk|
  {
    if p.done + size <= |p.chunk| then size else |p.chunk| - p.done
  }

  /** A push has at most all its bytes through. */
  type Pipe = s: State | s.push.Some? ==> s.push.value.done <= |s.push.value.chunk|
    witness State(None, None, [], [], [])

  function Next(s: Pipe, a: Action): Pipe {
    match a
    case Draw(chunk, err) =>
      if s.push.Some? then s
      else if chunk != [] then s.(push := Some(Push(chunk, 0, err)), drawn := s.drawn + chunk)
      else if err.Some? then Shut(s, err.value)
      else s
    case Take(size) =>
      if s.closed.Some? || s.push.None? then s
      else
        var p := s.push.value;
        var k := Taken(p, size);
        s.(push := Some(p.(done := p.done + k)), second := s.second + p.chunk[p.done..p.done + k])
    case Close(err) => Shut(s, err)
    case Settle =>
      if s.push.None? then s
      else
        var p := s.push.value;
        if p.done == |p.chunk| then
          var t := s.(push := None, first := s.first + p.chunk);
          if p.err.Some? then Shut(t, p.err.value) else t
        else if s.closed.Some? then s.(push := None, first := s.first + p.chunk[..p.done])
        else s
  }

  class ClosingPipe {
    var closed: Option<Error>
    var chunk: Bytes
    var done: nat
    var pending: Option<Error>
    var pushing: bool
    ghost var drawn: Bytes
    ghost var first: Bytes
    ghost var second: Bytes

    ghost predicate Valid()
      reads this
    {
      pushing ==> done <= |chunk|
    }

    ghost function Value(): Pipe
      requires Valid()
      reads this
    {
      State(closed, if pushing then Some(Push(chunk, done, pending)) else None, drawn, first, second)
    }

    constructor ()
      ensures Valid() && Value() == State(None, None, [], [], [])
    {
      closed, chunk, done, pending, pushing := None, [], 0, None, false;
      drawn, first, second := [], [], [];
    }

    method CloseWithError(err: Error)
      requires Valid()
      modifies this
      ensures Valid() && Value() == Next(old(Value()), Close(err))
    {
      if closed.None? {
        closed := Some(err);
      }
    }

    /** The first half of a read: up to the point where the push blocks. */
    method StartRead(chunk: Bytes, err: Option<Error>) returns (blocked: bool)
      requires Valid() && !pushing
      modifies this
      ensures Valid() && Value() == Next(old(Value()), Draw(chunk, err))
      ensures blocked <==> chunk != []
    {
      blocked := |chunk| > 0;
      if blocked {
        this.chunk, done, pending, pushing := chunk, 0, err, true;
        drawn := drawn + chunk;
      } else if err.Some? {
        CloseWithError(err.value);
      }
    }

    /** The second half: the push is over, because all bytes are through or the pipe was closed.  A
        push cut short learns the reason only if it wakes before both ends are closed. */
    method EndRead(early: bool) returns (n: nat, err: Option<Error>)
      requires Valid() && pushing && (done == |chunk| || closed.Some?)
      modifies this
      ensures Valid() && Value() == Next(old(Value()), Settle)
      ensures n <= |old(chunk)| && first == old(first) + old(chunk)[..n]
      ensures n < |old(chunk)| ==> err == if early then old(closed) else Some(ClosedPipe)
      ensures n == |old(chunk)| ==> err == old(pending)
    {
      n := done;
      pushing := false;
      first := first + chunk[..n];
      if n < |chunk| {
        return n, if early then closed else Some(ClosedPipe);
      }
      assert chunk[..n] == chunk;
      err := pending;
      if err.Some? {
        CloseWithError(err.value);
      }
    }

    /** A read by the second reader, through the adaptor that turns a closed pipe into end of file. */
    method SecondRead(size: nat) returns (b: Bytes, err: Option<Error>)
      requires Valid() && (closed.Some? || pushing)
      modifies this
      ensures Valid() && Value() == Next(old(Value()), Take(size))
      ensures second == old(second) + b
      ensures old(closed).None? ==>
                |b| == if size <= |old(chunk)| - old(done) then size else |old(chunk)| - old(done)
      ensures if old(closed).Some? then b == [] && err == Some(Eof) else err == None
    {
      if closed.Some? {
        return [], Some(Eof);
      }
      var k := if done + size <= |chunk| then size else |chunk| - done;
      b := chunk[done..done + k];
      done := done + k;
      second := second + b;
      return b, None;
    }
  }

  function Run(s: Pipe, actions: seq<Action>): Pipe
    decreases |actions|
  {
    if actions == [] then s else Run(Next(s, actions[0]), actions[1..])
  }

  /** How much of the push in progress is through. */
  function Through(s: Pipe): Bytes {
    if s.push.Some? then s.push.value.chunk[..s.push.value.done] else []
  }

  function StillToGo(s: Pipe): Bytes {
    if s.push.Some? then s.push.value.chunk[s.push.value.done..] else []
  }

  /** What both readers have got is the same, up to the push in progress, and is what the source
      delivered, up to the same point and as long as nobody closed the pipe. */
  predicate Balanced(s: Pipe) {
    && s.second == s.first + Through(s)
    && s.second <= s.drawn
    && (s.closed.None? ==> s.drawn == s.second + StillToGo(s))
  }

  lemma BalancedTake(s: Pipe, size: nat)
    requires Balanced(s) && s.closed.None? && s.push.Some?
    ensures Balanced(Next(s, Take(size)))
  {
    var p := s.push.value;
    Moved(s.first, s.second, p.chunk, p.done, p.done + Taken(p, size));
  }

  /** Bytes i to j of a chunk change sides. */
  lemma Moved(first: Bytes, second: Bytes, chunk: Bytes, i: nat, j: nat)
    requires i <= j <= |chunk| && second == first + chunk[..i]
    ensures second + chunk[i..j] == first + chunk[..j]
    ensures second + chunk[i..] == second + chunk[i..j] + chunk[j..]
  {
    assert chunk[..j] == chunk[..i] + chunk[i..j];
    assert chunk[i..] == chunk[i..j] + chunk[j..];
  }

  lemma BalancedDraw(s: Pipe, chunk: Bytes, err: Option<Error>)
    requires Balanced(s) && s.push.None? && chunk != []
    ensures Balanced(Next(s, Draw(chunk, err)))
  {
  }

  lemma BalancedSettle(s: Pipe)
    requires Balanced(s) && s.push.Some?
    ensures Balanced(Next(s, Settle))
  {
  }

  lemma BalancedNext(s: Pipe, a: Action)
    requires Balanced(s)
    ensures Balanced(Next(s, a))
  {
    match a {
      case Draw(chunk, err) => if s.push.None? && chunk != [] { BalancedDraw(s, chunk, err); }
      case Take(size) => if s.closed.None? && s.push.Some? { BalancedTake(s, size); }
      case Settle => if s.push.Some? { BalancedSettle(s); }
      case Close(_) =>
    }
  }

  lemma {:induction false} BalancedRun(s: Pipe, actions: seq<Action>)
    requires Balanced(s)
    ensures Balanced(Run(s, actions))
    decreases |actions|
  {
    if actions == [] {
    } else {
      BalancedNext(s, actions[0]);
      BalancedRun(Next(s, actions[0]), actions[1..]);
    }
  }

  /** For every schedule of reads, pushes, source errors and closures: whenever no push is in
      progress both readers have got exactly the same bytes, a prefix of what the source delivered;
      all of it if the pipe is still open. */
  lemma BytesConserved(actions: seq<Action>)
    ensures var s := Run(State(None, None, [], [], []), actions);
            && s.second <= s.drawn
            && (s.push.None? ==> s.first == s.second)
            && (s.push.None? && s.closed.None? ==> s.first == s.drawn)
  {
    BalancedRun(State(None, None, [], [], []), actions);
  }

  /** Once the pipe is closed, nothing that happens afterwards gets a byte to the second reader,
      and the first reader ends up with the same bytes. */
  lemma {:induction false} ClosedIsFinal(s: Pipe, actions: seq<Action>)
    requires Balanced(s) && s.closed.Some?
    ensures var t := Run(s, actions);
            && t.closed == s.closed && t.second == s.second
            && (t.push.None? ==> t.first == s.second)
    decreases |actions|
  {
    if actions == [] {
    } else {
      BalancedNext(s, actions[0]);
      ClosedIsFinal(Next(s, actions[0]), actions[1..]);
    }
  }

  /** What closes an open pipe, and with which reason: a closure, an error of the source without bytes, or the
      end of a push that got through and came with an error.  A reason given before stays. */
  lemma ClosesIff(s: Pipe, a: Action)
    ensures s.closed.Some? ==> Next(s, a).closed == s.closed
    ensures s.closed.None? ==>
              Next(s, a).closed ==
                match a
                case Close(reason) => Some(reason)
                case Draw(chunk, err) => if s.push.None? && chunk == [] then err else None
                case Settle =>
                  if s.push.Some? && s.push.value.done == |s.push.value.chunk| then s.push.value.err else None
                case Take(_) => None
  {
  }

  /** An undisturbed chunk reaches both readers whole, and an error that came with it closes the pipe after it. */
  lemma ChunkPasses(s: Pipe, chunk: Bytes, err: Option<Error>, size: nat)
    requires s.push.None? && s.closed.None? && chunk != [] && |chunk| <= size
    ensures var t := Next(Next(Next(s, Draw(chunk, err)), Take(size)), Settle);
            && t.first == s.first + chunk && t.second == s.second + chunk && t.drawn == s.drawn + chunk
            && t.push.None? && t.closed == err
  {
    assert chunk[0..|chunk|] == chunk;
  }

  /** A push cut short by a closure gives the first reader exactly what the second has taken of it. */
  lemma ClosureCutsShort(s: Pipe, reason: Error)
    requires s.push.Some? && s.closed.None? && s.push.value.done < |s.push.value.chunk|
    ensures Next(s, Settle) == s
    ensures var t := Next(Next(s, Close(reason)), Settle);
            && t.push.None? && t.closed == Some(reason) && t.second == s.second
            && t.first == s.first + s.push.value.chunk[..s.push.value.done]
  {
  }
}
