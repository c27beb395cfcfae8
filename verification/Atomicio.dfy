/** atomiciov6 of ssh/atomicio.c: transferring all of a vector of buffers in spite of short
    transfers.  What the system calls and the callback return is a schedule. */
module Atomicio {
  import opened Wire

  /** IOV_MAX. */
  const IOV_MAX := 1024

  /** One call of readv or writev; `stop` is a callback that returns -1. */
  datatype Call = Interrupted | Again | Failed | Eof | Moved(n: nat, stop: bool)

  datatype Outcome =
    | Complete(pos: nat) | EndOfFile(pos: nat) | Stopped(pos: nat) | Waiting(pos: nat)
    | TooMany | SystemError | Fault

  function Flat(iov: seq<Bytes>): Bytes { if iov == [] then [] else iov[0] + Flat(iov[1..]) }

  /** A call that moves something moves at least one byte. */
  predicate Positive(schedule: seq<Call>) { forall i | 0 <= i < |schedule| && schedule[i].Moved? :: schedule[i].n > 0 }

  // ----- What it is to do

  /** The outcome for the bytes still to be transferred; how they are cut into buffers plays no
      part. */
  function Transfer(rest: Bytes, pos: nat, schedule: seq<Call>): Outcome
    decreases |schedule|
  {
    if rest == [] then Complete(pos)
    else if schedule == [] then Waiting(pos)
    else match schedule[0]
      case Interrupted => Transfer(rest, pos, schedule[1..])
      case Again => Transfer(rest, pos, schedule[1..])
      case Failed => SystemError
      case Eof => EndOfFile(pos)
      case Moved(n, stop) =>
        if n > |rest| then Fault
        else if stop then Stopped(pos + n)
        else Transfer(rest[n..], pos + n, schedule[1..])
  }

  /** The bytes that the calls have moved, in order. */
  function Sent(rest: Bytes, schedule: seq<Call>): Bytes
    decreases |schedule|
  {
    if rest == [] || schedule == [] then []
    else match schedule[0]
      case Interrupted => Sent(rest, schedule[1..])
      case Again => Sent(rest, schedule[1..])
      case Failed => []
      case Eof => []
      case Moved(n, stop) =>
        if n > |rest| then rest else rest[..n] + if stop then [] else Sent(rest[n..], schedule[1..])
  }

  /** No call that is made reports more than it was offered. */
  predicate Honest(rest: Bytes, schedule: seq<Call>)
    decreases |schedule|
  {
    rest == [] || schedule == [] ||
    match schedule[0]
    case Interrupted => Honest(rest, schedule[1..])
    case Again => Honest(rest, schedule[1..])
    case Failed => true
    case Eof => true
    case Moved(n, stop) => n <= |rest| && (stop || Honest(rest[n..], schedule[1..]))
  }

  // ----- What comes of it, for every schedule

  /** What is moved is a prefix, each byte once and in order; all of it on completion, and as many
      bytes as the position says otherwise. */
  lemma {:induction false} SentInOrder(rest: Bytes, pos: nat, schedule: seq<Call>)
    ensures Sent(rest, schedule) <= rest
    ensures match Transfer(rest, pos, schedule)
            case Complete(p) => Sent(rest, schedule) == rest && p == pos + |rest|
            case EndOfFile(p) => p == pos + |Sent(rest, schedule)|
            case Stopped(p) => p == pos + |Sent(rest, schedule)|
            case Waiting(p) => p == pos + |Sent(rest, schedule)|
            case TooMany => false
            case SystemError => true
            case Fault => true
    decreases |schedule|
  {
    if rest != [] && schedule != [] {
      match schedule[0]
      case Interrupted => SentInOrder(rest, pos, schedule[1..]);
      case Again => SentInOrder(rest, pos, schedule[1..]);
      case Failed =>
      case Eof =>
      case Moved(n, stop) =>
        if n <= |rest| {
          SentInOrder(rest[n..], pos + n, schedule[1..]);
          assert rest == rest[..n] + rest[n..];
        }
    }
  }

  /** The branch that should not happen is taken exactly when a call reports too much. */
  lemma {:induction false} FaultIff(rest: Bytes, pos: nat, schedule: seq<Call>)
    ensures Transfer(rest, pos, schedule) == Fault <==> !Honest(rest, schedule)
    decreases |schedule|
  {
    if rest != [] && schedule != [] {
      match schedule[0]
      case Interrupted => FaultIff(rest, pos, schedule[1..]);
      case Again => FaultIff(rest, pos, schedule[1..]);
      case Failed =>
      case Eof =>
      case Moved(n, stop) => if n <= |rest| { FaultIff(rest[n..], pos + n, schedule[1..]); }
    }
  }

  // ----- The loops

  lemma FlatFirst(iov: seq<Bytes>, i: nat)
    requires i < |iov|
    ensures Flat(iov[i..]) == iov[i] + Flat(iov[i + 1..])
  {
    assert iov[i..][1..] == iov[i + 1..];
  }

  lemma FlatEnd(iov: seq<Bytes>)
    ensures Flat(iov[|iov|..]) == []
  {
  }

  /** The inner loop: skip the entries that are complete, and cut the one that is not.  It fails
      exactly when more was reported than offered. */
  method Advance(a: array<Bytes>, first: nat, n: nat) returns (next: nat, ok: bool)
    requires first <= a.Length && n > 0
    modifies a
    ensures first <= next <= a.Length && ok == (n <= |Flat(old(a[first..]))|)
    ensures ok ==> Flat(a[next..]) == Flat(old(a[first..]))[n..] && (next < a.Length ==> a[next] != [])
  {
    ghost var s := a[..];
    ghost var all := Flat(s[first..]);
    assert a[first..] == s[first..];
    var rem := n;
    next := first;
    while next < a.Length && rem >= |a[next]|
      invariant first <= next <= a.Length && a[..] == s
      invariant 0 <= rem <= n && n - rem <= |all| && Flat(s[next..]) == all[n - rem..]
    {
      FlatFirst(s, next);
      rem := rem - |a[next]|;
      next := next + 1;
    }
    if next == a.Length {
      FlatEnd(s);
      assert a[next..] == s[next..];
      return next, rem == 0;
    }
    FlatFirst(s, next);
    a[next] := a[next][rem..];
    assert a[next..] == [s[next][rem..]] + s[next + 1..];
    assert Flat(a[next..]) == s[next][rem..] + Flat(s[next + 1..]) by { assert a[next..][1..] == s[next + 1..]; }
    ok := true;
  }

  /** What a call that reports `n` bytes has moved of the bytes it was offered. */
  function Taken(offered: Bytes, n: nat): Bytes { if n > |offered| then offered else offered[..n] }

  lemma {:induction false} OneCall(rest: Bytes, pos: nat, schedule: seq<Call>, k: nat)
    requires rest != [] && k < |schedule|
    ensures Transfer(rest, pos, schedule[k..]) ==
            match schedule[k]
            case Interrupted => Transfer(rest, pos, schedule[k + 1..])
            case Again => Transfer(rest, pos, schedule[k + 1..])
            case Failed => SystemError
            case Eof => EndOfFile(pos)
            case Moved(n, stop) =>
              if n > |rest| then Fault
              else if stop then Stopped(pos + n)
              else Transfer(rest[n..], pos + n, schedule[k + 1..])
  {
    assert schedule[k..][1..] == schedule[k + 1..];
  }

  lemma {:induction false} OneCallSends(rest: Bytes, schedule: seq<Call>, k: nat)
    requires rest != [] && k < |schedule|
    ensures Sent(rest, schedule[k..]) ==
            match schedule[k]
            case Interrupted => Sent(rest, schedule[k + 1..])
            case Again => Sent(rest, schedule[k + 1..])
            case Failed => []
            case Eof => []
            case Moved(n, stop) =>
              Taken(rest, n) + if n > |rest| || stop then [] else Sent(rest[n..], schedule[k + 1..])
  {
    assert schedule[k..][1..] == schedule[k + 1..];
  }

  lemma {:induction false} NoCall(rest: Bytes, pos: nat, schedule: seq<Call>)
    ensures Transfer([], pos, schedule) == Complete(pos) && Sent([], schedule) == []
    ensures rest != [] ==> Transfer(rest, pos, schedule[|schedule|..]) == Waiting(pos)
    ensures Sent(rest, schedule[|schedule|..]) == []
  {
  }

  /** atomiciov6; `sent` is what the calls have moved, taken from the entries they were offered.
      A first entry without bytes ends it at once; otherwise the entries behave as one buffer. */
  method Atomiciov(iov0: seq<Bytes>, schedule: seq<Call>) returns (o: Outcome, sent: Bytes)
    requires Positive(schedule)
    ensures o == if |iov0| > IOV_MAX then TooMany
                 else if iov0 == [] || iov0[0] == [] then Complete(0)
                 else Transfer(Flat(iov0), 0, schedule)
    ensures sent == if |iov0| > IOV_MAX || iov0 == [] || iov0[0] == [] then [] else Sent(Flat(iov0), schedule)
    ensures sent <= Flat(iov0) && (o.Complete? && iov0 != [] && iov0[0] != [] ==> sent == Flat(iov0))
  {
    if |iov0| > IOV_MAX { return TooMany, []; }
    var iov := new Bytes[|iov0|](i requires 0 <= i < |iov0| => iov0[i]);
    assert iov[0..] == iov0;
    if |iov0| == 0 || iov[0] == [] { return Complete(0), []; }
    o, sent := TransferLoop(iov, schedule);
    SentInOrder(Flat(iov0), 0, schedule);
  }

  /** Its loop, on the copy of the vector. */
  method TransferLoop(iov: array<Bytes>, schedule: seq<Call>) returns (o: Outcome, sent: Bytes)
    requires Positive(schedule) && 0 < iov.Length && iov[0] != []
    modifies iov
    ensures o == Transfer(Flat(old(iov[0..])), 0, schedule)
    ensures sent == Sent(Flat(old(iov[0..])), schedule)
  {
    hide Transfer;
    hide Sent;
    hide Flat;
    hide Taken;
    var first, pos, k := 0, 0, 0;
    sent := [];
    assert schedule[0..] == schedule;
    while first < iov.Length && iov[first] != []
      invariant first <= iov.Length && k <= |schedule| && (first < iov.Length ==> iov[first] != [])
      invariant Transfer(Flat(iov[first..]), pos, schedule[k..]) == Transfer(Flat(old(iov[0..])), 0, schedule)
      invariant sent + Sent(Flat(iov[first..]), schedule[k..]) == Sent(Flat(old(iov[0..])), schedule)
      decreases |schedule| - k
    {
      var offered := Flat(iov[first..]);
      RestNotEmpty(iov[..], first);
      assert iov[..][first..] == iov[first..];
      if k == |schedule| {
        NoCall(offered, pos, schedule);
        return Waiting(pos), sent;
      }
      OneCall(offered, pos, schedule, k);
      OneCallSends(offered, schedule, k);
      var call := schedule[k];
      k := k + 1;
      match call
      case Interrupted =>
      case Again =>
      case Failed => return SystemError, sent;
      case Eof => return EndOfFile(pos), sent;
      case Moved(n, stop) =>
        sent := sent + Taken(offered, n);
        var ok;
        first, ok := Advance(iov, first, n);
        if !ok { return Fault, sent; }
        pos := pos + n;
        if stop { return Stopped(pos), sent; }
    }
    FlatEnd(iov[..]);
    assert iov[..][iov.Length..] == iov[first..];
    NoCall([], pos, schedule[k..]);
    return Complete(pos), sent;
  }

  lemma RestNotEmpty(iov: seq<Bytes>, first: nat)
    requires first < |iov| && iov[first] != []
    ensures Flat(iov[first..]) != []
  {
    FlatFirst(iov, first);
  }
}
