/** Two channel ends and the messages in flight between them, over every interleaving of
    their handlers.  Packets arrive in order and unchanged. */
module ChannelPair {
  import opened Channel

  /** What has passed through an end since the channel was opened. */
  datatype History = History(
    fdRead: Bytes, fdWritten: Bytes,  // bytes read from and written to the local descriptors
    efdRead: Bytes, efdWritten: Bytes,
    received: Bytes, extReceived: Bytes,  // data and extended data that arrived
    leaked: nat,  // extended data that arrived and was dropped without touching the window
    reset: nat,  // output thrown away when a write failed
    faked: nat,  // data consumed unseen because the output end was closed
    writeFailed: bool)

  const NO_HISTORY := History([], [], [], [], [], [], 0, 0, 0, false)

  datatype End = End(c: Chan, h: History)

  datatype Event =
    | ReadData(data: Bytes)
    | ReadFails
    | Poll
    | Receive
    | WriteData(n: nat)
    | WriteFails
    | ReadExtended(data: Bytes)
    | WriteExtended(n: nat)
    | EfdFails
    | Check
    | Drain
    | StartClosing(sent: bool, rcvd: bool)
    | Activate(usage: Usage, efd: bool, windowMax: U32)

  /** When the main loop can run the handler. */
  predicate Enabled(e: End, ev: Event)
  {
    match ev
    case ReadData(_) | ReadFails => e.c.open && e.c.istate.InputOpen?
    case Poll | Check | Receive | StartClosing(_, _) => true
    case WriteData(n) => e.c.open && !e.c.ostate.OutputClosed? && 0 < n <= |e.c.output|
    case WriteFails => e.c.open && !e.c.ostate.OutputClosed? && |e.c.output| > 0
    case ReadExtended(_) => e.c.open && e.c.efd && !e.c.eofSent && !e.c.usage.Write?
    case WriteExtended(n) => e.c.open && e.c.efd && e.c.usage.Write? && 0 < n <= |e.c.extended|
    case EfdFails => e.c.open && e.c.efd
    case Drain => e.c.open
    case Activate(_, _, _) => !e.c.open
  }

  /** A handler that receives nothing, and the messages it sends. */
  function Local(e: End, ev: Event): (End, seq<Msg>)
    requires Enabled(e, ev) && ev != Receive
  {
    var c, h := e.c, e.h;
    match ev
    case ReadData(data) => (End(ReadRfd(c, data), h.(fdRead := h.fdRead + data)), [])
    case ReadFails => (End(ReadRfdFailed(c), h), [])
    case Poll => var p := OutputPoll(c); (End(p.0, h), p.1)
    case WriteData(n) => (End(WriteWfd(c, n), h.(fdWritten := h.fdWritten + c.output[..n])), [])
    case WriteFails =>
      (End(WriteWfdFailed(c), h.(reset := h.reset + |c.output|, writeFailed := true)), [])
    case ReadExtended(data) =>
      (End(ReadEfd(c, data), if c.usage.Read? then h.(efdRead := h.efdRead + data) else h), [])
    case WriteExtended(n) => (End(WriteEfd(c, n), h.(efdWritten := h.efdWritten + c.extended[..n])), [])
    case EfdFails => (End(CloseEfd(c), h), [])
    case Check => var p := CheckWindow(c); (End(p.0, h), p.1)
    case Drain => (End(DrainOutput(c), h), [])
    case StartClosing(sent, rcvd) =>
      (End(c.(closeSent := c.closeSent || sent, closeRcvd := c.closeRcvd || rcvd), h), [])
    case Activate(usage, efd, windowMax) => var p := SetFds(c, usage, efd, windowMax); (End(p.0, h), p.1)
  }

  /** The history after a message. */
  function Record(e: End, m: Msg): History
  {
    match m
    case Data(data) =>
      e.h.(received := e.h.received + data, faked := e.h.faked + if e.c.ostate.OutputOpen? then 0 else |data|)
    case ExtendedData(data) =>
      e.h.(extReceived := e.h.extReceived + data, leaked := e.h.leaked + if BadExtended(e.c) then |data| else 0)
    case _ => e.h
  }

  /** An end receives a message. */
  function Accept(e: End, m: Msg): End { End(Input(e.c, m), Record(e, m)) }

  datatype Pair = Pair(a: End, b: End, ab: seq<Msg>, ba: seq<Msg>)

  function Swap(p: Pair): Pair { Pair(p.b, p.a, p.ba, p.ab) }

  /** A handler of end `a` runs; nothing happens when it cannot. */
  function StepA(p: Pair, ev: Event): Pair
  {
    if ev == Receive then
      if p.ba == [] then p else p.(a := Accept(p.a, p.ba[0]), ba := p.ba[1..])
    else if !Enabled(p.a, ev) then p
    else var r := Local(p.a, ev); p.(a := r.0, ab := p.ab + r.1)
  }

  datatype Action = AtA(ev: Event) | AtB(ev: Event)

  function Step(p: Pair, act: Action): Pair
  {
    match act
    case AtA(ev) => StepA(p, ev)
    case AtB(ev) => Swap(StepA(Swap(p), ev))
  }

  function Exec(p: Pair, acts: seq<Action>): Pair
  {
    if acts == [] then p else Step(Exec(p, acts[..|acts| - 1]), acts[|acts| - 1])
  }

  /** One side of the open exchange; a larval channel offers no window yet. */
  datatype Offer = Offer(open: bool, usage: Usage, efd: bool, window: U32, maxpack: U32)

  function Window(o: Offer): U32 { if o.open then o.window else 0 }

  /** Both ends once the open and its confirmation have been exchanged. */
  function Start(a: Offer, b: Offer): Pair
  {
    Pair(End(New(a.open, a.usage, a.efd, Window(a), a.maxpack, Window(b), b.maxpack), NO_HISTORY),
         End(New(b.open, b.usage, b.efd, Window(b), b.maxpack, Window(a), a.maxpack), NO_HISTORY), [], [])
  }

  // ----- What is in flight

  function DataIn(m: Msg): Bytes { if m.Data? then m.data else [] }
  function ExtIn(m: Msg): Bytes { if m.ExtendedData? then m.data else [] }
  function AdjustIn(m: Msg): nat { if m.WindowAdjust? then m.n else 0 }

  function DataOf(q: seq<Msg>): Bytes { if q == [] then [] else DataIn(q[0]) + DataOf(q[1..]) }
  function ExtOf(q: seq<Msg>): Bytes { if q == [] then [] else ExtIn(q[0]) + ExtOf(q[1..]) }
  function Adjusts(q: seq<Msg>): nat { if q == [] then 0 else AdjustIn(q[0]) + Adjusts(q[1..]) }

  lemma {:induction false} DataAppend(q: seq<Msg>, r: seq<Msg>)
    ensures DataOf(q + r) == DataOf(q) + DataOf(r)
  {
    if q == [] {
      assert q + r == r;
    } else {
      DataAppend(q[1..], r);
      assert (q + r)[0] == q[0] && (q + r)[1..] == q[1..] + r;
      MoveHead(DataIn(q[0]), DataOf(q[1..]), DataOf(r));
    }
  }

  lemma {:induction false} ExtAppend(q: seq<Msg>, r: seq<Msg>)
    ensures ExtOf(q + r) == ExtOf(q) + ExtOf(r)
  {
    if q == [] {
      assert q + r == r;
    } else {
      ExtAppend(q[1..], r);
      assert (q + r)[0] == q[0] && (q + r)[1..] == q[1..] + r;
      MoveHead(ExtIn(q[0]), ExtOf(q[1..]), ExtOf(r));
    }
  }

  lemma {:induction false} AdjustsAppend(q: seq<Msg>, r: seq<Msg>)
    ensures Adjusts(q + r) == Adjusts(q) + Adjusts(r)
  {
    if q == [] {
      assert q + r == r;
    } else {
      AdjustsAppend(q[1..], r);
      assert (q + r)[1..] == q[1..] + r;
    }
  }

  lemma InFlightOne(m: Msg)
    ensures DataOf([m]) == DataIn(m)
    ensures ExtOf([m]) == ExtIn(m)
    ensures Adjusts([m]) == AdjustIn(m)
  {
  }

  // ----- One direction: what its sender and its receiver have to do with it

  datatype Sender = Sender(window: U32, input: Bytes, ext: Bytes, closed: bool, eofSent: bool,
                           fdRead: Bytes, efdRead: Bytes)

  datatype Receiver = Receiver(window: U32, max: U32, consumed: U32, output: Bytes, ext: Bytes, bad: bool,
                               ostate: OutputState, eofRcvd: bool, fdWritten: Bytes, efdWritten: Bytes,
                               received: Bytes, extReceived: Bytes,
                               leaked: nat, reset: nat, faked: nat, writeFailed: bool)

  function Sending(e: End): Sender
  {
    Sender(e.c.remoteWindow, e.c.input, if e.c.usage.Read? then e.c.extended else [], e.c.istate.InputClosed?,
           e.c.eofSent, e.h.fdRead, e.h.efdRead)
  }

  function Receiving(e: End): Receiver
  {
    Receiver(e.c.localWindow, e.c.localWindowMax, e.c.localConsumed, e.c.output,
             if e.c.usage.Write? then e.c.extended else [], BadExtended(e.c), e.c.ostate, e.c.eofRcvd,
             e.h.fdWritten, e.h.efdWritten, e.h.received, e.h.extReceived,
             e.h.leaked, e.h.reset, e.h.faked, e.h.writeFailed)
  }

  ghost predicate Windows(s: Sender, r: Receiver, fwd: seq<Msg>, back: seq<Msg>)
  {
    && r.window == s.window + |DataOf(fwd)| + |ExtOf(fwd)| + Adjusts(back) + r.leaked
    && r.window + r.consumed + |r.output| + |r.ext| + r.reset == r.max
  }

  ghost predicate Stream(s: Sender, r: Receiver, fwd: seq<Msg>)
  {
    && s.fdRead == r.received + DataOf(fwd) + s.input
    && r.fdWritten + r.output <= r.received
    && |r.received| == |r.fdWritten| + |r.output| + r.reset + r.faked
  }

  ghost predicate ExtStream(s: Sender, r: Receiver, fwd: seq<Msg>)
  {
    && s.efdRead == r.extReceived + ExtOf(fwd) + s.ext
    && r.efdWritten + r.ext <= r.extReceived
    && |r.extReceived| == |r.efdWritten| + |r.ext| + r.leaked
    && (r.leaked > 0 ==> r.bad)
  }

  /** Nothing follows an end of file. */
  ghost predicate EofLast(q: seq<Msg>)
  {
    forall i, j | 0 <= i < j < |q| :: q[i].Eof? ==> !q[j].Data? && !q[j].ExtendedData?
  }

  ghost predicate Quiet(q: seq<Msg>) { forall i | 0 <= i < |q| :: !q[i].Data? && !q[i].ExtendedData? }

  ghost predicate Eofs(s: Sender, r: Receiver, fwd: seq<Msg>)
  {
    && (s.eofSent <==> s.closed)
    && (s.eofSent ==> s.input == [])
    && EofLast(fwd)
    && (Eof in fwd ==> s.eofSent)
    && (r.eofRcvd ==> s.eofSent && Quiet(fwd))
    && (!r.ostate.OutputOpen? ==> r.eofRcvd || r.writeFailed)
    && (r.reset + r.faked > 0 ==> r.writeFailed)
    && (r.writeFailed ==> r.ostate.OutputClosed?)
    && (r.ostate.OutputClosed? ==> r.output == [])
  }

  ghost predicate Direction(s: Sender, r: Receiver, fwd: seq<Msg>, back: seq<Msg>)
  {
    Windows(s, r, fwd, back) && Stream(s, r, fwd) && ExtStream(s, r, fwd) && Eofs(s, r, fwd)
  }

  /** A larval end has done nothing yet. */
  ghost predicate Larval(e: End)
  {
    !e.c.open ==>
      && e.c.input == [] && e.c.output == [] && e.c.extended == []
      && e.c.localWindowMax == 0 && e.h.extReceived == [] && e.h.efdRead == [] && e.h.efdWritten == []
  }

  ghost predicate Inv(p: Pair)
  {
    && Direction(Sending(p.a), Receiving(p.b), p.ab, p.ba)
    && Direction(Sending(p.b), Receiving(p.a), p.ba, p.ab)
    && Larval(p.a) && Larval(p.b)
  }

  // ----- The sender acts

  lemma {:induction false} InFlightSnoc(q: seq<Msg>, m: Msg)
    ensures DataOf(q + [m]) == DataOf(q) + DataIn(m)
    ensures ExtOf(q + [m]) == ExtOf(q) + ExtIn(m)
    ensures Adjusts(q + [m]) == Adjusts(q) + AdjustIn(m)
  {
    DataAppend(q, [m]);
    ExtAppend(q, [m]);
    AdjustsAppend(q, [m]);
    InFlightOne(m);
  }

  lemma EofSnoc(q: seq<Msg>, m: Msg)
    requires EofLast(q) && (Eof in q ==> !m.Data? && !m.ExtendedData?)
    ensures EofLast(q + [m])
  {
  }

  lemma SplitStream(before: Bytes, buf: Bytes, len: nat)
    requires len <= |buf|
    ensures before + buf == before + buf[..len] + buf[len..]
  {
  }

  lemma MoveHead(a: Bytes, b: Bytes, c: Bytes)
    ensures a + (b + c) == a + b + c
  {
  }

  /** The first `len` bytes of the input leave in a data message. */
  lemma SendData(s: Sender, r: Receiver, fwd: seq<Msg>, back: seq<Msg>, len: nat, window: U32)
    requires Direction(s, r, fwd, back) && len <= |s.input| && window == s.window - len && !s.closed
    ensures Direction(s.(input := s.input[len..], window := window), r, fwd + [Data(s.input[..len])], back)
  {
    var m := Data(s.input[..len]);
    InFlightSnoc(fwd, m);
    EofSnoc(fwd, m);
    SplitStream(r.received + DataOf(fwd), s.input, len);
    MoveHead(r.received, DataOf(fwd), s.input[..len]);
    assert ExtOf(fwd + [m]) == ExtOf(fwd);
  }

  lemma SendExtended(s: Sender, r: Receiver, fwd: seq<Msg>, back: seq<Msg>, len: nat, window: U32)
    requires Direction(s, r, fwd, back) && len <= |s.ext| && window == s.window - len && !s.eofSent
    ensures Direction(s.(ext := s.ext[len..], window := window), r, fwd + [ExtendedData(s.ext[..len])], back)
  {
    var m := ExtendedData(s.ext[..len]);
    InFlightSnoc(fwd, m);
    EofSnoc(fwd, m);
    SplitStream(r.extReceived + ExtOf(fwd), s.ext, len);
    MoveHead(r.extReceived, ExtOf(fwd), s.ext[..len]);
    assert DataOf(fwd + [m]) == DataOf(fwd);
  }

  lemma SendEof(s: Sender, r: Receiver, fwd: seq<Msg>, back: seq<Msg>)
    requires Direction(s, r, fwd, back) && s.input == []
    ensures Direction(s.(closed := true, eofSent := true), r, fwd + [Eof], back)
  {
    InFlightSnoc(fwd, Eof);
    EofSnoc(fwd, Eof);
    assert DataOf(fwd + [Eof]) == DataOf(fwd) && ExtOf(fwd + [Eof]) == ExtOf(fwd);
  }

  lemma SendAdjust(s: Sender, r: Receiver, fwd: seq<Msg>, back: seq<Msg>, n: U32)
    requires Direction(s, r, fwd, back)
    ensures Direction(s, r, fwd + [WindowAdjust(n)], back)
  {
    var m := WindowAdjust(n);
    InFlightSnoc(fwd, m);
    EofSnoc(fwd, m);
    assert DataOf(fwd + [m]) == DataOf(fwd) && ExtOf(fwd + [m]) == ExtOf(fwd);
  }

  lemma ReadGrows(s: Sender, r: Receiver, fwd: seq<Msg>, back: seq<Msg>, data: Bytes)
    requires Direction(s, r, fwd, back) && !s.closed
    ensures Direction(s.(input := s.input + data, fdRead := s.fdRead + data), r, fwd, back)
  {
    MoveHead(r.received + DataOf(fwd), s.input, data);
  }

  lemma ReadExtendedGrows(s: Sender, r: Receiver, fwd: seq<Msg>, back: seq<Msg>, data: Bytes)
    requires Direction(s, r, fwd, back)
    ensures Direction(s.(ext := s.ext + data, efdRead := s.efdRead + data), r, fwd, back)
  {
    MoveHead(r.extReceived + ExtOf(fwd), s.ext, data);
  }

  lemma PollInputSends(e: End, r: Receiver, fwd: seq<Msg>, back: seq<Msg>)
    requires Direction(Sending(e), r, fwd, back)
    ensures Direction(Sending(End(PollInput(e.c).0, e.h)), r, fwd + PollInput(e.c).1, back)
  {
    var p := PollInput(e.c);
    if p.1 == [] {
      assert fwd + [] == fwd;
    } else if !e.c.istate.InputClosed? && |e.c.input| > 0 {
      var len := SendLength(e.c, |e.c.input|);
      SendData(Sending(e), r, fwd, back, len, e.c.remoteWindow - len);
      assert Sending(End(p.0, e.h)) == Sending(e).(input := e.c.input[len..], window := e.c.remoteWindow - len);
    } else {
      SendEof(Sending(e), r, fwd, back);
      assert Sending(End(p.0, e.h)) == Sending(e).(closed := true, eofSent := true);
    }
  }

  lemma PollExtendedSends(e: End, r: Receiver, fwd: seq<Msg>, back: seq<Msg>)
    requires Direction(Sending(e), r, fwd, back)
    ensures Direction(Sending(End(PollExtended(e.c).0, e.h)), r, fwd + PollExtended(e.c).1, back)
  {
    var p := PollExtended(e.c);
    if p.1 == [] {
      assert fwd + [] == fwd;
    } else {
      var len := SendLength(e.c, |e.c.extended|);
      SendExtended(Sending(e), r, fwd, back, len, e.c.remoteWindow - len);
      assert Sending(End(p.0, e.h)) == Sending(e).(ext := e.c.extended[len..], window := e.c.remoteWindow - len);
    }
  }

  lemma PollSends(e: End, r: Receiver, fwd: seq<Msg>, back: seq<Msg>)
    requires Direction(Sending(e), r, fwd, back)
    ensures Direction(Sending(End(OutputPoll(e.c).0, e.h)), r, fwd + OutputPoll(e.c).1, back)
  {
    hide PollInput;
    hide PollExtended;
    hide Direction;
    hide Sending;
    if e.c.open && !e.c.Closing() {
      var p := PollInput(e.c);
      PollInputSends(e, r, fwd, back);
      PollExtendedSends(End(p.0, e.h), r, fwd + p.1, back);
      assert fwd + p.1 + PollExtended(p.0).1 == fwd + (p.1 + PollExtended(p.0).1);
    } else {
      assert fwd + [] == fwd;
    }
  }

  /** Whatever an end does on its own, what it sends keeps to the invariant. */
  lemma LocalSends(e: End, r: Receiver, fwd: seq<Msg>, back: seq<Msg>, ev: Event)
    requires Direction(Sending(e), r, fwd, back) && Larval(e) && Enabled(e, ev) && ev != Receive
    ensures Direction(Sending(Local(e, ev).0), r, fwd + Local(e, ev).1, back)
  {
    var s, e' := Sending(e), Local(e, ev).0;
    assert fwd + [] == fwd;
    match ev {
      case Poll => PollSends(e, r, fwd, back);
      case ReadData(data) =>
        ReadGrows(s, r, fwd, back, data);
        assert Sending(e') == s.(input := s.input + data, fdRead := s.fdRead + data);
      case ReadExtended(data) =>
        ReadExtendedGrows(s, r, fwd, back, data);
        assert e.c.usage.Read? ==> Sending(e') == s.(ext := s.ext + data, efdRead := s.efdRead + data);
        assert !e.c.usage.Read? ==> Sending(e') == s;
      case Check =>
        assert Sending(e') == s;
        if WindowLow(e.c) { SendAdjust(s, r, fwd, back, e.c.localConsumed); }
      case Activate(_, _, windowMax) =>
        assert Sending(e') == s;
        SendAdjust(s, r, fwd, back, windowMax);
      case _ =>
    }
  }

  // ----- The receiver acts

  lemma WriteShrinks(s: Sender, r: Receiver, fwd: seq<Msg>, back: seq<Msg>, n: nat, consumed: U32)
    requires Direction(s, r, fwd, back) && n <= |r.output| && consumed == r.consumed + n
    ensures Direction(s, r.(output := r.output[n..], consumed := consumed, fdWritten := r.fdWritten + r.output[..n]),
                      fwd, back)
  {
    SplitStream(r.fdWritten, r.output, n);
  }

  lemma WriteExtendedShrinks(s: Sender, r: Receiver, fwd: seq<Msg>, back: seq<Msg>, n: nat, consumed: U32)
    requires Direction(s, r, fwd, back) && n <= |r.ext| && consumed == r.consumed + n
    ensures Direction(s, r.(ext := r.ext[n..], consumed := consumed, efdWritten := r.efdWritten + r.ext[..n]),
                      fwd, back)
  {
    SplitStream(r.efdWritten, r.ext, n);
  }

  lemma WriteFailsResets(s: Sender, r: Receiver, fwd: seq<Msg>, back: seq<Msg>)
    requires Direction(s, r, fwd, back)
    ensures Direction(s, r.(output := [], ostate := OutputClosed, reset := r.reset + |r.output|, writeFailed := true),
                      fwd, back)
  {
    assert r.fdWritten + [] <= r.fdWritten + r.output;
  }

  lemma GiveBack(s: Sender, r: Receiver, fwd: seq<Msg>, back: seq<Msg>, window: U32, n: U32)
    requires Direction(s, r, fwd, back) && n == r.consumed && window == r.window + n
    ensures Direction(s, r.(window := window, consumed := 0), fwd, back + [WindowAdjust(n)])
  {
    InFlightSnoc(back, WindowAdjust(n));
  }

  lemma ActivateAdjusts(s: Sender, r: Receiver, fwd: seq<Msg>, back: seq<Msg>, windowMax: U32, bad: bool)
    requires Direction(s, r, fwd, back) && r.max == 0
    ensures Direction(s, r.(window := windowMax, max := windowMax, bad := bad), fwd, back + [WindowAdjust(windowMax)])
  {
    InFlightSnoc(back, WindowAdjust(windowMax));
  }

  lemma PollAdjustsNothing(s: Sender, r: Receiver, fwd: seq<Msg>, back: seq<Msg>, c: Chan)
    requires Direction(s, r, fwd, back)
    ensures Direction(s, r, fwd, back + OutputPoll(c).1)
  {
    AdjustsAppend(back, OutputPoll(c).1);
    if c.open && !c.Closing() {
      var p := PollInput(c);
      AdjustsAppend(p.1, PollExtended(p.0).1);
    }
  }

  lemma PollKeepsReceiving(e: End)
    ensures Receiving(End(OutputPoll(e.c).0, e.h)) == Receiving(e)
  {
  }

  lemma DrainKeeps(s: Sender, r: Receiver, fwd: seq<Msg>, back: seq<Msg>)
    requires Direction(s, r, fwd, back) && r.ostate.OutputWaitDrain? && r.output == []
    ensures Direction(s, r.(ostate := OutputClosed), fwd, back)
  {
  }

  lemma BadKeeps(s: Sender, r: Receiver, fwd: seq<Msg>, back: seq<Msg>)
    requires Direction(s, r, fwd, back)
    ensures Direction(s, r.(bad := true), fwd, back)
  {
  }

  /** Whatever an end does on its own, what it receives keeps to the invariant. */
  lemma LocalReceives(s: Sender, e: End, fwd: seq<Msg>, back: seq<Msg>, ev: Event)
    requires Direction(s, Receiving(e), fwd, back) && Larval(e) && Enabled(e, ev) && ev != Receive
    ensures Direction(s, Receiving(Local(e, ev).0), fwd, back + Local(e, ev).1)
  {
    assert back + [] == back;
    match ev {
      case Poll =>
        PollKeepsReceiving(e);
        PollAdjustsNothing(s, Receiving(e), fwd, back, e.c);
      case Check | Activate(_, _, _) => LocalAdjusts(s, e, fwd, back, ev);
      case WriteData(_) | WriteExtended(_) | WriteFails => LocalWrites(s, e, fwd, back, ev);
      case Drain => LocalDrains(s, e, fwd, back);
      case EfdFails =>
        BadKeeps(s, Receiving(e), fwd, back);
        assert Receiving(Local(e, ev).0) == Receiving(e).(bad := true);
      case ReadData(_) | ReadFails | ReadExtended(_) | StartClosing(_, _) => QuietReceiving(e, ev);
    }
  }

  lemma LocalDrains(s: Sender, e: End, fwd: seq<Msg>, back: seq<Msg>)
    requires Direction(s, Receiving(e), fwd, back)
    ensures Direction(s, Receiving(End(DrainOutput(e.c), e.h)), fwd, back)
  {
    var r' := Receiving(End(DrainOutput(e.c), e.h));
    if r' != Receiving(e) {
      DrainKeeps(s, Receiving(e), fwd, back);
      assert r' == Receiving(e).(ostate := OutputClosed);
    }
  }

  lemma AdjustReceiving(e: End, ev: Event)
    requires Larval(e) && Enabled(e, ev) && (ev.Check? || ev.Activate?)
    ensures ev.Activate? ==>
              Receiving(Local(e, ev).0)
              == Receiving(e).(window := ev.windowMax, max := ev.windowMax, bad := Receiving(Local(e, ev).0).bad)
    ensures ev.Check? && WindowLow(e.c) ==>
              Receiving(Local(e, ev).0) == Receiving(e).(window := Add(e.c.localWindow, e.c.localConsumed),
                                                         consumed := 0)
    ensures ev.Check? && !WindowLow(e.c) ==> Receiving(Local(e, ev).0) == Receiving(e)
  {
  }

  lemma LocalAdjusts(s: Sender, e: End, fwd: seq<Msg>, back: seq<Msg>, ev: Event)
    requires Direction(s, Receiving(e), fwd, back) && Larval(e) && Enabled(e, ev) && (ev.Check? || ev.Activate?)
    ensures Direction(s, Receiving(Local(e, ev).0), fwd, back + Local(e, ev).1)
  {
    hide DataOf;
    hide ExtOf;
    hide Adjusts;
    var r := Receiving(e);
    AdjustReceiving(e, ev);
    if ev.Activate? {
      ActivateAdjusts(s, r, fwd, back, ev.windowMax, Receiving(Local(e, ev).0).bad);
    } else if WindowLow(e.c) {
      GiveBack(s, r, fwd, back, r.window + r.consumed, r.consumed);
    } else {
      assert back + [] == back;
    }
  }

  lemma QuietReceiving(e: End, ev: Event)
    requires Enabled(e, ev) && (ev.ReadData? || ev.ReadFails? || ev.ReadExtended? || ev.StartClosing?)
    ensures Receiving(Local(e, ev).0) == Receiving(e)
  {
  }

  lemma LocalWrites(s: Sender, e: End, fwd: seq<Msg>, back: seq<Msg>, ev: Event)
    requires Direction(s, Receiving(e), fwd, back) && Enabled(e, ev)
    requires ev.WriteData? || ev.WriteExtended? || ev.WriteFails?
    ensures Direction(s, Receiving(Local(e, ev).0), fwd, back)
  {
    hide DataOf;
    hide ExtOf;
    hide Adjusts;
    var r, r' := Receiving(e), Receiving(Local(e, ev).0);
    match ev {
      case WriteData(n) =>
        WriteShrinks(s, r, fwd, back, n, r.consumed + n);
        assert r' == r.(output := r.output[n..], consumed := r.consumed + n, fdWritten := r.fdWritten + r.output[..n]);
      case WriteExtended(n) =>
        WriteExtendedShrinks(s, r, fwd, back, n, r.consumed + n);
        assert r' == r.(ext := r.ext[n..], consumed := r.consumed + n, efdWritten := r.efdWritten + r.ext[..n]);
      case WriteFails =>
        WriteFailsResets(s, r, fwd, back);
        assert r' == r.(output := [], ostate := OutputClosed, reset := r.reset + |r.output|, writeFailed := true);
    }
  }

  // ----- A message arrives

  lemma {:induction false} InFlightHead(q: seq<Msg>)
    requires q != []
    ensures DataOf(q) == DataIn(q[0]) + DataOf(q[1..])
    ensures ExtOf(q) == ExtIn(q[0]) + ExtOf(q[1..])
    ensures Adjusts(q) == AdjustIn(q[0]) + Adjusts(q[1..])
  {
  }

  lemma EofTail(s: Sender, r: Receiver, q: seq<Msg>)
    requires q != [] && Eofs(s, r, q)
    ensures EofLast(q[1..]) && (Eof in q[1..] ==> s.eofSent)
    ensures r.eofRcvd || q[0].Eof? ==> s.eofSent && Quiet(q[1..])
  {
    assert forall i | 0 <= i < |q| - 1 :: q[1..][i] == q[i + 1];
  }

  lemma WholePrefix(written: Bytes, output: Bytes, received: Bytes, data: Bytes)
    requires written + output <= received && |received| == |written| + |output|
    ensures written + (output + data) <= received + data
  {
    assert written + output == received;
    MoveHead(written, output, data);
  }

  /** No message exceeds the window it is received in. */
  lemma MessageFits(s: Sender, r: Receiver, fwd: seq<Msg>, back: seq<Msg>)
    requires Windows(s, r, fwd, back) && fwd != []
    ensures fwd[0].Data? || fwd[0].ExtendedData? ==> |fwd[0].data| <= r.window
  {
    InFlightHead(fwd);
  }

  lemma DataBuffered(s: Sender, r: Receiver, fwd: seq<Msg>, back: seq<Msg>, data: Bytes, window: U32)
    requires Direction(s, r, fwd, back) && fwd != [] && fwd[0] == Data(data)
    requires r.ostate.OutputOpen? && window == r.window - |data|
    ensures Direction(s, r.(window := window, output := r.output + data, received := r.received + data), fwd[1..], back)
  {
    InFlightHead(fwd);
    EofTail(s, r, fwd);
    MoveHead(r.received, data, DataOf(fwd[1..]));
    WholePrefix(r.fdWritten, r.output, r.received, data);
  }

  lemma DataFaked(s: Sender, r: Receiver, fwd: seq<Msg>, back: seq<Msg>, data: Bytes, window: U32, consumed: U32)
    requires Direction(s, r, fwd, back) && fwd != [] && fwd[0] == Data(data)
    requires !r.ostate.OutputOpen? && window == r.window - |data| && consumed == r.consumed + |data|
    ensures Direction(s, r.(window := window, consumed := consumed, received := r.received + data,
                            faked := r.faked + |data|),
                      fwd[1..], back)
  {
    InFlightHead(fwd);
    EofTail(s, r, fwd);
    MoveHead(r.received, data, DataOf(fwd[1..]));
  }

  lemma ExtendedBuffered(s: Sender, r: Receiver, fwd: seq<Msg>, back: seq<Msg>, data: Bytes, window: U32)
    requires Direction(s, r, fwd, back) && fwd != [] && fwd[0] == ExtendedData(data)
    requires !r.bad && window == r.window - |data|
    ensures Direction(s, r.(window := window, ext := r.ext + data, extReceived := r.extReceived + data), fwd[1..], back)
  {
    InFlightHead(fwd);
    EofTail(s, r, fwd);
    MoveHead(r.extReceived, data, ExtOf(fwd[1..]));
    WholePrefix(r.efdWritten, r.ext, r.extReceived, data);
  }

  lemma ExtendedLeaks(s: Sender, r: Receiver, fwd: seq<Msg>, back: seq<Msg>, data: Bytes)
    requires Direction(s, r, fwd, back) && fwd != [] && fwd[0] == ExtendedData(data) && r.bad
    ensures Direction(s, r.(extReceived := r.extReceived + data, leaked := r.leaked + |data|), fwd[1..], back)
  {
    InFlightHead(fwd);
    EofTail(s, r, fwd);
    MoveHead(r.extReceived, data, ExtOf(fwd[1..]));
  }

  lemma EofArrives(s: Sender, r: Receiver, fwd: seq<Msg>, back: seq<Msg>, ostate: OutputState)
    requires Direction(s, r, fwd, back) && fwd != [] && fwd[0] == Eof
    requires ostate == if r.ostate.OutputOpen? then OutputWaitDrain else r.ostate
    ensures Direction(s, r.(eofRcvd := true, ostate := ostate), fwd[1..], back)
  {
    InFlightHead(fwd);
    EofTail(s, r, fwd);
  }

  lemma AdjustPasses(s: Sender, r: Receiver, fwd: seq<Msg>, back: seq<Msg>)
    requires Direction(s, r, fwd, back) && fwd != [] && fwd[0].WindowAdjust?
    ensures Direction(s, r, fwd[1..], back)
  {
    InFlightHead(fwd);
    EofTail(s, r, fwd);
  }

  /** What a data message does to an end whose window it fits. */
  lemma DataReceiving(e: End, data: Bytes, window: U32)
    requires (e.c.open || data == []) && e.c.ostate.OutputOpen? && window == e.c.localWindow - |data|
    ensures Receiving(Accept(e, Data(data)))
            == Receiving(e).(window := window, output := e.c.output + data, received := e.h.received + data)
  {
    assert e.c.output + [] == e.c.output;
  }

  lemma DataFaking(e: End, data: Bytes, window: U32, consumed: U32)
    requires (e.c.open || data == []) && !e.c.ostate.OutputOpen? && window == e.c.localWindow - |data|
    requires consumed == e.c.localConsumed + |data|
    ensures Receiving(Accept(e, Data(data)))
            == Receiving(e).(window := window, consumed := consumed, received := e.h.received + data,
                             faked := e.h.faked + |data|)
  {
  }

  lemma AcceptData(s: Sender, e: End, fwd: seq<Msg>, back: seq<Msg>)
    requires Direction(s, Receiving(e), fwd, back) && Larval(e) && fwd != [] && fwd[0].Data?
    ensures Direction(s, Receiving(Accept(e, fwd[0])), fwd[1..], back)
  {
    var data, r := fwd[0].data, Receiving(e);
    MessageFits(s, r, fwd, back);
    if r.ostate.OutputOpen? {
      DataReceiving(e, data, r.window - |data|);
      DataBuffered(s, r, fwd, back, data, r.window - |data|);
    } else {
      DataFaking(e, data, r.window - |data|, r.consumed + |data|);
      DataFaked(s, r, fwd, back, data, r.window - |data|, r.consumed + |data|);
    }
  }

  lemma ExtendedReceiving(e: End, data: Bytes)
    requires (e.c.open || data == []) && |data| <= e.c.localWindow
    ensures !BadExtended(e.c) ==>
              Receiving(Accept(e, ExtendedData(data)))
              == Receiving(e).(window := e.c.localWindow - |data|, ext := Receiving(e).ext + data,
                               extReceived := e.h.extReceived + data)
    ensures BadExtended(e.c) ==>
              Receiving(Accept(e, ExtendedData(data)))
              == Receiving(e).(extReceived := e.h.extReceived + data, leaked := e.h.leaked + |data|)
  {
    assert e.c.extended + [] == e.c.extended;
  }

  lemma AcceptExtended(s: Sender, e: End, fwd: seq<Msg>, back: seq<Msg>)
    requires Direction(s, Receiving(e), fwd, back) && Larval(e) && fwd != [] && fwd[0].ExtendedData?
    ensures Direction(s, Receiving(Accept(e, fwd[0])), fwd[1..], back)
  {
    var data, r := fwd[0].data, Receiving(e);
    MessageFits(s, r, fwd, back);
    ExtendedReceiving(e, data);
    if r.bad {
      ExtendedLeaks(s, r, fwd, back, data);
    } else {
      ExtendedBuffered(s, r, fwd, back, data, r.window - |data|);
    }
  }

  lemma AcceptEof(s: Sender, e: End, fwd: seq<Msg>, back: seq<Msg>)
    requires Direction(s, Receiving(e), fwd, back) && fwd != [] && fwd[0] == Eof
    ensures Direction(s, Receiving(Accept(e, fwd[0])), fwd[1..], back)
  {
    var r, r' := Receiving(e), Receiving(Accept(e, Eof));
    var ostate := if r.ostate.OutputOpen? then OutputWaitDrain else r.ostate;
    EofArrives(s, r, fwd, back, ostate);
    var mid := r.(eofRcvd := true, ostate := ostate);
    if r' != mid { DrainKeeps(s, mid, fwd[1..], back); }
  }

  /** Receiving the next message, seen from the direction it came from. */
  lemma AcceptReceives(s: Sender, e: End, fwd: seq<Msg>, back: seq<Msg>)
    requires Direction(s, Receiving(e), fwd, back) && Larval(e) && fwd != []
    ensures Direction(s, Receiving(Accept(e, fwd[0])), fwd[1..], back)
  {
    match fwd[0] {
      case Data(_) => AcceptData(s, e, fwd, back);
      case ExtendedData(_) => AcceptExtended(s, e, fwd, back);
      case WindowAdjust(_) => AdjustPasses(s, Receiving(e), fwd, back);
      case Eof => AcceptEof(s, e, fwd, back);
    }
  }

  lemma WindowGrows(s: Sender, r: Receiver, fwd: seq<Msg>, back: seq<Msg>, window: U32)
    requires Direction(s, r, fwd, back) && back != [] && window == s.window + AdjustIn(back[0])
    ensures Direction(s.(window := window), r, fwd, back[1..])
  {
    InFlightHead(back);
  }

  lemma AcceptSending(e: End, m: Msg)
    ensures Sending(Accept(e, m))
            == Sending(e).(window := if m.WindowAdjust? then Add(e.c.remoteWindow, m.n) else e.c.remoteWindow)
  {
    match m {
      case Data(data) => InputKeepsSending(e.c, InputData(e.c, data), e.h, Accept(e, m).h);
      case ExtendedData(data) => ExtendedKeepsSending(e, data);
      case WindowAdjust(n) =>
      case Eof => InputKeepsSending(e.c, InputEof(e.c), e.h, e.h);
    }
  }

  lemma InputKeepsSending(c: Chan, c': Chan, h: History, h': History)
    requires c'.remoteWindow == c.remoteWindow && c'.input == c.input && c'.extended == c.extended
    requires c'.usage == c.usage && c'.istate == c.istate && c'.eofSent == c.eofSent
    requires h'.fdRead == h.fdRead && h'.efdRead == h.efdRead
    ensures Sending(End(c', h')) == Sending(End(c, h))
  {
  }

  lemma ExtendedKeepsSending(e: End, data: Bytes)
    ensures Sending(Accept(e, ExtendedData(data))) == Sending(e)
  {
  }

  /** Receiving the next message, seen from the other direction: an adjust opens the window. */
  lemma AcceptSends(e: End, r: Receiver, fwd: seq<Msg>, back: seq<Msg>)
    requires Direction(Sending(e), r, fwd, back) && back != []
    ensures Direction(Sending(Accept(e, back[0])), r, fwd, back[1..])
  {
    AcceptSending(e, back[0]);
    InFlightHead(back);
    WindowGrows(Sending(e), r, fwd, back, e.c.remoteWindow + AdjustIn(back[0]));
  }

  // ----- Every run

  lemma LarvalReceive(e: End, s: Sender, fwd: seq<Msg>, back: seq<Msg>)
    requires Direction(s, Receiving(e), fwd, back) && Larval(e) && fwd != []
    ensures Larval(Accept(e, fwd[0]))
  {
    InFlightHead(fwd);
    MessageFits(s, Receiving(e), fwd, back);
  }

  lemma LarvalLocal(e: End, ev: Event)
    requires Larval(e) && Enabled(e, ev) && ev != Receive
    ensures Larval(Local(e, ev).0)
  {
  }

  lemma StepAKeepsInv(p: Pair, ev: Event)
    requires Inv(p)
    ensures Inv(StepA(p, ev))
  {
    hide Direction;
    hide Local;
    hide Accept;
    hide Larval;
    hide Enabled;
    var s, r := Sending(p.b), Receiving(p.b);
    if ev == Receive {
      if p.ba != [] {
        AcceptReceives(s, p.a, p.ba, p.ab);
        AcceptSends(p.a, r, p.ab, p.ba);
        LarvalReceive(p.a, s, p.ba, p.ab);
      }
    } else if Enabled(p.a, ev) {
      LocalSends(p.a, r, p.ab, p.ba, ev);
      LocalReceives(s, p.a, p.ba, p.ab, ev);
      LarvalLocal(p.a, ev);
    }
  }

  lemma StepKeepsInv(p: Pair, act: Action)
    requires Inv(p)
    ensures Inv(Step(p, act))
  {
    hide StepA;
    hide Direction;
    hide Larval;
    match act {
      case AtA(ev) => StepAKeepsInv(p, ev);
      case AtB(ev) => StepAKeepsInv(Swap(p), ev);
    }
  }

  lemma StartInv(a: Offer, b: Offer)
    ensures Inv(Start(a, b))
  {
    StartDirection(Start(a, b).a, Start(a, b).b);
    StartDirection(Start(a, b).b, Start(a, b).a);
  }

  lemma StartDirection(s: End, r: End)
    requires s.h == NO_HISTORY && s.c.input == [] && s.c.extended == [] && s.c.istate.InputOpen? && !s.c.eofSent
    requires r.h == NO_HISTORY && r.c.output == [] && r.c.extended == [] && r.c.ostate.OutputOpen? && !r.c.eofRcvd
    requires s.c.remoteWindow == r.c.localWindow == r.c.localWindowMax && r.c.localConsumed == 0
    ensures Direction(Sending(s), Receiving(r), [], [])
  {
  }

  lemma {:induction false} RunKeepsInv(a: Offer, b: Offer, acts: seq<Action>)
    ensures Inv(Exec(Start(a, b), acts))
  {
    hide Step;
    hide Inv;
    if acts == [] {
      StartInv(a, b);
    } else {
      RunKeepsInv(a, b, acts[..|acts| - 1]);
      StepKeepsInv(Exec(Start(a, b), acts[..|acts| - 1]), acts[|acts| - 1]);
    }
  }

  // ----- What every run keeps, from `a` to `b`; the other direction is `Swap`

  /** Conservation: the receiver's window is what the sender may still send, what is on its
      way, what is being given back, and what was dropped; and the receiver's window, what it
      has consumed and what it holds add up to its maximum. */
  lemma {:induction false} WindowConservation(a: Offer, b: Offer, acts: seq<Action>)
    ensures var p := Exec(Start(a, b), acts);
            && p.b.c.localWindow == p.a.c.remoteWindow + |DataOf(p.ab)| + |ExtOf(p.ab)| + Adjusts(p.ba) + p.b.h.leaked
            && p.b.c.localWindow + p.b.c.localConsumed + |p.b.c.output| + ExtBuffered(p.b.c) + p.b.h.reset
               == p.b.c.localWindowMax
  {
    hide Exec;
    hide Start;
    RunKeepsInv(a, b, acts);
  }

  /** No u_int of the flow control ever wraps, and no message ever exceeds the window. */
  lemma {:induction false} NothingWraps(a: Offer, b: Offer, acts: seq<Action>)
    ensures var p := Exec(Start(a, b), acts);
            && p.b.c.localWindow + p.b.c.localConsumed <= p.b.c.localWindowMax
            && p.b.c.localConsumed + |p.b.c.output| + ExtBuffered(p.b.c) <= p.b.c.localWindowMax
            && (p.ab != [] && p.ab[0].Data? ==>
                  !TooMuch(p.b.c, p.ab[0].data) && p.b.c.localConsumed + |p.ab[0].data| <= p.b.c.localWindowMax)
            && (p.ab != [] && p.ab[0].ExtendedData? ==> !TooMuch(p.b.c, p.ab[0].data))
            && (p.ba != [] && p.ba[0].WindowAdjust? ==> p.a.c.remoteWindow + p.ba[0].n <= p.b.c.localWindowMax)
  {
    hide Exec;
    hide Start;
    var p := Exec(Start(a, b), acts);
    RunKeepsInv(a, b, acts);
    if p.ab != [] { MessageFits(Sending(p.a), Receiving(p.b), p.ab, p.ba); }
    if p.ba != [] { InFlightHead(p.ba); }
  }

  /** Data is delivered in order, once and unchanged: what was written and what waits to be
      written is a prefix of what was read, and unless a write failed nothing is missing. */
  lemma {:induction false} StreamIntegrity(a: Offer, b: Offer, acts: seq<Action>)
    ensures var p := Exec(Start(a, b), acts);
            && p.b.h.fdWritten + p.b.c.output <= p.a.h.fdRead
            && (!p.b.h.writeFailed ==>
                  p.a.h.fdRead == p.b.h.fdWritten + p.b.c.output + DataOf(p.ab) + p.a.c.input)
            && (p.b.c.efd && p.b.c.usage.Write? && p.a.c.usage.Read? ==>
                  p.a.h.efdRead == p.b.h.efdWritten + p.b.c.extended + ExtOf(p.ab) + p.a.c.extended)
  {
    hide Exec;
    hide Start;
    var p := Exec(Start(a, b), acts);
    RunKeepsInv(a, b, acts);
    Delivered(Sending(p.a), Receiving(p.b), p.ab, p.ba);
  }

  lemma {:induction false} Delivered(s: Sender, r: Receiver, fwd: seq<Msg>, back: seq<Msg>)
    requires Direction(s, r, fwd, back)
    ensures r.fdWritten + r.output <= s.fdRead
    ensures !r.writeFailed ==> s.fdRead == r.fdWritten + r.output + DataOf(fwd) + s.input
    ensures !r.bad ==> s.efdRead == r.efdWritten + r.ext + ExtOf(fwd) + s.ext
  {
    MoveHead(r.received, DataOf(fwd), s.input);
    PrefixTrans(r.fdWritten + r.output, r.received, DataOf(fwd) + s.input);
    PrefixTrans(r.efdWritten + r.ext, r.extReceived, []);
  }

  lemma PrefixTrans(x: Bytes, y: Bytes, z: Bytes)
    requires x <= y
    ensures x <= y + z
    ensures |x| == |y| ==> x == y
  {
  }

  /** When the receiving end has closed after an end of file, everything was delivered. */
  lemma {:induction false} DeliveredAtEof(a: Offer, b: Offer, acts: seq<Action>)
    ensures var p := Exec(Start(a, b), acts);
            p.b.c.ostate.OutputClosed? && !p.b.h.writeFailed ==> p.b.h.fdWritten == p.a.h.fdRead
  {
    hide Exec;
    hide Start;
    var p := Exec(Start(a, b), acts);
    RunKeepsInv(a, b, acts);
    if p.b.c.ostate.OutputClosed? && !p.b.h.writeFailed { AllDelivered(Sending(p.a), Receiving(p.b), p.ab, p.ba); }
  }

  lemma AllDelivered(s: Sender, r: Receiver, fwd: seq<Msg>, back: seq<Msg>)
    requires Direction(s, r, fwd, back) && r.ostate.OutputClosed? && !r.writeFailed
    ensures r.fdWritten == s.fdRead
  {
    QuietHasNoData(fwd);
    Delivered(s, r, fwd, back);
    assert r.fdWritten + [] + [] + [] == r.fdWritten;
  }

  lemma {:induction false} QuietHasNoData(q: seq<Msg>)
    requires Quiet(q)
    ensures DataOf(q) == [] && ExtOf(q) == []
  {
    if q != [] {
      assert forall i | 0 <= i < |q| - 1 :: q[1..][i] == q[i + 1];
      QuietHasNoData(q[1..]);
    }
  }

  /** No data follows an end of file, so the disconnect for it is never reached. */
  lemma {:induction false} NothingAfterEof(a: Offer, b: Offer, acts: seq<Action>)
    ensures var p := Exec(Start(a, b), acts);
            p.b.c.eofRcvd && p.ab != [] ==> !p.ab[0].Data? && !p.ab[0].ExtendedData?
  {
    hide Exec;
    hide Start;
    RunKeepsInv(a, b, acts);
  }

  // ----- Packets

  /** No message carries more than the packet size. */
  ghost predicate SmallPackets(q: seq<Msg>, maxpack: nat)
  {
    forall i | 0 <= i < |q| :: |DataIn(q[i])| <= maxpack && |ExtIn(q[i])| <= maxpack
  }

  ghost predicate PacketInv(p: Pair, fromA: nat, fromB: nat)
  {
    && p.a.c.remoteMaxpacket == fromA && SmallPackets(p.ab, fromA)
    && p.b.c.remoteMaxpacket == fromB && SmallPackets(p.ba, fromB)
  }

  lemma PollIsSmall(c: Chan)
    ensures OutputPoll(c).0.remoteMaxpacket == c.remoteMaxpacket && SmallPackets(OutputPoll(c).1, c.remoteMaxpacket)
  {
  }

  lemma LocalIsSmall(e: End, ev: Event)
    requires Enabled(e, ev) && ev != Receive
    ensures Local(e, ev).0.c.remoteMaxpacket == e.c.remoteMaxpacket && SmallPackets(Local(e, ev).1, e.c.remoteMaxpacket)
  {
    hide OutputPoll;
    hide SmallPackets;
    PollIsSmall(e.c);
    if ev != Poll { SmallOthers(e, ev); }
  }

  lemma SmallOthers(e: End, ev: Event)
    requires Enabled(e, ev) && ev != Receive && ev != Poll
    ensures SmallPackets(Local(e, ev).1, e.c.remoteMaxpacket)
  {
  }

  lemma AcceptKeepsPacket(e: End, m: Msg)
    ensures Accept(e, m).c.remoteMaxpacket == e.c.remoteMaxpacket
  {
  }

  lemma StepAIsSmall(p: Pair, ev: Event, fromA: nat, fromB: nat)
    requires PacketInv(p, fromA, fromB)
    ensures PacketInv(StepA(p, ev), fromA, fromB)
  {
    hide Enabled;
    hide Accept;
    hide Local;
    hide DataIn;
    hide ExtIn;
    if ev == Receive && p.ba != [] { AcceptKeepsPacket(p.a, p.ba[0]); }
    if ev != Receive && Enabled(p.a, ev) { LocalIsSmall(p.a, ev); }
  }

  /** What is sent never exceeds the packet size the peer offered when the channel was opened. */
  lemma {:induction false} PacketsFit(a: Offer, b: Offer, acts: seq<Action>)
    ensures PacketInv(Exec(Start(a, b), acts), b.maxpack, a.maxpack)
  {
    hide StepA;
    if acts != [] {
      PacketsFit(a, b, acts[..|acts| - 1]);
      var p := Exec(Start(a, b), acts[..|acts| - 1]);
      match acts[|acts| - 1]
      case AtA(ev) => StepAIsSmall(p, ev, b.maxpack, a.maxpack);
      case AtB(ev) => StepAIsSmall(Swap(p), ev, a.maxpack, b.maxpack);
    }
  }

  // ----- Deadlock

  /** The receiver can write something it has buffered. */
  predicate CanWrite(c: Chan)
  {
    || (!c.ostate.OutputClosed? && |c.output| > 0)
    || (c.usage.Write? && c.efd && |c.extended| > 0)
  }

  /** Bytes of window that will never be given back. */
  function Lost(e: End): nat { e.h.leaked + e.h.reset + (if e.c.efd then 0 else ExtBuffered(e.c)) }

  /** The sender has no window left and nothing is in flight either way. */
  ghost predicate Stalled(p: Pair)
  {
    && p.a.c.remoteWindow == 0 && p.b.c.open && !p.b.c.Closing()
    && DataOf(p.ab) == [] && ExtOf(p.ab) == [] && Adjusts(p.ba) == 0
  }

  /** A stalled direction always moves again, unless window has been lost.  With all of it
      accounted for, the receiver has something to write or sends an adjust. */
  lemma {:induction false} NoDeadlock(a: Offer, b: Offer, acts: seq<Action>)
    ensures var p := Exec(Start(a, b), acts);
            Stalled(p) && p.b.c.localWindowMax >= 2 && Lost(p.b) == 0 ==> CanWrite(p.b.c) || WindowLow(p.b.c)
  {
    hide Exec;
    hide Start;
    RunKeepsInv(a, b, acts);
  }

  /** Exactly when a stalled direction moves again. */
  lemma {:induction false} StalledMovesIff(a: Offer, b: Offer, acts: seq<Action>)
    ensures var p := Exec(Start(a, b), acts);
            Stalled(p) ==> (CanWrite(p.b.c) || WindowLow(p.b.c) <==> CanWrite(p.b.c) || EnoughLeft(p.b))
  {
    hide Exec;
    hide Start;
    var p := Exec(Start(a, b), acts);
    RunKeepsInv(a, b, acts);
    if Stalled(p) && !CanWrite(p.b.c) { WindowLowIff(Sending(p.a), p.b, p.ab, p.ba); }
  }

  /** Some window was consumed and can be given back, and what leaked does not hide that. */
  predicate EnoughLeft(e: End)
  {
    && Lost(e) < e.c.localWindowMax
    && (e.h.leaked < e.c.localWindowMax / 2
        || e.c.localWindowMax - e.h.leaked > e.c.localMaxpacket * 3 % 0x1_0000_0000)
  }

  lemma {:induction false} WindowLowIff(s: Sender, r: End, fwd: seq<Msg>, back: seq<Msg>)
    requires Windows(s, Receiving(r), fwd, back) && r.c.open && !r.c.Closing() && !CanWrite(r.c)
    requires r.c.ostate.OutputClosed? ==> r.c.output == []
    requires s.window == 0 && DataOf(fwd) == [] && ExtOf(fwd) == [] && Adjusts(back) == 0
    ensures WindowLow(r.c) <==> EnoughLeft(r)
  {
    assert r.c.localWindow == r.h.leaked;
    assert r.c.localConsumed == r.c.localWindowMax - Lost(r);
    assert Sub(r.c.localWindowMax, r.c.localWindow) == r.c.localWindowMax - r.h.leaked;
  }

  ghost predicate Dead(p: Pair)
  {
    Stalled(p) && p.b.c.localWindowMax >= 2 && !CanWrite(p.b.c) && !WindowLow(p.b.c)
  }

  /** The receiver's extended descriptor fails, the sender fills the window with extended
      data, and the receiver drops it without giving any window back: the direction is dead. */
  lemma LeakDeadlocks() returns (a: Offer, b: Offer, acts: seq<Action>)
    ensures Dead(Exec(Start(a, b), acts))
  {
    hide Exec;
    hide Step;
    hide Dead;
    a, b := Offer(true, Read, true, 2, 2), Offer(true, Write, true, 2, 2);
    acts := [AtB(EfdFails), AtA(ReadExtended([7, 8])), AtA(Poll), AtB(Receive)];
    var p2 := ReadTwoBytes(Start(a, b));
    FillWindow(p2);
    var p1 := Step(Start(a, b), AtB(EfdFails));
    ExecSteps(Start(a, b), acts, p1, p2, Step(p2, AtA(Poll)), Step(Step(p2, AtA(Poll)), AtB(Receive)));
  }

  /** The extended descriptor of `b` fails, then `a` reads two bytes from its own. */
  lemma ReadTwoBytes(p: Pair) returns (p2: Pair)
    requires p.a.c.open && p.a.c.efd && !p.a.c.eofSent && p.a.c.usage.Read? && p.a.c.extended == []
    requires p.b.c.open && p.b.c.efd && p.ab == [] && p.ba == []
    ensures p2 == Step(Step(p, AtB(EfdFails)), AtA(ReadExtended([7, 8])))
    ensures p2.a.c == p.a.c.(extended := [7, 8]) && p2.b.c == p.b.c.(efd := false) && p2.ab == [] && p2.ba == []
  {
    var p1 := Step(p, AtB(EfdFails));
    assert p1.a == p.a && p1.b.c == p.b.c.(efd := false) && p1.ab == [] && p1.ba == [];
    p2 := Step(p1, AtA(ReadExtended([7, 8])));
    assert p1.a.c.extended + [7, 8] == [7, 8];
  }

  lemma FillWindow(p: Pair)
    requires p.a.c.open && !p.a.c.Closing() && p.a.c.usage.Read? && p.a.c.extended == [7, 8] && p.a.c.input == []
    requires p.a.c.istate.InputOpen? && !p.a.c.eofSent && p.a.c.remoteWindow == 2 && p.a.c.remoteMaxpacket == 2
    requires p.ab == [] && p.ba == []
    requires !p.b.c.efd && p.b.c.open && !p.b.c.Closing() && p.b.c.output == [] && p.b.c.localConsumed == 0
    requires p.b.c.localWindowMax == 2
    ensures Dead(Step(Step(p, AtA(Poll)), AtB(Receive)))
  {
    var m := ExtendedData([7, 8]);
    assert p.a.c.extended[..2] == [7, 8] && p.a.c.extended[2..] == [];
    assert PollExtended(p.a.c).1 == [m];
    assert OutputPoll(p.a.c).1 == [m];
    var p1 := Step(p, AtA(Poll));
    assert p1.ab == [m] && p1.a.c.remoteWindow == 0;
    var p2 := Step(p1, AtB(Receive));
    assert p2.ab == [] && p2.b.c == p.b.c;
  }

  /** The sender fills the window with data and the receiver's write fails, which throws the data
      away without counting it as consumed: the direction is dead, too. */
  lemma ResetDeadlocks() returns (a: Offer, b: Offer, acts: seq<Action>)
    ensures Dead(Exec(Start(a, b), acts))
  {
    hide Exec;
    hide Step;
    hide Dead;
    a, b := Offer(true, Ignore, false, 2, 2), Offer(true, Ignore, false, 2, 2);
    acts := [AtA(ReadData([7, 8])), AtA(Poll), AtB(Receive), AtB(WriteFails)];
    var p1 := ReadInput(Start(a, b));
    var p2 := SendTwoBytes(p1);
    WriteFailsThen(p2);
    ExecSteps(Start(a, b), acts, p1, p2, Step(p2, AtB(Receive)), Step(Step(p2, AtB(Receive)), AtB(WriteFails)));
  }

  lemma ReadInput(p: Pair) returns (p1: Pair)
    requires p.a.c.open && p.a.c.istate.InputOpen? && p.a.c.input == []
    ensures p1 == Step(p, AtA(ReadData([7, 8])))
    ensures p1.a.c == p.a.c.(input := [7, 8]) && p1.b == p.b && p1.ab == p.ab && p1.ba == p.ba
  {
    p1 := Step(p, AtA(ReadData([7, 8])));
    assert p.a.c.input + [7, 8] == [7, 8];
  }

  lemma SendTwoBytes(p: Pair) returns (p1: Pair)
    requires p.a.c.open && !p.a.c.Closing() && p.a.c.istate.InputOpen? && p.a.c.input == [7, 8] && p.a.c.extended == []
    requires p.a.c.remoteWindow == 2 && p.a.c.remoteMaxpacket == 2 && p.ab == []
    ensures p1 == Step(p, AtA(Poll)) && p1.a.c.remoteWindow == 0 && p1.ab == [Data([7, 8])]
    ensures p1.b == p.b && p1.ba == p.ba
  {
    var m := Data([7, 8]);
    assert p.a.c.input[..2] == [7, 8];
    assert PollInput(p.a.c).1 == [m];
    assert OutputPoll(p.a.c).1 == [m];
    p1 := Step(p, AtA(Poll));
  }

  lemma WriteFailsThen(p: Pair)
    requires p.a.c.remoteWindow == 0 && p.ab == [Data([7, 8])] && p.ba == []
    requires p.b.c.open && !p.b.c.Closing() && p.b.c.ostate.OutputOpen? && p.b.c.output == [] && p.b.c.extended == []
    requires p.b.c.localWindow == p.b.c.localWindowMax == 2 && p.b.c.localConsumed == 0
    ensures Dead(Step(Step(p, AtB(Receive)), AtB(WriteFails)))
  {
    var p1 := Step(p, AtB(Receive));
    assert p1.b.c == p.b.c.(localWindow := 0, output := [7, 8]) && p1.ab == [] && p1.ba == [] && p1.a == p.a;
    var p2 := Step(p1, AtB(WriteFails));
    assert p2.b.c == p1.b.c.(output := [], ostate := OutputClosed) && p2.ab == [] && p2.ba == [] && p2.a == p.a;
  }

  lemma {:induction false} ExecSteps(p0: Pair, acts: seq<Action>, p1: Pair, p2: Pair, p3: Pair, p4: Pair)
    requires |acts| == 4 && p1 == Step(p0, acts[0]) && p2 == Step(p1, acts[1])
    requires p3 == Step(p2, acts[2]) && p4 == Step(p3, acts[3])
    ensures Exec(p0, acts) == p4
  {
    assert acts[..3][..2] == acts[..2] && acts[..2][..1] == acts[..1] && acts[..1][..0] == [];
    assert Exec(p0, acts[..1]) == p1;
    assert Exec(p0, acts[..2]) == p2;
    assert Exec(p0, acts[..3]) == p3;
  }
}
