/** One end of an SSH2 session or forwarding channel: the flow-control handlers of
    ssh/channels.c and the end-of-file handling they call in ssh/nchan.c.  The functions say
    what each handler does to the state of the channel; the class runs them in place. */
module Channel {
  import Wire

  type Bytes = Wire.Bytes
  type U32 = Wire.U32

  /** u_int arithmetic. */
  function Add(a: U32, b: nat): (r: U32)
    ensures a + b < 0x1_0000_0000 ==> r == a + b
  {
    (a + b) % 0x1_0000_0000
  }

  function Sub(a: U32, b: nat): (r: U32)
    ensures b <= a ==> r == a - b
  {
    (a - b) % 0x1_0000_0000
  }

  datatype InputState = InputOpen | InputWaitDrain | InputClosed
  datatype OutputState = OutputOpen | OutputWaitDrain | OutputClosed
  datatype Usage = Ignore | Read | Write

  datatype Msg =
    | Data(data: Bytes)
    | ExtendedData(data: Bytes)
    | WindowAdjust(n: U32)
    | Eof

  datatype Chan = Chan(
    open: bool,  // SSH_CHANNEL_OPEN; before that the channel is larval
    istate: InputState, ostate: OutputState,
    closeSent: bool, closeRcvd: bool,
    eofSent: bool, eofRcvd: bool,
    efd: bool,  // the extended descriptor is not -1
    usage: Usage,
    input: Bytes, output: Bytes, extended: Bytes,
    remoteWindow: U32, remoteMaxpacket: U32,
    localWindow: U32, localWindowMax: U32, localConsumed: U32, localMaxpacket: U32)
  {
    predicate Closing() { closeSent || closeRcvd }
  }

  // ----- Descriptors

  /** channel_handle_rfd after a read of `data`. */
  function ReadRfd(c: Chan, data: Bytes): Chan { c.(input := c.input + data) }

  /** channel_handle_rfd after a failed read: chan_read_failed. */
  function ReadRfdFailed(c: Chan): Chan
  {
    if c.istate.InputOpen? then c.(istate := InputWaitDrain) else c
  }

  /** channel_handle_wfd after a write of `n` bytes. */
  function WriteWfd(c: Chan, n: nat): Chan
    requires n <= |c.output|
  {
    c.(output := c.output[n..], localConsumed := Add(c.localConsumed, n))
  }

  /** channel_handle_wfd after a failed write: chan_write_failed, which empties the buffer. */
  function WriteWfdFailed(c: Chan): Chan
  {
    if c.ostate.OutputClosed? then c else c.(output := [], ostate := OutputClosed)
  }

  /** channel_handle_efd, writing. */
  function WriteEfd(c: Chan, n: nat): Chan
    requires n <= |c.extended|
  {
    c.(extended := c.extended[n..], localConsumed := Add(c.localConsumed, n))
  }

  /** channel_handle_efd, reading: what is read is thrown away when it is to be ignored. */
  function ReadEfd(c: Chan, data: Bytes): Chan
  {
    if c.usage.Ignore? then c else c.(extended := c.extended + data)
  }

  function CloseEfd(c: Chan): Chan { c.(efd := false) }

  // ----- Windows

  /** The guard of channel_check_window. */
  predicate WindowLow(c: Chan)
  {
    && c.open && !c.Closing()
    && (Sub(c.localWindowMax, c.localWindow) > c.localMaxpacket * 3 % 0x1_0000_0000
        || c.localWindow < c.localWindowMax / 2)
    && c.localConsumed > 0
  }

  function CheckWindow(c: Chan): (Chan, seq<Msg>)
  {
    if WindowLow(c) then
      (c.(localWindow := Add(c.localWindow, c.localConsumed), localConsumed := 0), [WindowAdjust(c.localConsumed)])
    else (c, [])
  }

  // ----- Sending

  predicate EfdInputActive(c: Chan) { c.usage.Read? && (c.efd || |c.extended| > 0) }

  /** The length of the next message out of `avail` bytes. */
  function SendLength(c: Chan, avail: nat): nat { Wire.Min(Wire.Min(avail, c.remoteWindow), c.remoteMaxpacket) }

  /** channel_output_poll for the input buffer, with chan_ibuf_empty once it is drained. */
  function PollInput(c: Chan): (Chan, seq<Msg>)
  {
    if !c.istate.InputClosed? && |c.input| > 0 then
      var len := SendLength(c, |c.input|);
      if len > 0 then
        (c.(input := c.input[len..], remoteWindow := Sub(c.remoteWindow, len)), [Data(c.input[..len])])
      else (c, [])
    else if c.istate.InputWaitDrain? && !EfdInputActive(c) then
      (c.(istate := InputClosed, eofSent := true), [Eof])
    else (c, [])
  }

  /** channel_output_poll for the extended buffer. */
  function PollExtended(c: Chan): (Chan, seq<Msg>)
  {
    if !c.eofSent && c.remoteWindow > 0 && |c.extended| > 0 && c.usage.Read? then
      var len := SendLength(c, |c.extended|);
      (c.(extended := c.extended[len..], remoteWindow := Sub(c.remoteWindow, len)), [ExtendedData(c.extended[..len])])
    else (c, [])
  }

  function OutputPoll(c: Chan): (Chan, seq<Msg>)
  {
    if !c.open || c.Closing() then (c, [])
    else
      var p := PollInput(c);
      var q := PollExtended(p.0);
      (q.0, p.1 + q.1)
  }

  // ----- Receiving

  predicate EfdOutputActive(c: Chan)
  {
    c.usage.Write? && c.efd && (!(c.eofRcvd || c.closeRcvd) || |c.extended| > 0)
  }

  /** chan_obuf_empty, where its callers reach it. */
  function DrainOutput(c: Chan): Chan
  {
    if c.ostate.OutputWaitDrain? && |c.output| == 0 && !EfdOutputActive(c) then c.(ostate := OutputClosed) else c
  }

  predicate TooMuch(c: Chan, data: Bytes) { |data| > c.localWindow }

  /** channel_input_data: data for a closed output end counts as consumed at once. */
  function InputData(c: Chan, data: Bytes): Chan
  {
    if !c.open then c
    else if !c.ostate.OutputOpen? then
      c.(localWindow := Sub(c.localWindow, |data|), localConsumed := Add(c.localConsumed, |data|))
    else if TooMuch(c, data) then c
    else c.(localWindow := Sub(c.localWindow, |data|), output := c.output + data)
  }

  /** channel_input_extended_data has no use for the data; it leaves the window alone. */
  predicate BadExtended(c: Chan) { !c.efd || !c.usage.Write? }

  /** channel_input_extended_data on a channel that has seen no end of file. */
  function InputExtendedData(c: Chan, data: Bytes): Chan
  {
    if !c.open || BadExtended(c) || TooMuch(c, data) then c
    else c.(localWindow := Sub(c.localWindow, |data|), extended := c.extended + data)
  }

  function InputWindowAdjust(c: Chan, n: U32): Chan { c.(remoteWindow := Add(c.remoteWindow, n)) }

  /** channel_input_ieof. */
  function InputEof(c: Chan): Chan
  {
    DrainOutput(c.(eofRcvd := true, ostate := if c.ostate.OutputOpen? then OutputWaitDrain else c.ostate))
  }

  function Input(c: Chan, m: Msg): Chan
  {
    match m
    case Data(data) => InputData(c, data)
    case ExtendedData(data) => InputExtendedData(c, data)
    case WindowAdjust(n) => InputWindowAdjust(c, n)
    case Eof => InputEof(c)
  }

  // ----- Opening

  /** channel_new with the peer's window and packet size from the open messages. */
  function New(open: bool, usage: Usage, efd: bool, window: U32, maxpack: U32, peerWindow: U32,
               peerMaxpacket: U32): Chan
  {
    Chan(open, InputOpen, OutputOpen, false, false, false, false, efd, usage, [], [], [],
         peerWindow, peerMaxpacket, window, window, 0, maxpack)
  }

  /** channel_set_fds on a larval channel. */
  function SetFds(c: Chan, usage: Usage, efd: bool, windowMax: U32): (Chan, seq<Msg>)
  {
    (c.(open := true, usage := usage, efd := efd, localWindow := windowMax, localWindowMax := windowMax),
     [WindowAdjust(windowMax)])
  }

  // ----- What the handlers keep

  /** What is waiting to be written to the descriptors. */
  function Buffered(c: Chan): nat { |c.output| + ExtBuffered(c) }

  function ExtBuffered(c: Chan): nat { if c.usage.Write? then |c.extended| else 0 }

  /** The window that the peer may use now, or will be given back. */
  function Credit(c: Chan): nat { c.localWindow + c.localConsumed + Buffered(c) }

  /** The bytes of data in messages. */
  function Payload(ms: seq<Msg>): nat
  {
    if ms == [] then 0 else Payload(ms[..|ms| - 1]) + PayloadIn(ms[|ms| - 1])
  }

  lemma {:induction false} PayloadConcat(ms: seq<Msg>, more: seq<Msg>)
    ensures Payload(ms + more) == Payload(ms) + Payload(more)
    decreases |more|
  {
    if more == [] {
      assert ms + more == ms;
    } else {
      assert (ms + more)[..|ms + more| - 1] == ms + more[..|more| - 1];
      PayloadConcat(ms, more[..|more| - 1]);
    }
  }

  function PayloadIn(m: Msg): nat { if m.Data? || m.ExtendedData? then |m.data| else 0 }

  /** What is sent leaves the buffers, the remote window shrinks by as much, and the credit stays. */
  ghost predicate Accounts(c: Chan, c': Chan, ms: seq<Msg>)
  {
    && c'.remoteWindow + Payload(ms) == c.remoteWindow
    && |c'.input| + |c'.extended| + Payload(ms) == |c.input| + |c.extended|
    && Credit(c') == Credit(c)
  }

  lemma PayloadOfOne(m: Msg)
    ensures Payload([m]) == PayloadIn(m) && Payload([]) == 0
  {
    assert [m][..0] == [];
  }

  lemma SendLengthFits(c: Chan, avail: nat)
    ensures SendLength(c, avail) <= avail && SendLength(c, avail) <= c.remoteWindow
  {
  }

  lemma PollInputKeeps(c: Chan)
    ensures Accounts(c, PollInput(c).0, PollInput(c).1)
  {
    hide Payload;
    hide SendLength;
    hide Sub;
    var len := SendLength(c, |c.input|);
    SendLengthFits(c, |c.input|);
    PayloadOfOne(Data(c.input[..len]));
    PayloadOfOne(Eof);
  }

  lemma PollExtendedKeeps(c: Chan)
    ensures Accounts(c, PollExtended(c).0, PollExtended(c).1)
  {
    hide Payload;
    hide SendLength;
    hide Sub;
    var len := SendLength(c, |c.extended|);
    SendLengthFits(c, |c.extended|);
    PayloadOfOne(ExtendedData(c.extended[..len]));
  }

  lemma OutputPollKeeps(c: Chan)
    ensures Accounts(c, OutputPoll(c).0, OutputPoll(c).1)
  {
    hide PollInput;
    hide PollExtended;
    hide Payload;
    hide Credit;
    PayloadOfOne(Eof);
    var p := PollInput(c);
    PollInputKeeps(c);
    PollExtendedKeeps(p.0);
    PayloadConcat(p.1, PollExtended(p.0).1);
  }

  // ----- The handlers in place

  class ChannelObject {
    var open: bool
    var istate: InputState
    var ostate: OutputState
    var closeSent: bool
    var closeRcvd: bool
    var eofSent: bool
    var eofRcvd: bool
    var efd: bool
    var usage: Usage
    var input: Bytes
    var output: Bytes
    var extended: Bytes
    var remoteWindow: U32
    var remoteMaxpacket: U32
    var localWindow: U32
    var localWindowMax: U32
    var localConsumed: U32
    var localMaxpacket: U32

    function State(): Chan
      reads this
    {
      Chan(open, istate, ostate, closeSent, closeRcvd, eofSent, eofRcvd, efd, usage, input, output, extended,
           remoteWindow, remoteMaxpacket, localWindow, localWindowMax, localConsumed, localMaxpacket)
    }

    /** channel_handle_wfd; `written` is the result of write, at most what was offered. */
    method HandleWfd(written: int)
      requires |output| > 0 && written <= |output|
      modifies this
      ensures State() == if written <= 0 then WriteWfdFailed(old(State())) else WriteWfd(old(State()), written)
      ensures 0 < written < 0x1_0000_0000 - old(localConsumed) ==> Credit(State()) == old(Credit(State()))
      ensures written <= 0 ==> Credit(State()) + |old(output)| - |output| == old(Credit(State()))
    {
      var olen := |output|;
      if written <= 0 {
        if !ostate.OutputClosed? {
          output := [];
          ostate := OutputClosed;
        }
        return;
      }
      output := output[written..];
      localConsumed := Add(localConsumed, olen - |output|);
    }

    /** channel_handle_efd; `written` is 0 when the write failed. */
    method HandleEfd(readable: bool, failed: bool, data: Bytes, written: nat)
      requires efd && written <= |extended|
      modifies this
      ensures State() == if usage.Write? && |old(extended)| > 0 then
                           if written == 0 then CloseEfd(old(State())) else WriteEfd(old(State()), written)
                         else if !usage.Write? && readable then
                           if failed then CloseEfd(old(State())) else ReadEfd(old(State()), data)
                         else old(State())
      ensures written < 0x1_0000_0000 - old(localConsumed) ==> Credit(State()) == old(Credit(State()))
    {
      if usage.Write? && |extended| > 0 {
        if written == 0 {
          efd := false;
        } else {
          extended := extended[written..];
          localConsumed := Add(localConsumed, written);
        }
      } else if (usage.Read? || usage.Ignore?) && readable {
        if failed {
          efd := false;
        } else if !usage.Ignore? {
          extended := extended + data;
        }
      }
    }

    /** channel_check_window. */
    method CheckWindowInPlace() returns (sent: seq<Msg>)
      modifies this
      ensures (State(), sent) == CheckWindow(old(State()))
      ensures old(localWindow) + old(localConsumed) < 0x1_0000_0000 ==> Credit(State()) == old(Credit(State()))
    {
      sent := [];
      if open && !(closeSent || closeRcvd)
         && (Sub(localWindowMax, localWindow) > localMaxpacket * 3 % 0x1_0000_0000 || localWindow < localWindowMax / 2)
         && localConsumed > 0
      {
        sent := [WindowAdjust(localConsumed)];
        localWindow := Add(localWindow, localConsumed);
        localConsumed := 0;
      }
    }

    /** The packet with the first bytes of the input buffer. */
    method SendInput(len: nat) returns (sent: seq<Msg>)
      requires len <= |input|
      modifies this
      ensures sent == [Data(old(input)[..len])]
      ensures State() == old(State()).(input := old(input)[len..], remoteWindow := Sub(old(remoteWindow), len))
    {
      sent := [Data(input[..len])];
      input := input[len..];
      remoteWindow := Sub(remoteWindow, len);
    }

    method SendExtended(len: nat) returns (sent: seq<Msg>)
      requires len <= |extended|
      modifies this
      ensures sent == [ExtendedData(old(extended)[..len])]
      ensures State() == old(State()).(extended := old(extended)[len..], remoteWindow := Sub(old(remoteWindow), len))
    {
      sent := [ExtendedData(extended[..len])];
      extended := extended[len..];
      remoteWindow := Sub(remoteWindow, len);
    }

    method PollInputInPlace() returns (sent: seq<Msg>)
      modifies this
      ensures (State(), sent) == PollInput(old(State()))
      ensures Accounts(old(State()), State(), sent)
    {
      hide Accounts;
      hide Sub;
      PollInputKeeps(State());
      sent := [];
      var len := |input|;
      if (istate.InputOpen? || istate.InputWaitDrain?) && len > 0 {
        if len > remoteWindow { len := remoteWindow; }
        if len > remoteMaxpacket { len := remoteMaxpacket; }
        if len > 0 { sent := SendInput(len); }
      } else if istate.InputWaitDrain? && !(usage.Read? && (efd || |extended| > 0)) {
        sent := [Eof];
        eofSent := true;
        istate := InputClosed;
      }
    }

    method PollExtendedInPlace() returns (sent: seq<Msg>)
      modifies this
      ensures (State(), sent) == PollExtended(old(State()))
      ensures Accounts(old(State()), State(), sent)
    {
      hide Accounts;
      hide Sub;
      PollExtendedKeeps(State());
      sent := [];
      var len := |extended|;
      if !eofSent && remoteWindow > 0 && len > 0 && usage.Read? {
        if len > remoteWindow { len := remoteWindow; }
        if len > remoteMaxpacket { len := remoteMaxpacket; }
        sent := SendExtended(len);
      }
    }

    /** The body of the loop of channel_output_poll. */
    method OutputPollInPlace() returns (sent: seq<Msg>)
      modifies this
      ensures (State(), sent) == OutputPoll(old(State()))
      ensures Accounts(old(State()), State(), sent)
    {
      hide Accounts;
      hide PollInput;
      hide PollExtended;
      OutputPollKeeps(State());
      if !open || closeSent || closeRcvd { return []; }
      sent := PollInputInPlace();
      var more := PollExtendedInPlace();
      sent := sent + more;
    }

    /** channel_input_data. */
    method InputDataInPlace(data: Bytes)
      modifies this
      ensures State() == InputData(old(State()), data)
      ensures |data| <= old(localWindow) && old(localConsumed) + |data| < 0x1_0000_0000 ==>
                Credit(State()) == old(Credit(State()))
    {
      if !open { return; }
      if !ostate.OutputOpen? {
        localWindow := Sub(localWindow, |data|);
        localConsumed := Add(localConsumed, |data|);
        return;
      }
      if |data| > localWindow { return; }
      localWindow := Sub(localWindow, |data|);
      output := output + data;
    }

    /** channel_input_extended_data. */
    method InputExtendedDataInPlace(data: Bytes)
      modifies this
      ensures State() == InputExtendedData(old(State()), data)
      ensures Credit(State()) == old(Credit(State()))
    {
      if !open || !efd || !usage.Write? || |data| > localWindow { return; }
      localWindow := Sub(localWindow, |data|);
      extended := extended + data;
    }

    /** channel_input_window_adjust. */
    method InputWindowAdjustInPlace(n: U32)
      modifies this
      ensures State() == InputWindowAdjust(old(State()), n)
      ensures Credit(State()) == old(Credit(State()))
    {
      remoteWindow := Add(remoteWindow, n);
    }

    /** channel_input_ieof. */
    method InputEofInPlace()
      modifies this
      ensures State() == InputEof(old(State()))
      ensures Credit(State()) == old(Credit(State()))
    {
      eofRcvd := true;
      if ostate.OutputOpen? { ostate := OutputWaitDrain; }
      if ostate.OutputWaitDrain? && |output| == 0
         && !(usage.Write? && efd && (!(eofRcvd || closeRcvd) || |extended| > 0))
      {
        ostate := OutputClosed;
      }
    }
  }
}
