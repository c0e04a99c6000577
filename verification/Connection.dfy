/** The browser's reconnecting socket (web/packages/client/src/connection.ts:58-171). The
    owner's callbacks may call back into it, so the handler of a close event is two steps
    here: up to the `onClose` callback, and after it returned. `Valid` is what every step
    keeps; a run is any interleaving of the steps. */
module Connection {

  datatype ReadyState = Connecting | Open | Closing | Closed

  /** A WebSocket, and what has become of it. */
  class Socket {
    var readyState: ReadyState
    ghost var sent: seq<string>
    /** It was told to close, or closed of itself. */
    ghost var closed: bool

    constructor ()
      ensures readyState == Connecting && sent == [] && !closed
    {
      readyState, sent, closed := Connecting, [], false;
    }

    /** A frame given to a socket that is not open would be lost, or refused. */
    method Send(data: string)
      requires readyState == Open
      modifies this`sent
      ensures sent == old(sent) + [data]
    {
      sent := sent + [data];
    }

    method Close()
      modifies this`readyState, this`closed
      ensures closed && readyState == if old(readyState) == Closed then Closed else Closing
    {
      closed := true;
      if readyState != Closed {
        readyState := Closing;
      }
    }
  }

  /** A frame and the number of the socket it was handed to. */
  datatype Handed = Handed(socket: nat, frame: string)

  function FramesOf(handed: seq<Handed>): seq<string> {
    seq(|handed|, i requires 0 <= i < |handed| => handed[i].frame)
  }

  /** The frames handed to one socket, in order. */
  function HandedTo(handed: seq<Handed>, socket: nat): seq<string> {
    if handed == [] then []
    else
      var rest := HandedTo(handed[..|handed| - 1], socket);
      if handed[|handed| - 1].socket == socket then rest + [handed[|handed| - 1].frame] else rest
  }

  lemma HandedToSnoc(handed: seq<Handed>, h: Handed, socket: nat)
    ensures HandedTo(handed + [h], socket)
            == if h.socket == socket then HandedTo(handed, socket) + [h.frame] else HandedTo(handed, socket)
  {
    assert (handed + [h])[..|handed|] == handed;
  }

  lemma FramesSnoc(handed: seq<Handed>, h: Handed)
    ensures FramesOf(handed + [h]) == FramesOf(handed) + [h.frame]
  {
  }

  class ReconnectingConnection {
    var socket: Socket?
    var outbox: seq<string>
    var closing: bool
    var timer: bool
    /** Every socket the factory made, every frame handed to one, every frame `send` was
        given, whether `start` was ever called, and how many `onClose` callbacks made by a
        close event have yet to return. */
    ghost var created: seq<Socket>
    ghost var handed: seq<Handed>
    ghost var sends: seq<string>
    ghost var started: bool
    ghost var unwinding: nat

    constructor ()
      ensures Valid() && socket == null && sends == [] && created == [] && !started && unwinding == 0
    {
      socket, outbox, closing, timer := null, [], false, false;
      created, handed, sends, started, unwinding := [], [], [], false, 0;
    }

    ghost predicate Valid()
      reads this, created
    {
      && NoneOrphaned() && SocketsKept()
      && FramesOf(handed) + outbox == sends
      && (socket != null && socket.readyState == Open ==> outbox == [])
      && (started && !closing && unwinding == 0 ==> socket != null || timer)
    }

    /** Every created socket but the current one was closed. */
    ghost predicate NoneOrphaned()
      reads this, created
    {
      && (socket != null ==> socket in created)
      && forall s :: s in created && s != socket ==> s.closed
    }

    /** What each socket was sent, and that no two are the same. */
    ghost predicate SocketsKept()
      reads this, created
    {
      && (forall i, j :: 0 <= i < j < |created| ==> created[i] != created[j])
      && (forall i :: 0 <= i < |created| ==> created[i].sent == HandedTo(handed, i))
      && forall h :: h in handed ==> h.socket < |created|
    }

    /** Hand one frame to the current socket. */
    method Hand(data: string)
      requires socket != null && socket in created && socket.readyState == Open && SocketsKept()
      modifies this`handed, socket`sent
      ensures SocketsKept() && FramesOf(handed) == FramesOf(old(handed)) + [data]
    {
      ghost var at :| 0 <= at < |created| && created[at] == socket;
      socket.Send(data);
      handed := handed + [Handed(at, data)];
      FramesSnoc(old(handed), Handed(at, data));
      forall i | 0 <= i < |created| ensures created[i].sent == HandedTo(handed, i) {
        HandedToSnoc(old(handed), Handed(at, data), i);
      }
    }

    method Start()
      requires Valid()
      modifies this`closing, this`started, this`timer, this`socket, this`created
      ensures Valid() && started && !closing && socket != null
      ensures old(socket) != null ==> socket == old(socket) && !timer && created == old(created)
      ensures old(socket) == null ==> fresh(socket) && created == old(created) + [socket] && !timer
    {
      closing, started := false, true;
      CancelReconnect();
      if socket == null {
        OpenSocket();
      }
    }

    /** `close`, up to its own `onClose` callback, after which it does nothing more. */
    method Close()
      requires Valid()
      modifies this`closing, this`timer, this`socket, socket
      ensures Valid() && closing && !timer && socket == null
      ensures old(socket) != null ==> old(socket).closed
    {
      closing := true;
      CancelReconnect();
      if socket != null {
        var dropped := socket;
        socket := null;
        dropped.Close();
      }
    }

    method Send(data: string)
      requires Valid()
      modifies this`outbox, this`handed, this`sends, socket
      ensures Valid() && sends == old(sends) + [data]
      ensures if socket != null && socket.readyState == Open
              then outbox == old(outbox) && FramesOf(handed) == FramesOf(old(handed)) + [data]
              else outbox == old(outbox) + [data] && handed == old(handed)
    {
      sends := sends + [data];
      if socket != null && socket.readyState == Open {
        Hand(data);
      } else {
        outbox := outbox + [data];
      }
    }

    /** `open`: make a socket and take it for the current one. */
    method OpenSocket()
      requires socket == null && NoneOrphaned() && SocketsKept()
      modifies this`socket, this`created
      ensures socket != null && fresh(socket) && socket.readyState == Connecting
      ensures created == old(created) + [socket] && NoneOrphaned() && SocketsKept()
    {
      socket := new Socket();
      NoneYet(handed, |created|);
      created := created + [socket];
    }

    /** A socket opens: its state changes and its `onopen` handler runs, up to the
        `onOpen` callback. */
    method OnOpen(s: Socket)
      requires Valid() && s in created && s.readyState == Connecting
      modifies this`outbox, this`handed, s
      ensures Valid() && s.readyState == Open
      ensures s == socket ==> outbox == [] && FramesOf(handed) == FramesOf(old(handed)) + old(outbox)
      ensures s != socket ==> outbox == old(outbox) && handed == old(handed) && s.sent == old(s.sent)
    {
      s.readyState := Open;
      if s != socket {
        return;
      }
      var pending := outbox;
      outbox := [];
      var i := 0;
      while i < |pending|
        invariant 0 <= i <= |pending| && s == socket && s.readyState == Open && s.closed == old(s.closed)
        invariant NoneOrphaned() && SocketsKept() && outbox == []
        invariant FramesOf(handed) == FramesOf(old(handed)) + pending[..i]
        modifies this`handed, s`sent
      {
        Hand(pending[i]);
        assert pending[..i + 1] == pending[..i] + [pending[i]];
        i := i + 1;
      }
      assert pending[..i] == pending;
    }

    /** `onerror`: let the close event that follows drive the reconnect. */
    method OnError(s: Socket)
      requires Valid() && s in created
      modifies s
      ensures Valid() && s.closed && s.readyState != Open
    {
      s.Close();
    }

    /** A socket begins to close, of itself or at its peer's word: no handler runs yet. */
    method Sinks(s: Socket)
      requires Valid() && s in created && s.readyState != Closed
      modifies s`readyState
      ensures Valid() && s.readyState == Closing
    {
      s.readyState := Closing;
    }

    /** A socket has closed: its `onclose` handler, up to the `onClose` callback. */
    method OnClose(s: Socket)
      requires Valid() && s in created && s.readyState != Closed
      modifies this`socket, this`unwinding, s
      ensures Valid() && s.closed && s.readyState == Closed
      ensures s == old(socket) ==> socket == null && unwinding == old(unwinding) + 1
      ensures s != old(socket) ==> socket == old(socket) && unwinding == old(unwinding)
    {
      s.readyState, s.closed := Closed, true;
      if s != socket {
        return;
      }
      socket := null;
      unwinding := unwinding + 1;
    }

    /** The `onClose` callback of a close event has returned. */
    method Unwind()
      requires Valid() && unwinding > 0
      modifies this`unwinding, this`timer
      ensures Valid() && unwinding == old(unwinding) - 1 && timer == (old(timer) || !closing)
    {
      unwinding := unwinding - 1;
      if !closing {
        ScheduleReconnect();
      }
    }

    method ScheduleReconnect()
      modifies this`timer
      ensures timer
    {
      if timer {
        return;
      }
      timer := true;
    }

    /** The booked attempt: open a socket unless there is one or none is wanted. */
    method TimerFires()
      requires Valid() && timer
      modifies this`timer, this`socket, this`created
      ensures Valid() && !timer
      ensures closing || old(socket) != null ==> socket == old(socket) && created == old(created)
      ensures !closing && old(socket) == null ==> fresh(socket) && created == old(created) + [socket]
    {
      timer := false;
      if closing || socket != null {
        return;
      }
      OpenSocket();
    }

    method CancelReconnect()
      modifies this`timer
      ensures !timer
    {
      if !timer {
        return;
      }
      timer := false;
    }
  }

  lemma {:induction false} NoneYet(handed: seq<Handed>, socket: nat)
    requires forall h :: h in handed ==> h.socket < socket
    ensures HandedTo(handed, socket) == []
  {
    if handed != [] {
      assert handed[|handed| - 1] in handed;
      NoneYet(handed[..|handed| - 1], socket);
    }
  }

  // ------------------------------------------------------------------------ //
  // Whole runs                                                                //
  // ------------------------------------------------------------------------ //

  /** A call of the owner's, from anywhere, a callback included, or an event: what
      happens to the socket of a number, a callback's return, or the timer. */
  datatype Step =
    | Starting
    | Ending
    | Sending(data: string)
    | Opened(which: nat)
    | Failed(which: nat)
    | Sinking(which: nat)
    | Lost(which: nat)
    | Returning
    | Firing

  /** One step of a run, on a connection whose sockets are `made`. */
  method Perform(c: ReconnectingConnection, made: seq<Socket>, running: nat, step: Step)
    returns (made': seq<Socket>, running': nat)
    requires c.Valid() && made == c.created && running == c.unwinding
    modifies c, made
    ensures c.Valid() && made' == c.created && running' == c.unwinding
    ensures c.sends == old(c.sends) + Sent([step])
    ensures made <= made' && fresh(set s | s in made'[|made|..])
  {
    made', running' := made, running;
    match step {
      case Starting =>
        var opens := c.socket == null;
        c.Start();
        made' := if opens then made + [c.socket] else made;
      case Ending => c.Close();
      case Sending(data) => c.Send(data);
      case Opened(which) => if which < |made| && made[which].readyState == Connecting { c.OnOpen(made[which]); }
      case Failed(which) => if which < |made| { c.OnError(made[which]); }
      case Sinking(which) => if which < |made| && made[which].readyState != Closed { c.Sinks(made[which]); }
      case Lost(which) =>
        if which < |made| && made[which].readyState != Closed {
          running' := if made[which] == c.socket then running + 1 else running;
          c.OnClose(made[which]);
        }
      case Returning =>
        if running > 0 {
          running' := running - 1;
          c.Unwind();
        }
      case Firing =>
        if c.timer {
          var opens := !c.closing && c.socket == null;
          c.TimerFires();
          made' := if opens then made + [c.socket] else made;
        }
    }
  }

  /** Any interleaving: the frames handed to sockets and then the ones still held are the
      frames sent, in order; every socket but the current one was closed; and once the
      connection was started and is not closing, it has a socket or a booked attempt
      whenever no close callback is still running. */
  method Run(steps: seq<Step>) returns (c: ReconnectingConnection)
    ensures c.Valid() && FramesOf(c.handed) + c.outbox == Sent(steps)
    ensures forall i :: 0 <= i < |c.created| ==> c.created[i].sent == HandedTo(c.handed, i)
    ensures forall s :: s in c.created && s != c.socket ==> s.closed
    ensures c.started && !c.closing && c.unwinding == 0 ==> c.socket != null || c.timer
  {
    c := new ReconnectingConnection();
    var made: seq<Socket> := [];
    var running := 0;
    var i := 0;
    while i < |steps|
      invariant 0 <= i <= |steps| && fresh(c) && c.Valid() && made == c.created && running == c.unwinding
      invariant fresh(set s | s in made) && c.sends == Sent(steps[..i])
    {
      ghost var before := made;
      made, running := Perform(c, made, running, steps[i]);
      assert made == before + made[|before|..];
      SentSnoc(steps[..i], steps[i]);
      assert steps[..i + 1] == steps[..i] + [steps[i]];
      i := i + 1;
    }
    assert steps[..i] == steps;
  }

  lemma SentSnoc(steps: seq<Step>, step: Step)
    ensures Sent(steps + [step]) == Sent(steps) + Sent([step])
  {
    assert (steps + [step])[..|steps|] == steps && [step][..0] == [];
  }

  /** The frames a run was asked to send. */
  function Sent(steps: seq<Step>): seq<string> {
    if steps == [] then []
    else Sent(steps[..|steps| - 1])
         + match steps[|steps| - 1] case Sending(data) => [data] case _ => []
  }
}
