/** The Python client's connections (src/indikit/client/client.py): what may be written on
    which connection, and what a `wait_for` hands back. Each method is one atomic step of
    the event loop, the code between two awaits; a run is any interleaving of them. */
module Client {
  import opened Wire
  import opened Merge
  import opened Store

  const OUTBOX_MAXSIZE := 256

  type PolicyKey = (string, Option<string>)

  /** One connection: what it was greeted with, the sends accepted while it was up, what
      its writer took off the queue and what it finished writing. */
  datatype Connection = Connection(handshake: seq<IndiMessage>, accepted: seq<IndiMessage>,
                                   taken: seq<IndiMessage>, written: seq<IndiMessage>)

  /** What is written is a prefix of the handshake and then the accepted sends, and of
      what was taken at most one message was not written. */
  predicate InOrder(c: Connection) {
    c.written <= c.taken <= c.handshake + c.accepted && |c.taken| <= |c.written| + 1
  }

  function Newest(connections: seq<Connection>): Connection
    requires connections != []
  {
    connections[|connections| - 1]
  }

  /** Only the newest connection changed, into this. */
  predicate Moved(before: seq<Connection>, after: seq<Connection>, newest: Connection) {
    before != [] && after == before[|before| - 1 := newest]
  }

  /** What became of the connections meanwhile: none was forgotten, those but the newest
      are as they were, and the newest keeps its handshake and its history. */
  predicate Follows(before: seq<Connection>, after: seq<Connection>) {
    && |before| <= |after|
    && forall i :: 0 <= i < |before| ==>
         if i < |before| - 1 then after[i] == before[i]
         else
           && after[i].handshake == before[i].handshake && before[i].accepted <= after[i].accepted
           && before[i].taken <= after[i].taken && before[i].written <= after[i].written
  }

  /** The recorded policies, in the order their keys were first recorded. */
  function Recorded(order: seq<PolicyKey>, policies: map<PolicyKey, IndiMessage>): (r: seq<IndiMessage>)
    requires forall k :: k in order ==> k in policies
    ensures |r| == |order| && forall i :: 0 <= i < |r| ==> r[i] == policies[order[i]]
  {
    seq(|order|, i requires 0 <= i < |order| => policies[order[i]])
  }

  /** The recorded policies, and the order their keys were first recorded in. */
  datatype Policies = Kept(order: seq<PolicyKey>, latest: map<PolicyKey, IndiMessage>)

  const GET_PROPERTIES := GetProperties("1.7", None, None)

  datatype Phase = Down | Greeting | Serving | Silent | Stopped

  datatype Outcome = Accepted | NotConnected | QueueFull

  class IndiClient {
    var outbox: seq<IndiMessage>
    var order: seq<PolicyKey>
    var policies: map<PolicyKey, IndiMessage>
    var connected: bool
    var closing: bool
    /** Where the connection loop is: between connections, in the callbacks of a new one,
        with its writer running, with its writer gone, or ended for good. */
    var phase: Phase
    var writing: bool
    ghost var connections: seq<Connection>

    constructor ()
      ensures Valid() && connections == [] && order == [] && policies == map[] && phase == Down && !closing
    {
      outbox, order, policies, connected, closing, phase, writing := [], [], map[], false, false, Down, false;
      connections := [];
    }

    ghost predicate Valid()
      reads this
    {
      && |outbox| <= OUTBOX_MAXSIZE
      && PoliciesKept()
      && (phase == Down ==> !connected && outbox == [] && !writing)
      && (phase == Greeting || phase == Serving || phase == Silent ==> connected)
      && (writing ==> phase == Serving)
      && (forall i :: 0 <= i < |connections| ==> InOrder(connections[i]))
      && (connected ==> connections != [] && Current())
    }

    /** The keys are in order and each is recorded with a policy of its own. */
    ghost predicate PoliciesKept()
      reads this
    {
      && (forall i, j :: 0 <= i < j < |order| ==> order[i] != order[j])
      && (forall k :: k in order <==> k in policies)
      && forall k :: k in policies ==> policies[k].EnableBlob? && (policies[k].device, policies[k].name) == k
    }

    /** Everything queued is the live connection's, in order: a queue the handshake
        overflowed holds the start of it and takes nothing more. */
    ghost predicate Current()
      reads this
      requires connections != []
    {
      var c := connections[|connections| - 1];
      && (c.taken + outbox == c.handshake + c.accepted
          || (phase == Stopped && c.accepted == [] && c.taken == [] && |outbox| == OUTBOX_MAXSIZE
              && outbox <= c.handshake))
      && (phase == Greeting || phase == Serving ==> |c.taken| == |c.written| + if writing then 1 else 0)
    }

    /** What a connection made now is greeted with. */
    ghost function Handshake(): seq<IndiMessage>
      reads this`order, this`policies
    {
      if forall k :: k in order ==> k in policies then [GET_PROPERTIES] + Recorded(order, policies) else []
    }

    ghost function Policies(): Policies
      reads this`order, this`policies
    {
      Kept(order, policies)
    }

    /** `_enqueue_handshake`: the queue was emptied, so this is all that is in it, unless
        there are more recorded policies than it has room for. */
    method EnqueueHandshake() returns (ok: bool)
      requires outbox == [] && PoliciesKept()
      modifies this`outbox
      ensures var handshake := [GET_PROPERTIES] + Recorded(order, policies);
              && (ok <==> |order| <= OUTBOX_MAXSIZE - 1)
              && outbox == if ok then handshake else handshake[..OUTBOX_MAXSIZE]
    {
      hide GET_PROPERTIES, Recorded, PoliciesKept;
      KeysRecorded();
      ghost var handshake := [GET_PROPERTIES] + Recorded(order, policies);
      outbox := [GET_PROPERTIES];
      var i := 0;
      while i < |order|
        invariant 0 <= i <= |order| && |outbox| == i + 1 <= OUTBOX_MAXSIZE
        invariant outbox == handshake[..i + 1]
      {
        if |outbox| == OUTBOX_MAXSIZE {
          return false;
        }
        assert handshake[i + 1] == policies[order[i]];
        assert handshake[..i + 2] == handshake[..i + 1] + [handshake[i + 1]];
        outbox := outbox + [policies[order[i]]];
        i := i + 1;
      }
      assert handshake[..i + 1] == handshake;
      ok := true;
    }

    lemma KeysRecorded()
      requires PoliciesKept()
      ensures forall k :: k in order ==> k in policies
    {
    }

    /** A connection comes up: `_connection_loop` from there to the callbacks. Recorded
        policies that do not fit raise and end the loop. */
    method Connect() returns (ok: bool)
      requires Valid() && phase == Down && !closing
      modifies this`outbox, this`connected, this`phase, this`connections
      ensures Valid() && connected && phase == (if ok then Greeting else Stopped)
      ensures ok <==> |order| <= 255
      ensures Opens(old(connections), connections, Handshake())
      ensures Handshake() != [] && Handshake()[0] == GetProperties("1.7", None, None)
    {
      connected := true;
      connections := connections + [Connection([GET_PROPERTIES] + Recorded(order, policies), [], [], [])];
      ok := EnqueueHandshake();
      phase := if ok then Greeting else Stopped;
    }

    /** The callbacks have returned: `_run_connection` starts the writer and the reader. */
    method Serve()
      requires Valid() && phase == Greeting
      modifies this`phase
      ensures Valid() && phase == Serving
    {
      phase := Serving;
    }

    /** `send`: refused with no connection or no room, never held. */
    method Send(msg: IndiMessage) returns (outcome: Outcome)
      requires Valid()
      modifies this`outbox, this`connections
      ensures Valid()
      ensures outcome == if !connected then NotConnected
                         else if |old(outbox)| == OUTBOX_MAXSIZE then QueueFull else Accepted
      ensures Queued(old(outbox), old(connections), msg, outcome)
    {
      if !connected {
        return NotConnected;
      }
      if |outbox| == OUTBOX_MAXSIZE {
        return QueueFull;
      }
      var was := outbox;
      outbox := outbox + [msg];
      ghost var last := |connections| - 1;
      ghost var c := connections[last];
      connections := connections[last := c.(accepted := c.accepted + [msg])];
      assert c.taken + outbox == (c.taken + was) + [msg];
      assert c.handshake + (c.accepted + [msg]) == (c.handshake + c.accepted) + [msg];
      outcome := Accepted;
    }

    /** A refused message changed nothing; an accepted one is the newest connection's. */
    ghost predicate Queued(was: seq<IndiMessage>, before: seq<Connection>, msg: IndiMessage, outcome: Outcome)
      reads this
    {
      if outcome != Accepted then outbox == was && connections == before
      else
        && outbox == was + [msg] && before != []
        && Moved(before, connections, Newest(before).(accepted := Newest(before).accepted + [msg]))
    }

    /** `enable_blob`: recorded whether or not it can be sent now. */
    method EnableBlobs(device: string, name: Option<string>, policy: BlobPolicy) returns (outcome: Outcome)
      requires Valid()
      modifies this`order, this`policies, this`outbox, this`connections
      ensures Valid() && policies == old(policies)[(device, name) := EnableBlob(device, name, policy)]
      ensures order == if (device, name) in old(policies) then old(order) else old(order) + [(device, name)]
      ensures Queued(old(outbox), old(connections), EnableBlob(device, name, policy), outcome)
      ensures outcome == if !connected then NotConnected
                         else if |old(outbox)| == OUTBOX_MAXSIZE then QueueFull else Accepted
    {
      var msg := EnableBlob(device, name, policy);
      if (device, name) !in policies {
        order := order + [(device, name)];
      }
      policies := policies[(device, name) := msg];
      outcome := Send(msg);
    }

    /** The writer takes the next message. */
    method Take()
      requires Valid() && phase == Serving && !writing && outbox != []
      modifies this`outbox, this`writing, this`connections
      ensures Valid() && writing && outbox == old(outbox)[1..]
      ensures Moved(old(connections), connections,
                    Newest(old(connections)).(taken := Newest(old(connections)).taken + [old(outbox)[0]]))
    {
      ghost var last := |connections| - 1;
      ghost var c := connections[last];
      connections := connections[last := c.(taken := c.taken + [outbox[0]])];
      assert (c.taken + [outbox[0]]) + outbox[1..] == c.taken + outbox;
      outbox, writing := outbox[1..], true;
    }

    /** Its write has been awaited. */
    method Wrote()
      requires Valid() && phase == Serving && writing
      modifies this`writing, this`connections
      ensures Valid() && !writing
      ensures Moved(old(connections), connections,
                    Newest(old(connections)).(written := Newest(old(connections)).taken))
    {
      ghost var last := |connections| - 1;
      ghost var c := connections[last];
      connections := connections[last := c.(written := c.taken)];
      writing := false;
    }

    /** The writer is cancelled or fails: it takes nothing more. */
    method WriterStops()
      requires Valid() && phase == Serving
      modifies this`phase, this`writing
      ensures Valid() && phase == Silent
    {
      phase, writing := Silent, false;
    }

    /** `_drain_outbox`. */
    method DrainOutbox()
      modifies this`outbox
      ensures outbox == []
    {
      while outbox != []
        decreases |outbox|
      {
        outbox := outbox[1..];
      }
    }

    /** The connection has ended: what is still queued for it is dropped. */
    method End()
      requires Valid() && (phase == Serving || phase == Silent)
      modifies this`phase, this`writing, this`connected, this`outbox
      ensures Valid() && phase == Down && !connected && outbox == []
    {
      connected, writing := false, false;
      DrainOutbox();
      phase := Down;
    }

    /** `aclose` cancels the loop: a serving connection ends as above; a loop cancelled in
        the callbacks of a new one leaves it as it was, and none is made again. */
    method Close()
      requires Valid()
      modifies this
      ensures Valid() && closing && connections == old(connections) && policies == old(policies) && order == old(order)
      ensures phase == if old(phase) == Greeting then Stopped else if old(phase) == Stopped then Stopped else Down
    {
      closing := true;
      if phase == Serving || phase == Silent {
        End();
      } else if phase == Greeting {
        phase := Stopped;
      }
    }
  }

  /** Each recorded policy is in the handshake once, with its latest setting. */
  lemma HandshakeHasEachPolicyOnce(order: seq<PolicyKey>, policies: map<PolicyKey, IndiMessage>, k: PolicyKey) returns (i: nat)
    requires forall i, j :: 0 <= i < j < |order| ==> order[i] != order[j]
    requires forall key :: key in order <==> key in policies
    requires forall key :: key in policies ==> policies[key].EnableBlob? && (policies[key].device, policies[key].name) == key
    requires k in policies
    ensures i < |order| && Recorded(order, policies)[i] == policies[k]
    ensures forall j :: 0 <= j < |order| && j != i ==>
              Recorded(order, policies)[j].EnableBlob?
              && (Recorded(order, policies)[j].device, Recorded(order, policies)[j].name) != k
  {
    i :| 0 <= i < |order| && order[i] == k;
    assert Recorded(order, policies)[i] == policies[k];
  }

  // ------------------------------------------------------------------------ //
  // Whole runs                                                                //
  // ------------------------------------------------------------------------ //

  datatype Step =
    | Connecting
    | Greeted
    | Sending(msg: IndiMessage)
    | Enabling(device: string, name: Option<string>, policy: BlobPolicy)
    | Taking
    | Writing
    | Stopping
    | Ending
    | Closing

  /** The recorded policies after one more step. */
  function AlsoRecorded(p: Policies, step: Step): Policies {
    match step
    case Enabling(device, name, policy) =>
      Kept(if (device, name) in p.latest then p.order else p.order + [(device, name)],
           p.latest[(device, name) := EnableBlob(device, name, policy)])
    case _ => p
  }

  /** A policy keeps the place its key first took, whatever is set after it, and a new key comes last. */
  lemma RecordedInPlace(p: Policies, step: Step)
    ensures p.order <= AlsoRecorded(p, step).order
    ensures step.Enabling? ==>
              var key := (step.device, step.name);
              && key in AlsoRecorded(p, step).latest
              && (key !in p.latest ==> AlsoRecorded(p, step).order == p.order + [key])
  {
  }

  /** What a step adds to what a connection accepted. */
  function AcceptedBy(step: Step): seq<IndiMessage> {
    match step
    case Sending(msg) => [msg]
    case Enabling(device, name, policy) => [EnableBlob(device, name, policy)]
    case _ => []
  }

  /** The sends a connection has accepted grew by this step's, if it was up and had room. */
  predicate Accepts(before: seq<Connection>, after: seq<Connection>, room: bool, step: Step) {
    0 < |before| <= |after| ==>
      after[|before| - 1].accepted == before[|before| - 1].accepted + if room then AcceptedBy(step) else []
  }

  lemma NoneMoved(before: seq<Connection>, after: seq<Connection>, step: Step)
    requires before <= after && AcceptedBy(step) == []
    ensures Follows(before, after) && forall room :: Accepts(before, after, room, step)
  {
  }

  lemma NewestMoved(before: seq<Connection>, after: seq<Connection>, newest: Connection, room: bool, step: Step)
    requires Moved(before, after, newest)
    requires newest.handshake == Newest(before).handshake && Newest(before).taken <= newest.taken
    requires Newest(before).written <= newest.written
    requires newest.accepted == Newest(before).accepted + if room then AcceptedBy(step) else []
    ensures Follows(before, after) && Accepts(before, after, room, step) && |after| == |before|
  {
  }

  lemma SendFollows(c: IndiClient, was: seq<IndiMessage>, before: seq<Connection>, msg: IndiMessage,
                    outcome: Outcome, step: Step)
    requires c.Queued(was, before, msg, outcome) && AcceptedBy(step) == [msg]
    ensures Follows(before, c.connections) && Accepts(before, c.connections, outcome == Accepted, step)
    ensures |c.connections| == |before| && (outcome != Accepted ==> c.connections == before)
  {
    if outcome == Accepted {
      NewestMoved(before, c.connections, Newest(before).(accepted := Newest(before).accepted + [msg]), true, step);
    }
  }

  /** A new connection's handshake is that of the policies recorded before it. */
  predicate Opens(before: seq<Connection>, after: seq<Connection>, handshake: seq<IndiMessage>) {
    after == before + [Connection(handshake, [], [], [])]
  }

  /** What a step does to a client and to its connections. */
  twostate predicate Steps(c: IndiClient, step: Step, accepted: bool)
    reads c
  {
    && Follows(old(c.connections), c.connections)
    && accepted == (AcceptedBy(step) != [] && old(c.connected && |c.outbox| < OUTBOX_MAXSIZE))
    && (if step.Connecting? && old(c.phase == Down && !c.closing)
        then Opens(old(c.connections), c.connections, old(c.Handshake())) else |c.connections| == |old(c.connections)|)
    && Accepts(old(c.connections), c.connections, accepted, step)
    && (!old(c.connected) ==> old(c.connections) <= c.connections)
    && c.Policies() == AlsoRecorded(old(c.Policies()), step)
  }

  /** A step that sends a message, and whether it was accepted. */
  method PerformSend(c: IndiClient, step: Step) returns (accepted: bool)
    requires c.Valid() && AcceptedBy(step) != []
    modifies c
    ensures c.Valid() && Steps(c, step, accepted)
  {
    ghost var was, before := c.outbox, c.connections;
    assert |was| <= OUTBOX_MAXSIZE;
    hide IndiClient.Valid, IndiClient.Queued, Recorded, GET_PROPERTIES, Accepts, Follows, IndiClient.Handshake;
    var outcome;
    match step {
      case Sending(msg) =>
        outcome := c.Send(msg);
        SendFollows(c, was, before, msg, outcome, step);
      case Enabling(device, name, policy) =>
        outcome := c.EnableBlobs(device, name, policy);
        SendFollows(c, was, before, EnableBlob(device, name, policy), outcome, step);
    }
    accepted := outcome == Accepted;
  }

  /** The writer takes a message, or has written it. */
  method PerformWrite(c: IndiClient, step: Step)
    requires c.Valid() && (step.Taking? || step.Writing?)
    modifies c
    ensures c.Valid() && Steps(c, step, false)
  {
    ghost var was, before := c.outbox, c.connections;
    assert c.phase == Serving ==> c.connected && before != [];
    assert forall i :: 0 <= i < |before| ==> before[i].written <= before[i].taken;
    hide IndiClient.Valid, Recorded, GET_PROPERTIES, Accepts, Follows, IndiClient.Handshake;
    if step.Taking? && c.phase == Serving && !c.writing && c.outbox != [] {
      c.Take();
      NewestMoved(before, c.connections, Newest(before).(taken := Newest(before).taken + [was[0]]), false, step);
    } else if step.Writing? && c.phase == Serving && c.writing {
      c.Wrote();
      NewestMoved(before, c.connections, Newest(before).(written := Newest(before).taken), false, step);
    } else {
      NoneMoved(before, c.connections, step);
    }
  }

  /** One step, and whether a message it sent was accepted. */
  method Perform(c: IndiClient, step: Step) returns (accepted: bool)
    requires c.Valid()
    modifies c
    ensures c.Valid() && Steps(c, step, accepted)
  {
    ghost var before := c.connections;
    hide IndiClient.Valid, Recorded, GET_PROPERTIES, Accepts, Follows, IndiClient.Handshake;
    accepted := false;
    match step {
      case Connecting =>
        if c.phase == Down && !c.closing { var ok := c.Connect(); }
        NoneMoved(before, c.connections, step);
      case Greeted =>
        if c.phase == Greeting { c.Serve(); }
        NoneMoved(before, c.connections, step);
      case Sending(_) => accepted := PerformSend(c, step);
      case Enabling(_, _, _) => accepted := PerformSend(c, step);
      case Taking => PerformWrite(c, step);
      case Writing => PerformWrite(c, step);
      case Stopping =>
        if c.phase == Serving { c.WriterStops(); }
        NoneMoved(before, c.connections, step);
      case Ending =>
        if c.phase == Serving || c.phase == Silent { c.End(); }
        NoneMoved(before, c.connections, step);
      case Closing =>
        c.Close();
        NoneMoved(before, c.connections, step);
    }
  }

  /** The policies recorded by some steps, each key kept in its first place. */
  function PoliciesAfter(steps: seq<Step>): (p: Policies)
    ensures forall i, j :: 0 <= i < j < |p.order| ==> p.order[i] != p.order[j]
    ensures forall k :: k in p.order <==> k in p.latest
    ensures forall k :: k in p.latest ==> p.latest[k].EnableBlob? && (p.latest[k].device, p.latest[k].name) == k
  {
    if steps == [] then Kept([], map[]) else AlsoRecorded(PoliciesAfter(steps[..|steps| - 1]), steps[|steps| - 1])
  }

  /** What a connection is greeted with after some steps. */
  function HandshakeAfter(steps: seq<Step>): seq<IndiMessage> {
    var p := PoliciesAfter(steps);
    [GET_PROPERTIES] + Recorded(p.order, p.latest)
  }

  /** The messages of a stretch of steps that were accepted. */
  function Sends(steps: seq<Step>, took: seq<bool>, from: nat, to: nat): seq<IndiMessage>
    requires to <= |steps| && to <= |took|
  {
    if to <= from then []
    else Sends(steps, took, from, to - 1) + if took[to - 1] then AcceptedBy(steps[to - 1]) else []
  }

  lemma {:induction false} SendsMore(steps: seq<Step>, took: seq<bool>, step: Step, b: bool, from: nat, to: nat)
    requires to <= |steps| == |took|
    ensures Sends(steps + [step], took + [b], from, to) == Sends(steps, took, from, to)
  {
    if to > from {
      SendsMore(steps, took, step, b, from, to - 1);
    }
  }

  /** Where the stretch of steps of the i-th connection ends. */
  function EndOf(starts: seq<nat>, i: nat, steps: nat): nat
    requires i < |starts|
  {
    if i + 1 < |starts| then starts[i + 1] else steps
  }

  /** One connection's handshake is that of the policies recorded before it was made, and
      what it accepted is what was sent and accepted from then until the next one. */
  predicate TracedAt(steps: seq<Step>, took: seq<bool>, starts: seq<nat>, cs: seq<Connection>, i: nat) {
    i < |starts| && i < |cs| && |took| == |steps| ==>
      && starts[i] < |steps| && EndOf(starts, i, |steps|) <= |steps| && steps[starts[i]].Connecting?
      && cs[i].handshake == HandshakeAfter(steps[..starts[i]])
      && cs[i].accepted == Sends(steps, took, starts[i], EndOf(starts, i, |steps|))
  }

  ghost predicate Traced(steps: seq<Step>, took: seq<bool>, starts: seq<nat>, cs: seq<Connection>) {
    |took| == |steps| && |starts| == |cs| && forall i: nat :: TracedAt(steps, took, starts, cs, i)
  }

  lemma TracedOpen(steps: seq<Step>, took: seq<bool>, starts: seq<nat>, cs: seq<Connection>, step: Step, after: seq<Connection>)
    requires Traced(steps, took, starts, cs) && step.Connecting? && Opens(cs, after, HandshakeAfter(steps))
    ensures Traced(steps + [step], took + [false], starts + [|steps|], after)
  {
    hide HandshakeAfter, Sends, GET_PROPERTIES;
    var more, longer := steps + [step], starts + [|steps|];
    forall i: nat ensures TracedAt(more, took + [false], longer, after, i) {
      assert TracedAt(steps, took, starts, cs, i);
      if i < |cs| {
        assert more[..starts[i]] == steps[..starts[i]];
        SendsMore(steps, took, step, false, starts[i], EndOf(starts, i, |steps|));
        assert EndOf(longer, i, |more|) == EndOf(starts, i, |steps|);
      } else if i == |cs| {
        assert more[..|steps|] == steps;
        OneStep(more, took + [false], |steps|);
      }
    }
  }

  lemma OneStep(steps: seq<Step>, took: seq<bool>, from: nat)
    requires from + 1 == |steps| == |took|
    ensures Sends(steps, took, from, from + 1) == if took[from] then AcceptedBy(steps[from]) else []
  {
    assert Sends(steps, took, from, from) == [];
  }

  lemma TracedMove(steps: seq<Step>, took: seq<bool>, starts: seq<nat>, cs: seq<Connection>, step: Step, accepted: bool,
                   after: seq<Connection>)
    requires Traced(steps, took, starts, cs) && Follows(cs, after) && |after| == |cs|
    requires Accepts(cs, after, accepted, step)
    ensures Traced(steps + [step], took + [accepted], starts, after)
  {
    hide HandshakeAfter, Sends;
    var more := steps + [step];
    forall i: nat ensures TracedAt(more, took + [accepted], starts, after, i) {
      assert TracedAt(steps, took, starts, cs, i);
      if i < |cs| {
        assert more[..starts[i]] == steps[..starts[i]];
        SendsMore(steps, took, step, accepted, starts[i], EndOf(starts, i, |steps|));
        if i + 1 == |cs| {
          SendsLast(more, took + [accepted], starts[i]);
        }
      }
    }
  }

  lemma SendsLast(steps: seq<Step>, took: seq<bool>, from: nat)
    requires from < |steps| == |took|
    ensures var last := |steps| - 1;
            Sends(steps, took, from, |steps|) == Sends(steps, took, from, last) + if took[last] then AcceptedBy(steps[last]) else []
  {
  }

  /** Any run: on every connection there ever was, what was written is a prefix of its own
      handshake and the sends accepted while it was up, in order; its handshake is that of
      the policies recorded before it, and those sends are what the steps from then on sent
      and had accepted. Nothing queued for one connection reaches another. */
  method Run(steps: seq<Step>) returns (c: IndiClient, took: seq<bool>, starts: seq<nat>)
    ensures c.Valid() && forall i :: 0 <= i < |c.connections| ==> InOrder(c.connections[i])
    ensures Traced(steps, took, starts, c.connections)
    ensures c.Policies() == PoliciesAfter(steps)
  {
    hide InOrder, Follows, Accepts, AlsoRecorded, AcceptedBy, Opens, HandshakeAfter, Recorded, GET_PROPERTIES;
    c := new IndiClient();
    took, starts := [], [];
    var i := 0;
    while i < |steps|
      invariant 0 <= i <= |steps| && fresh(c) && c.Valid()
      invariant Traced(steps[..i], took, starts, c.connections) && c.Policies() == PoliciesAfter(steps[..i])
    {
      ghost var before := c.connections;
      var opens := steps[i].Connecting? && c.phase == Down && !c.closing;
      GreetsWith(c, steps[..i]);
      var accepted := Perform(c, steps[i]);
      assert steps[..i + 1] == steps[..i] + [steps[i]];
      assert steps[..i + 1][..i] == steps[..i];
      if opens {
        ConnectingSendsNothing(steps[i]);
        TracedOpen(steps[..i], took, starts, before, steps[i], c.connections);
        starts := starts + [i];
      } else {
        TracedMove(steps[..i], took, starts, before, steps[i], accepted, c.connections);
      }
      took := took + [accepted];
      i := i + 1;
    }
    assert steps[..i] == steps;
  }

  lemma ConnectingSendsNothing(step: Step)
    requires step.Connecting?
    ensures AcceptedBy(step) == []
  {
  }

  lemma GreetsWith(c: IndiClient, steps: seq<Step>)
    requires c.Policies() == PoliciesAfter(steps)
    ensures c.Handshake() == HandshakeAfter(steps)
  {
  }

  /** The last setting of a policy some steps recorded. */
  function LatestOf(steps: seq<Step>, k: PolicyKey): Option<BlobPolicy> {
    if steps == [] then None
    else
      var step := steps[|steps| - 1];
      if step.Enabling? && (step.device, step.name) == k then Some(step.policy) else LatestOf(steps[..|steps| - 1], k)
  }

  lemma {:induction false} RecordsLatest(steps: seq<Step>, k: PolicyKey)
    ensures var p := PoliciesAfter(steps);
            && (k in p.latest <==> LatestOf(steps, k).Some?)
            && (k in p.latest ==> p.latest[k] == EnableBlob(k.0, k.1, LatestOf(steps, k).value))
  {
    if steps != [] {
      RecordsLatest(steps[..|steps| - 1], k);
    }
  }

  lemma GreetingHasEachOnce(p: Policies, k: PolicyKey) returns (i: nat)
    requires forall i, j :: 0 <= i < j < |p.order| ==> p.order[i] != p.order[j]
    requires forall key :: key in p.order <==> key in p.latest
    requires forall key :: key in p.latest ==> p.latest[key].EnableBlob? && (p.latest[key].device, p.latest[key].name) == key
    requires k in p.latest
    ensures var all := [GET_PROPERTIES] + Recorded(p.order, p.latest);
            && all[0] == GET_PROPERTIES && 0 < i < |all| && all[i] == p.latest[k]
            && forall j :: 0 < j < |all| && j != i ==> all[j].EnableBlob? && (all[j].device, all[j].name) != k
  {
    hide GET_PROPERTIES;
    var recorded := Recorded(p.order, p.latest);
    var at := HandshakeHasEachPolicyOnce(p.order, p.latest, k);
    i := at + 1;
    var all := [GET_PROPERTIES] + recorded;
    assert forall j :: 0 < j < |all| ==> all[j] == recorded[j - 1];
  }

  /** In a handshake every policy ever set is there once, as it was set last. */
  lemma HandshakeIsLatest(steps: seq<Step>, k: PolicyKey) returns (i: nat)
    requires LatestOf(steps, k).Some?
    ensures var all := HandshakeAfter(steps);
            && all[0] == GET_PROPERTIES && 0 < i < |all| && all[i] == EnableBlob(k.0, k.1, LatestOf(steps, k).value)
            && forall j :: 0 < j < |all| && j != i ==> all[j].EnableBlob? && (all[j].device, all[j].name) != k
  {
    hide GET_PROPERTIES, Recorded;
    RecordsLatest(steps, k);
    i := GreetingHasEachOnce(PoliciesAfter(steps), k);
  }

  // ------------------------------------------------------------------------ //
  // Waiting for a property                                                    //
  // ------------------------------------------------------------------------ //

  predicate Matches(c: Cache, k: Key, wanted: Vector -> bool) {
    Lookup(c, k).Some? && wanted(Lookup(c, k).value)
  }

  /** The first state of a property that satisfies a predicate, of the one it has now and
      the ones it has after each of the messages. */
  function FirstMatch(c: Cache, msgs: seq<IndiMessage>, k: Key, wanted: Vector -> bool): Option<Vector>
    decreases |msgs|
  {
    if Matches(c, k, wanted) then Lookup(c, k)
    else if msgs == [] then None
    else FirstMatch(Applied(c, msgs[0]), msgs[1..], k, wanted)
  }

  lemma EventMatches(c: Cache, msg: IndiMessage, k: Key, wanted: Vector -> bool)
    requires WellFiled(c) && !Matches(c, k, wanted)
    ensures var event := EventOf(c, msg);
            Matches(Applied(c, msg), k, wanted) <==>
            event.Some? && event.value.vector.Some? && event.value.device == k.0 && event.value.name == Some(k.1)
            && wanted(event.value.vector.value)
    ensures var event := EventOf(c, msg);
            event.Some? && event.value.vector.Some? && event.value.device == k.0 && event.value.name == Some(k.1) ==>
              Lookup(Applied(c, msg), k) == event.value.vector
  {
    AppliedAt(c, msg, k);
  }

  /** One message folded while a `wait_for` is parked: the subscriber's `on_event` takes a
      copy of the vector that matched. */
  method Heard(store: PyStore, msg: IndiMessage, k: Key, wanted: Vector -> bool) returns (result: LiveVector?)
    requires store.Valid() && WellFiled(store.Contents()) && Admissible(store.Contents(), msg)
    requires !Matches(store.Contents(), k, wanted)
    modifies store, store.Target(msg)
    ensures store.Valid() && store.Contents() == Applied(old(store.Contents()), msg)
    ensures forall f :: f in Files(store.byDevice) ==> f in old(Files(store.byDevice)) || fresh(f)
    ensures result != null <==> Matches(store.Contents(), k, wanted)
    ensures result != null ==>
              fresh(result) && result !in Files(store.byDevice) && Some(result.Value()) == Lookup(store.Contents(), k)
  {
    hide Applied, EventOf, Admissible, RowValues, RowFiled, Lookup, WellFiled, Matches;
    result := null;
    var event := store.Apply(msg);
    EventMatches(old(store.Contents()), msg, k, wanted);
    FilesOf(event, msg, old(store.byDevice), store.byDevice);
    if event.Some? && event.value.device == k.0 && event.value.name == Some(k.1) && event.value.vector.Some? {
      var vec := event.value.vector.value;
      if wanted(vec.Value()) {
        result := new LiveVector(vec.Value());
      }
    }
  }

  /** What is cached already, if it will do. */
  method Cached(store: PyStore, k: Key, wanted: Vector -> bool) returns (result: LiveVector?)
    requires store.Valid()
    ensures result != null <==> Matches(store.Contents(), k, wanted)
    ensures result != null ==> fresh(result) && Some(result.Value()) == Lookup(store.Contents(), k)
  {
    result := null;
    if k.0 in store.byDevice && k.1 in store.byDevice[k.0] && wanted(store.byDevice[k.0][k.1].Value()) {
      result := new LiveVector(store.byDevice[k.0][k.1].Value());
    }
  }

  /** One message folded, whether or not the wait has been resolved. */
  method Turn(store: PyStore, msg: IndiMessage, k: Key, wanted: Vector -> bool, resolved: LiveVector?)
    returns (result: LiveVector?)
    requires store.Valid() && Admissible(store.Contents(), msg)
    requires if resolved == null then !Matches(store.Contents(), k, wanted) else resolved !in Files(store.byDevice)
    modifies store, store.Target(msg)
    ensures store.Valid() && store.Contents() == Applied(old(store.Contents()), msg)
    ensures forall f :: f in Files(store.byDevice) ==> f in old(Files(store.byDevice)) || fresh(f)
    ensures resolved != null ==>
              result == resolved && result !in Files(store.byDevice) && result.Value() == old(resolved.Value())
    ensures resolved == null ==> (result != null <==> Matches(store.Contents(), k, wanted))
    ensures resolved == null && result != null ==>
              fresh(result) && result !in Files(store.byDevice) && Some(result.Value()) == Lookup(store.Contents(), k)
  {
    hide Applied, EventOf, Admissible, Matches, Values, Filed, Lookup, WellFiled;
    FiledIsWellFiled(store);
    if resolved == null {
      result := Heard(store, msg, k, wanted);
    } else {
      ghost var event := Fold(store, msg);
      result := resolved;
    }
  }

  /** `wait_for` over a chunk of messages folded before the waiter is scheduled: what it
      resolves to is the first state that matched, a copy that no later message reaches. */
  method WaitFor(store: PyStore, msgs: seq<IndiMessage>, k: Key, wanted: Vector -> bool)
    returns (result: LiveVector?)
    requires store.Valid() && AllAdmissible(store.Contents(), msgs)
    modifies store, Files(store.byDevice)
    ensures store.Valid()
    ensures result == null <==> FirstMatch(old(store.Contents()), msgs, k, wanted).None?
    ensures result != null ==>
              fresh(result) && Some(result.Value()) == FirstMatch(old(store.Contents()), msgs, k, wanted)
  {
    result := Cached(store, k, wanted);
    if result != null {
      return;
    }
    hide Applied, Admissible, Matches, Values, Filed, Lookup, EventOf;
    var i := 0;
    assert msgs[0..] == msgs;
    while i < |msgs|
      invariant 0 <= i <= |msgs| && store.Valid()
      invariant AllAdmissible(store.Contents(), msgs[i..])
      invariant forall f :: f in Files(store.byDevice) ==> f in old(Files(store.byDevice)) || fresh(f)
      invariant result == null ==>
                  && !Matches(store.Contents(), k, wanted)
                  && FirstMatch(store.Contents(), msgs[i..], k, wanted) == FirstMatch(old(store.Contents()), msgs, k, wanted)
      invariant result != null ==>
                  && fresh(result) && result !in Files(store.byDevice)
                  && Some(result.Value()) == FirstMatch(old(store.Contents()), msgs, k, wanted)
    {
      assert msgs[i..][1..] == msgs[i + 1..];
      result := Turn(store, msgs[i], k, wanted, result);
      i := i + 1;
    }
  }
}
