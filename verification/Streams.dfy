/** A whole stream put on the wire and taken off it again: what the printers and the
    parsers of src/indikit/protocol/xml.py together do to the property cache at the
    other end. */
module Streams {
  import opened Wire
  import opened Merge
  import opened Store
  import opened Codec

  /** What the reader takes one message for, if it takes it at all. */
  function Carried(msg: IndiMessage, lib: Library): seq<IndiMessage> {
    match MessageNode(msg, lib)
    case None => []
    case Some(node) => match MessageOf(node, lib) case Parsed(read) => [read] case _ => []
  }

  /** A stream printed at one end and parsed at the other. */
  function Transmitted(msgs: seq<IndiMessage>, lib: Library): seq<IndiMessage> {
    if msgs == [] then []
    else Transmitted(msgs[..|msgs| - 1], lib) + Carried(msgs[|msgs| - 1], lib)
  }

  /** A message as the wire's precision leaves it: an update comes with its state. */
  function SettledMessage(msg: IndiMessage, lib: Library): IndiMessage {
    match msg
    case DefVector(v) => DefVector(SettledVector(v, lib))
    case SetVector(v, _) => SetVector(SettledVector(v, lib), true)
    case _ => msg
  }

  function SettledStream(msgs: seq<IndiMessage>, lib: Library): seq<IndiMessage> {
    seq(|msgs|, i requires 0 <= i < |msgs| => SettledMessage(msgs[i], lib))
  }

  /** What a message that changes a cache must be to survive; nothing is asked of the rest. */
  predicate Transmissible(msg: IndiMessage, lib: Library) {
    match msg
    case DefVector(v) =>
      NormalVector(v, lib) && forall i :: 0 <= i < |v.elements| ==> Definable(v.elements[i], lib)
    case SetVector(v, _) => NormalVector(v, lib)
    case DelProperty(device, _, _, _) => device != ""
    case _ => true
  }

  /** Whatever a command, a request, a policy or a log message is read as changes no cache. */
  lemma CarriedHarmless(c: Cache, msg: IndiMessage, lib: Library)
    requires !msg.DefVector? && !msg.SetVector? && !msg.DelProperty?
    ensures AppliedAll(c, Carried(msg, lib)) == c
  {
    hide VectorOf, ElementNodes, VectorAttributes, TimeText, ReadTime, PolicyText, ReadPolicy, Sexagesimal.Strip;
  }

  lemma AppliedOne(c: Cache, msg: IndiMessage)
    ensures AppliedAll(c, [msg]) == Applied(c, msg)
  {
    hide Applied;
    assert [msg][..0] == [];
  }

  lemma DefinitionCarried(v: Vector, lib: Library)
    requires Faithful(lib) && Transmissible(DefVector(v), lib)
    ensures Carried(DefVector(v), lib) == [DefVector(SettledVector(v, lib))]
  {
    hide Faithful, NormalVector, Definable, SettledVector, VectorNode, MessageOf;
    DefinitionRoundTrip(v, lib);
  }

  lemma UpdateCarried(v: Vector, statePresent: bool, lib: Library) returns (read: Vector)
    requires Faithful(lib) && NormalVector(v, lib)
    ensures Carried(SetVector(v, statePresent), lib) == [SetVector(read, true)]
    ensures read.device == v.device && read.name == v.name
    ensures forall cached :: MergeVector(cached, read, true) == MergeVector(cached, SettledVector(v, lib), true)
  {
    hide Faithful, NormalVector, SettledVector, VectorNode, MessageOf, MergeVector;
    read := UpdateRoundTrip(v, lib);
  }

  /** Taking one message off the wire does to any cache what the settled message does. */
  lemma CarriedApplies(c: Cache, msg: IndiMessage, lib: Library)
    requires Faithful(lib) && Transmissible(msg, lib)
    ensures AppliedAll(c, Carried(msg, lib)) == Applied(c, SettledMessage(msg, lib))
  {
    hide Faithful, NormalVector, Definable, AppliedAll, Carried, MergeVector, SettledAll;
    match msg
    case DefVector(v) =>
      DefinitionCarried(v, lib);
      AppliedOne(c, DefVector(SettledVector(v, lib)));
    case SetVector(v, statePresent) =>
      var read := UpdateCarried(v, statePresent, lib);
      AppliedOne(c, SetVector(read, true));
    case DelProperty(_, _, _, _) => DeletionCarried(c, msg, lib);
    case _ => CarriedHarmless(c, msg, lib);
  }

  lemma DeletionCarried(c: Cache, msg: IndiMessage, lib: Library)
    requires Faithful(lib) && msg.DelProperty? && msg.device != ""
    ensures AppliedAll(c, Carried(msg, lib)) == Applied(c, msg)
  {
    hide Faithful, MessageNode, MessageOf, Applied;
    MessageRoundTrip(msg, lib);
    AppliedOne(c, msg);
  }

  lemma AppliedAppend(c: Cache, front: seq<IndiMessage>, last: seq<IndiMessage>)
    requires |last| <= 1
    ensures AppliedAll(c, front + last) == AppliedAll(AppliedAll(c, front), last)
  {
    hide Applied;
    if last == [] {
      assert front + last == front;
    } else {
      assert (front + last)[..|front|] == front && last[..0] == [];
    }
  }

  /** Folding what comes off the wire gives any cache what folding the settled stream
      gives it. */
  lemma {:induction false} StreamSurvives(c: Cache, msgs: seq<IndiMessage>, lib: Library)
    requires Faithful(lib) && forall i :: 0 <= i < |msgs| ==> Transmissible(msgs[i], lib)
    ensures AppliedAll(c, Transmitted(msgs, lib)) == AppliedAll(c, SettledStream(msgs, lib))
  {
    hide Faithful, Transmissible, Carried, SettledMessage, Applied;
    if msgs == [] {
      assert SettledStream(msgs, lib) == [];
    } else {
      var front, last := msgs[..|msgs| - 1], msgs[|msgs| - 1];
      StreamSurvives(c, front, lib);
      assert SettledStream(msgs, lib)[..|msgs| - 1] == SettledStream(front, lib);
      CarriedAtMostOne(last, lib);
      AppliedAppend(c, Transmitted(front, lib), Carried(last, lib));
      CarriedApplies(AppliedAll(c, Transmitted(front, lib)), last, lib);
    }
  }

  lemma CarriedAtMostOne(msg: IndiMessage, lib: Library)
    ensures |Carried(msg, lib)| <= 1
  {
    hide MessageNode, MessageOf;
  }

  // ------------------------------------------------------------------------ //
  // The cache it gives                                                        //
  // ------------------------------------------------------------------------ //

  /** A cache with every number as the wire's precision leaves it. */
  function SettledCache(c: Cache, lib: Library): Cache {
    map d | d in c :: SettledRow(c[d], lib)
  }

  function SettledRow(row: map<string, Vector>, lib: Library): map<string, Vector> {
    map n | n in row :: SettledVector(row[n], lib)
  }

  /** An update's numbers are printed in the formats its definition gave. */
  predicate FormatsAgree(cached: seq<Element>, update: seq<Element>) {
    forall i, j :: 0 <= i < |cached| && 0 <= j < |update| && cached[i].name == update[j].name ==>
      (cached[i].Number? && update[j].Number? ==> cached[i].format == update[j].format)
  }

  /** What a driver's update is: in its definition's formats, its state said or unchanged. */
  predicate Faithfully(c: Cache, msg: IndiMessage) {
    msg.SetVector? && Has(c, msg.vector.device, msg.vector.name) ==>
      var cached := c[msg.vector.device][msg.vector.name];
      && FormatsAgree(cached.elements, msg.vector.elements)
      && (msg.statePresent || cached.state == msg.vector.state)
  }

  predicate AllFaithfully(c: Cache, msgs: seq<IndiMessage>) {
    msgs != [] ==>
      && AllFaithfully(c, msgs[..|msgs| - 1])
      && Faithfully(AppliedAll(c, msgs[..|msgs| - 1]), msgs[|msgs| - 1])
  }

  lemma {:induction false} ByNameSettled(elements: seq<Element>, name: string, lib: Library)
    ensures ByName(SettledAll(elements, lib), name)
            == match ByName(elements, name) case None => None case Some(e) => Some(Settled(e, lib))
  {
    hide Settled;
    var settled := SettledAll(elements, lib);
    if elements != [] {
      var last := |elements| - 1;
      assert settled[..last] == SettledAll(elements[..last], lib);
      SettledKeeps(elements[last], lib);
      ByNameSettled(elements[..last], name, lib);
    }
  }

  lemma SettledKeeps(e: Element, lib: Library)
    ensures Settled(e, lib).name == e.name && Settled(e, lib).Kind() == e.Kind()
    ensures !e.Number? ==> Settled(e, lib) == e
  {
    hide NumberOf;
  }

  lemma MergeSettled(cached: Element, e: Element, lib: Library)
    requires cached.Number? && e.Number? ==> cached.format == e.format
    ensures MergeElement(Settled(cached, lib), Settled(e, lib)) == Settled(MergeElement(cached, e), lib)
  {
    hide NumberOf;
  }

  lemma MergeOneSettled(cached: Element, incoming: seq<Element>, lib: Library)
    requires forall j :: 0 <= j < |incoming| && cached.name == incoming[j].name ==>
               (cached.Number? && incoming[j].Number? ==> cached.format == incoming[j].format)
    ensures MergeOne(Settled(cached, lib), SettledAll(incoming, lib)) == Settled(MergeOne(cached, incoming), lib)
  {
    hide Settled, MergeElement, SettledAll;
    SettledKeeps(cached, lib);
    ByNameSettled(incoming, cached.name, lib);
    match ByName(incoming, cached.name)
    case None =>
    case Some(e) => MergeSettled(cached, e, lib);
  }

  /** Merging settled values settles the merged ones. */
  lemma MergeVectorSettled(cached: Vector, v: Vector, statePresent: bool, lib: Library)
    requires FormatsAgree(cached.elements, v.elements) && (statePresent || cached.state == v.state)
    ensures MergeVector(SettledVector(cached, lib), SettledVector(v, lib), true)
            == SettledVector(MergeVector(cached, v, statePresent), lib)
  {
    hide Settled, MergeOne;
    var merged := MergeElements(cached.elements, v.elements);
    forall i | 0 <= i < |cached.elements|
      ensures MergeElements(SettledAll(cached.elements, lib), SettledAll(v.elements, lib))[i]
              == SettledAll(merged, lib)[i]
    {
      MergeOneSettled(cached.elements[i], v.elements, lib);
    }
    assert MergeElements(SettledAll(cached.elements, lib), SettledAll(v.elements, lib)) == SettledAll(merged, lib);
  }

  lemma PutSettled(c: Cache, device: string, name: string, v: Vector, lib: Library)
    ensures Put(SettledCache(c, lib), device, name, SettledVector(v, lib)) == SettledCache(Put(c, device, name, v), lib)
  {
    hide SettledVector;
    var row: map<string, Vector> := if device in c then c[device] else map[];
    assert SettledRow(row[name := v], lib) == SettledRow(row, lib)[name := SettledVector(v, lib)];
    assert SettledRow(map[], lib) == map[];
  }

  lemma DropSettled(c: Cache, device: string, name: Option<string>, lib: Library)
    ensures Drop(SettledCache(c, lib), device, name) == SettledCache(Drop(c, device, name), lib)
  {
    hide SettledVector;
    if device in c && name.Some? {
      assert SettledRow(c[device] - {name.value}, lib) == SettledRow(c[device], lib) - {name.value};
    }
  }

  lemma AppliedSettled(c: Cache, msg: IndiMessage, lib: Library)
    requires Faithfully(c, msg)
    ensures Applied(SettledCache(c, lib), SettledMessage(msg, lib)) == SettledCache(Applied(c, msg), lib)
  {
    hide Put, Drop, MergeVector, FormatsAgree, SettledAll;
    match msg
    case DefVector(v) => PutSettled(c, v.device, v.name, v, lib);
    case SetVector(v, statePresent) =>
      if Has(c, v.device, v.name) {
        var cached := c[v.device][v.name];
        MergeVectorSettled(cached, v, statePresent, lib);
        PutSettled(c, v.device, v.name, MergeVector(cached, v, statePresent), lib);
      }
    case DelProperty(device, name, _, _) => DropSettled(c, device, name, lib);
    case _ =>
  }

  /** A reader at the other end of the wire holds what a reader at this one does, each
      number as the text it was printed as reads. */
  lemma {:induction false} ReaderHoldsSettled(c: Cache, msgs: seq<IndiMessage>, lib: Library)
    requires Faithful(lib) && AllFaithfully(c, msgs)
    requires forall i :: 0 <= i < |msgs| ==> Transmissible(msgs[i], lib)
    ensures AppliedAll(SettledCache(c, lib), Transmitted(msgs, lib)) == SettledCache(AppliedAll(c, msgs), lib)
  {
    hide Faithful, Transmissible, Transmitted, SettledMessage, Applied, SettledCache, Faithfully;
    StreamSurvives(SettledCache(c, lib), msgs, lib);
    if msgs == [] {
      assert SettledStream(msgs, lib) == [];
    } else {
      var front, last := msgs[..|msgs| - 1], msgs[|msgs| - 1];
      ReaderHoldsSettled(c, front, lib);
      StreamSurvives(SettledCache(c, lib), front, lib);
      assert SettledStream(msgs, lib)[..|msgs| - 1] == SettledStream(front, lib);
      AppliedSettled(AppliedAll(c, front), last, lib);
    }
  }
}
