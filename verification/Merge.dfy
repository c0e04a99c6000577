/** How a `set` is folded onto a cached definition.

    `MergeVector` is the immutable merge of web/packages/client/src/store.ts; the
    in-place merge of src/indikit/client/store.py is proved to compute the same
    vector. The order `Precedes` says when one vector is an earlier state of the
    same definition as another, which is what makes it safe to skip it. */
module Merge {
  import opened Wire

  function MergeElement(current: Element, incoming: Element): Element {
    match (current, incoming)
    case (Blob(_, _, _, _, _), Blob(_, _, _, _, _)) =>
      current.(data := incoming.data, size := incoming.size,
               encoding := Or(incoming.encoding, current.encoding))
    case (Number(_, _, _, _, _, _, _), Number(_, _, _, _, _, _, _)) => current.(number := incoming.number)
    case (Text(_, _, _), Text(_, _, _)) => current.(text := incoming.text)
    case (Switch(_, _, _), Switch(_, _, _)) => current.(switch := incoming.switch)
    case (Light(_, _, _), Light(_, _, _)) => current.(light := incoming.light)
    case _ => current
  }

  /** The entry a name-keyed map built from `elements` holds: the last of that name. */
  function ByName(elements: seq<Element>, name: string): (found: Option<Element>)
    ensures found.None? <==> forall i :: 0 <= i < |elements| ==> elements[i].name != name
    ensures found.Some? ==> found.value in elements && found.value.name == name
  {
    if elements == [] then None
    else
      var last := |elements| - 1;
      if elements[last].name == name then Some(elements[last]) else ByName(elements[..last], name)
  }

  function MergeOne(current: Element, incoming: seq<Element>): Element {
    match ByName(incoming, current.name)
    case Some(element) => MergeElement(current, element)
    case None => current
  }

  function MergeElements(current: seq<Element>, incoming: seq<Element>): seq<Element> {
    seq(|current|, i requires 0 <= i < |current| => MergeOne(current[i], incoming))
  }

  function MergeVector(destination: Vector, source: Vector, statePresent: bool): Vector {
    destination.(
      elements := MergeElements(destination.elements, source.elements),
      state := if statePresent then source.state else destination.state,
      timeout := Or(source.timeout, destination.timeout),
      timestamp := Or(source.timestamp, destination.timestamp),
      message := Or(source.message, destination.message))
  }

  /** `b` is an element of the same definition as `a`, no optional field of which
      went back to being absent. */
  predicate ElementPrecedes(a: Element, b: Element) {
    match (a, b)
    case (Number(_, _, _, _, _, _, _), Number(_, _, _, _, _, _, _)) => b == a.(number := b.number)
    case (Text(_, _, _), Text(_, _, _)) => b == a.(text := b.text)
    case (Switch(_, _, _), Switch(_, _, _)) => b == a.(switch := b.switch)
    case (Light(_, _, _), Light(_, _, _)) => b == a.(light := b.light)
    case (Blob(_, _, _, _, _), Blob(_, _, _, _, _)) =>
      && b == a.(encoding := b.encoding, size := b.size, data := b.data)
      && (a.encoding.Some? ==> b.encoding.Some?)
    case _ => false
  }

  /** `a` and `b` are states of one definition, `a` the earlier one. */
  predicate Precedes(a: Vector, b: Vector) {
    && b == a.(elements := b.elements, state := b.state, timeout := b.timeout,
               timestamp := b.timestamp, message := b.message)
    && (a.timeout.Some? ==> b.timeout.Some?)
    && (a.timestamp.Some? ==> b.timestamp.Some?)
    && (a.message.Some? ==> b.message.Some?)
    && |a.elements| == |b.elements|
    && forall i :: 0 <= i < |a.elements| ==> ElementPrecedes(a.elements[i], b.elements[i])
  }

  lemma PrecedesReflexive(a: Vector)
    ensures Precedes(a, a)
  {
  }

  lemma PrecedesTransitive(a: Vector, b: Vector, c: Vector)
    requires Precedes(a, b) && Precedes(b, c)
    ensures Precedes(a, c)
  {
    forall i | 0 <= i < |a.elements| ensures ElementPrecedes(a.elements[i], c.elements[i]) {
      assert ElementPrecedes(a.elements[i], b.elements[i]) && ElementPrecedes(b.elements[i], c.elements[i]);
    }
  }

  lemma {:induction false} ByNameAt(elements: seq<Element>, i: nat)
    requires UniqueNames(elements) && i < |elements|
    ensures ByName(elements, elements[i].name) == Some(elements[i])
  {
    var last := |elements| - 1;
    if i < last {
      ByNameAt(elements[..last], i);
    }
  }

  /** Lists of elements that agree on their names answer a lookup at the same place. */
  lemma {:induction false} ByNameAligned(xs: seq<Element>, ys: seq<Element>, name: string) returns (at: nat)
    requires |xs| == |ys| && forall i :: 0 <= i < |xs| ==> xs[i].name == ys[i].name
    ensures ByName(xs, name).Some? <==> ByName(ys, name).Some?
    ensures ByName(xs, name).Some? ==>
              at < |xs| && ByName(xs, name) == Some(xs[at]) && ByName(ys, name) == Some(ys[at])
  {
    at := 0;
    if xs != [] {
      var last := |xs| - 1;
      if xs[last].name == name {
        at := last;
      } else {
        at := ByNameAligned(xs[..last], ys[..last], name);
      }
    }
  }

  /** Folding a `set` in moves a vector forward along its own definition. */
  lemma MergeMovesForward(v: Vector, source: Vector, statePresent: bool)
    ensures Precedes(v, MergeVector(v, source, statePresent))
  {
    var merged := MergeVector(v, source, statePresent);
    forall i | 0 <= i < |v.elements| ensures ElementPrecedes(v.elements[i], merged.elements[i]) {
      assert merged.elements[i] == MergeOne(v.elements[i], source.elements);
    }
  }

  /** A full later state absorbs an earlier one: merging it in reproduces it exactly. */
  lemma LaterStateAbsorbs(a: Vector, b: Vector)
    requires Precedes(a, b) && UniqueNames(b.elements)
    ensures MergeVector(a, b, true) == b
  {
    var merged := MergeVector(a, b, true);
    forall i | 0 <= i < |a.elements| ensures merged.elements[i] == b.elements[i] {
      assert ElementPrecedes(a.elements[i], b.elements[i]);
      ByNameAt(b.elements, i);
    }
    assert merged.elements == b.elements;
  }

  /** Whatever is cached, a later state hides an earlier one that was merged first. */
  lemma EarlierStateIsHidden(cached: Vector, a: Vector, b: Vector)
    requires Precedes(a, b)
    ensures MergeVector(MergeVector(cached, a, true), b, true) == MergeVector(cached, b, true)
  {
    var twice := MergeVector(MergeVector(cached, a, true), b, true);
    var once := MergeVector(cached, b, true);
    assert forall i :: 0 <= i < |a.elements| ==> ElementPrecedes(a.elements[i], b.elements[i]);
    forall i | 0 <= i < |cached.elements| ensures twice.elements[i] == once.elements[i] {
      var at := ByNameAligned(a.elements, b.elements, cached.elements[i].name);
    }
    assert twice.elements == once.elements;
  }

  lemma MergeKeepsNames(v: Vector, source: Vector, statePresent: bool)
    requires UniqueNames(v.elements)
    ensures UniqueNames(MergeVector(v, source, statePresent).elements)
  {
    var merged := MergeVector(v, source, statePresent);
    assert forall i :: 0 <= i < |v.elements| ==> merged.elements[i].name == v.elements[i].name;
  }

  // ------------------------------------------------------------------------ //
  // What a `set` changes, and what it leaves alone                            //
  // ------------------------------------------------------------------------ //

  /** Two states of one defined element: all that a `set` has no say in. */
  predicate SameDefinition(a: Element, b: Element) {
    && a.Kind() == b.Kind() && a.name == b.name && a.caption == b.caption
    && (a.Number? ==> a.format == b.format && a.min == b.min && a.max == b.max && a.step == b.step)
  }

  /** The element holds the value that was sent, and of a BLOB the format as well if one was. */
  predicate HoldsValue(before: Element, sent: Element, after: Element)
    requires before.Kind() == sent.Kind() == after.Kind()
  {
    match after
    case Number(_, _, _, _, _, _, number) => number == sent.number
    case Text(_, _, text) => text == sent.text
    case Switch(_, _, switch) => switch == sent.switch
    case Light(_, _, light) => light == sent.light
    case Blob(_, _, encoding, size, data) =>
      && data == sent.data && size == sent.size
      && (sent.encoding.Some? ==> encoding == sent.encoding)
      && (sent.encoding.None? ==> encoding == before.encoding)
  }

  /** The last element of that name. */
  predicate LastNamed(elements: seq<Element>, at: int, name: string) {
    && 0 <= at < |elements| && elements[at].name == name
    && forall i :: at < i < |elements| ==> elements[i].name != name
  }

  /** An element nothing of its name and kind is sent for stays as it was; one that is takes
      the value sent, or the last of several, and keeps its definition. */
  ghost predicate ElementFolded(before: Element, sent: seq<Element>, after: Element) {
    && SameDefinition(before, after)
    && ((forall i :: 0 <= i < |sent| ==> sent[i].name != before.name) ==> after == before)
    && forall i :: LastNamed(sent, i, before.name) ==>
         if sent[i].Kind() == before.Kind() then HoldsValue(before, sent[i], after) else after == before
  }

  /** What a `set` carries is taken, and what it does not carry is left alone. */
  predicate TakesOver<T(==)>(before: Option<T>, sent: Option<T>, after: Option<T>) {
    (sent.Some? ==> after == sent) && (sent.None? ==> after == before)
  }

  /** Folding a `set` in takes what it carries and leaves everything else as it was: the
      definition, the state if it has none, each optional field it lacks, every element it
      does not name, and the format of a BLOB it gives none for. */
  ghost predicate Folds(before: Vector, sent: Vector, statePresent: bool, after: Vector) {
    && after.device == before.device && after.name == before.name
    && after.caption == before.caption && after.group == before.group
    && after.kind == before.kind && after.perm == before.perm && after.rule == before.rule
    && (statePresent ==> after.state == sent.state) && (!statePresent ==> after.state == before.state)
    && TakesOver(before.timeout, sent.timeout, after.timeout)
    && TakesOver(before.timestamp, sent.timestamp, after.timestamp)
    && TakesOver(before.message, sent.message, after.message)
    && |after.elements| == |before.elements|
    && forall i :: 0 <= i < |before.elements| ==>
         ElementFolded(before.elements[i], sent.elements, after.elements[i])
  }

  lemma {:induction false} ByNameIsLast(elements: seq<Element>, name: string) returns (at: nat)
    requires ByName(elements, name).Some?
    ensures LastNamed(elements, at, name) && ByName(elements, name) == Some(elements[at])
  {
    var last := |elements| - 1;
    if elements[last].name == name {
      at := last;
    } else {
      at := ByNameIsLast(elements[..last], name);
    }
  }

  lemma LastNamedOnce(elements: seq<Element>, i: int, j: int, name: string)
    requires LastNamed(elements, i, name) && LastNamed(elements, j, name)
    ensures i == j
  {
  }

  lemma ElementFoldsExactly(before: Element, sent: seq<Element>, after: Element)
    ensures ElementFolded(before, sent, after) <==> after == MergeOne(before, sent)
  {
    if ByName(sent, before.name).Some? {
      var at := ByNameIsLast(sent, before.name);
      forall i | LastNamed(sent, i, before.name) ensures i == at {
        LastNamedOnce(sent, i, at, before.name);
      }
    }
  }

  /** The merge is the one way to take what a `set` carries and leave the rest. */
  lemma MergeFoldsExactly(before: Vector, sent: Vector, statePresent: bool, after: Vector)
    ensures Folds(before, sent, statePresent, after) <==> after == MergeVector(before, sent, statePresent)
  {
    hide ElementFolded, MergeOne;
    var merged := MergeVector(before, sent, statePresent);
    forall i | 0 <= i < |before.elements| && |after.elements| == |before.elements|
      ensures ElementFolded(before.elements[i], sent.elements, after.elements[i])
              <==> after.elements[i] == merged.elements[i]
    {
      ElementFoldsExactly(before.elements[i], sent.elements, after.elements[i]);
    }
    if Folds(before, sent, statePresent, after) {
      assert after.elements == merged.elements;
    }
  }

  /** A `set` that carries nothing changes nothing. */
  lemma MergeOfNothing(before: Vector, sent: Vector)
    requires sent.timeout.None? && sent.timestamp.None? && sent.message.None?
    requires forall i, j :: 0 <= i < |before.elements| && 0 <= j < |sent.elements| ==>
               sent.elements[j].name != before.elements[i].name
    ensures MergeVector(before, sent, false) == before
  {
    MergeFoldsExactly(before, sent, false, before);
  }

  // ------------------------------------------------------------------------ //
  // The in-place merge                                                        //
  // ------------------------------------------------------------------------ //

  /** A cached vector object: what the Python store holds and mutates in place. */
  class LiveVector {
    const device: string
    const name: string
    const caption: Option<string>
    const group: Option<string>
    const kind: Kind
    const perm: Option<IPerm>
    const rule: Option<ISRule>
    var state: IPState
    var timeout: Option<real>
    var timestamp: Option<int>
    var message: Option<string>
    var elements: seq<Element>

    constructor (v: Vector)
      ensures Value() == v
    {
      device, name, caption, group := v.device, v.name, v.caption, v.group;
      kind, perm, rule := v.kind, v.perm, v.rule;
      state, timeout, timestamp, message := v.state, v.timeout, v.timestamp, v.message;
      elements := v.elements;
    }

    function Value(): Vector
      reads this
    {
      Vector(device, name, caption, group, kind, perm, rule, state, timeout, timestamp, message, elements)
    }

    /** Merge one `set` onto this definition (src/indikit/client/store.py:70-109). */
    method Merge(src: Vector, statePresent: bool)
      requires UniqueNames(elements) && UniqueNames(src.elements)
      requires KindsMatch(elements, src.elements)
      modifies this
      ensures Value() == MergeVector(old(Value()), src, statePresent)
      ensures Folds(old(Value()), src, statePresent, Value())
    {
      hide MergeElements, ElementFolded, KindsMatch, UniqueNames;
      ghost var was := Value();
      MergeValues(src.elements);
      if statePresent {
        state := src.state;
      }
      if src.timeout.Some? {
        timeout := src.timeout;
      }
      if src.timestamp.Some? {
        timestamp := src.timestamp;
      }
      if src.message.Some? {
        message := src.message;
      }
      MergeFoldsExactly(was, src, statePresent, Value());
    }

    /** The loop over the incoming elements (src/indikit/client/store.py:90-101). */
    method MergeValues(incoming: seq<Element>)
      requires UniqueNames(elements) && UniqueNames(incoming)
      requires KindsMatch(elements, incoming)
      modifies this`elements
      ensures elements == MergeElements(old(elements), incoming)
    {
      hide MergeElement, MergeOne, ByName;
      ghost var was := elements;
      MergeNothing(was);
      var byName := map i | 0 <= i < |elements| :: elements[i].name := i;
      var n := 0;
      while n < |incoming|
        invariant 0 <= n <= |incoming|
        invariant elements == MergeElements(was, incoming[..n])
      {
        var newElement := incoming[n];
        MergeStep(was, incoming, n);
        if newElement.name in byName {
          var at := byName[newElement.name];
          assert elements[at] == was[at];
          assert was[at].Kind() == newElement.Kind();
          elements := elements[at := Overwrite(elements[at], newElement)];
        }
        assert elements == MergeElements(was, incoming[..n + 1]);
        n := n + 1;
      }
      assert incoming[..n] == incoming;
    }
  }

  /** The assignment made to one cached element (src/indikit/client/store.py:95-101). */
  function Overwrite(cur: Element, incoming: Element): (r: Element)
    requires cur.Kind() == incoming.Kind()
    ensures r == MergeElement(cur, incoming)
  {
    if cur.Blob? && incoming.Blob? then
      var taken := cur.(data := incoming.data, size := incoming.size);
      if incoming.encoding.Some? then taken.(encoding := incoming.encoding) else taken
    else if cur.Number? then cur.(number := incoming.number)
    else if cur.Text? then cur.(text := incoming.text)
    else if cur.Switch? then cur.(switch := incoming.switch)
    else cur.(light := incoming.light)
  }

  lemma MergeNothing(was: seq<Element>)
    ensures MergeElements(was, []) == was
  {
  }

  /** One more incoming element changes the merge at its own name alone. */
  lemma MergeStep(was: seq<Element>, incoming: seq<Element>, n: nat)
    requires n < |incoming| && UniqueNames(incoming)
    ensures forall i :: 0 <= i < |was| ==>
              MergeElements(was, incoming[..n + 1])[i] ==
              if was[i].name == incoming[n].name then MergeElement(was[i], incoming[n])
              else MergeElements(was, incoming[..n])[i]
    ensures forall i :: 0 <= i < |was| && was[i].name == incoming[n].name ==>
              MergeElements(was, incoming[..n])[i] == was[i]
  {
    assert incoming[..n + 1][..n] == incoming[..n];
  }
}
