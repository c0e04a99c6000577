/** That an emission is a value (src/indikit/protocol/models.py:364-387 and
    src/indikit/driver/property.py:517-546): a driver's vector and its elements are
    objects it goes on mutating, and what it queued for its writer shares none of them. */
module Emission {
  import opened Wire

  /** An element object, written in place. */
  class LiveElement {
    var value: Element

    constructor (e: Element)
      ensures value == e
    {
      value := e;
    }
  }

  ghost function Values(elements: seq<LiveElement>): (values: seq<Element>)
    reads elements
    ensures |values| == |elements| && forall i :: 0 <= i < |values| ==> values[i] == elements[i].value
  {
    if elements == [] then [] else [elements[0].value] + Values(elements[1..])
  }

  /** A vector object: its scalar fields, and its list of element objects. */
  class LiveModel {
    var fields: Vector
    var elements: seq<LiveElement>

    constructor (fields: Vector, elements: seq<LiveElement>)
      ensures this.fields == fields && this.elements == elements
    {
      this.fields, this.elements := fields, elements;
    }

    ghost function Elements(): set<object>
      reads this
    {
      set e | e in elements
    }

    ghost function Parts(): set<object>
      reads this
    {
      {this} + Elements()
    }

    /** The vector this object is now. */
    ghost function Value(): Vector
      reads Parts()
    {
      fields.(elements := Values(elements))
    }

    /** `detached`: copy every element and put the copies in a copy of the vector. */
    method Detached() returns (copy: LiveModel)
      ensures fresh(copy.Parts()) && copy.Value() == Value()
    {
      var copies: seq<LiveElement> := [];
      var i := 0;
      while i < |elements|
        invariant 0 <= i <= |elements| && |copies| == i
        invariant fresh(set c | c in copies)
        invariant forall j :: 0 <= j < i ==> copies[j].value == elements[j].value
      {
        var c := new LiveElement(elements[i].value);
        copies := copies + [c];
        i := i + 1;
      }
      copy := new LiveModel(fields, copies);
    }
  }

  /** What a driver does to its live vector, and when it emits it. */
  datatype Step = WriteElement(at: nat, element: Element) | WriteFields(fields: Vector) | Emit

  /** The vectors emitted by a run: the live one as it was at each emission. */
  function Emissions(v: Vector, steps: seq<Step>): seq<Vector>
    decreases |steps|
  {
    if steps == [] then []
    else (if steps[0].Emit? then [v] else []) + Emissions(Stepped(v, steps[0]), steps[1..])
  }

  function Stepped(v: Vector, step: Step): Vector {
    match step
    case WriteElement(at, e) => if at < |v.elements| then v.(elements := v.elements[at := e]) else v
    case WriteFields(fields) => fields.(elements := v.elements)
    case Emit => v
  }

  lemma EmittedNext(told: seq<Vector>, v: Vector, steps: seq<Step>)
    requires steps != [] && steps[0].Emit?
    ensures told + Emissions(v, steps) == (told + [v]) + Emissions(v, steps[1..])
  {
    assert Emissions(v, steps) == [v] + Emissions(v, steps[1..]);
  }

  /** What is queued, with nothing shared between its messages and the live vector. */
  ghost predicate Detaches(live: LiveModel, queued: seq<LiveModel>, told: seq<Vector>)
    reads live, set m, p | m in queued && p in m.Parts() :: p
  {
    && |queued| == |told|
    && forall i :: 0 <= i < |queued| ==> queued[i].Parts() !! live.Parts() && queued[i].Value() == told[i]
  }

  /** One write into the live vector reaches nothing that was queued. */
  method Write(live: LiveModel, step: Step, queued: seq<LiveModel>, ghost told: seq<Vector>)
    requires !step.Emit? && Detaches(live, queued, told)
    requires forall i, j :: 0 <= i < j < |live.elements| ==> live.elements[i] != live.elements[j]
    modifies live.Parts()
    ensures live.elements == old(live.elements) && live.Value() == Stepped(old(live.Value()), step)
    ensures Detaches(live, queued, told)
  {
    match step {
      case WriteElement(at, e) =>
        if at < |live.elements| {
          live.elements[at].value := e;
        }
      case WriteFields(fields) => live.fields := fields;
      case Emit =>
    }
  }

  /** One emission: a copy joins the queue. */
  method Queue(live: LiveModel, queued: seq<LiveModel>, ghost told: seq<Vector>) returns (longer: seq<LiveModel>)
    requires told != [] && told[|told| - 1] == live.Value() && Detaches(live, queued, told[..|told| - 1])
    ensures Detaches(live, longer, told) && live.Value() == old(live.Value())
  {
    var copy := live.Detached();
    longer := queued + [copy];
  }

  /** Any run: every message queued still equals the vector at the moment it was emitted,
      whatever the driver wrote afterwards. */
  method Run(live: LiveModel, steps: seq<Step>) returns (queued: seq<LiveModel>)
    requires forall i, j :: 0 <= i < j < |live.elements| ==> live.elements[i] != live.elements[j]
    modifies live.Parts()
    ensures Detaches(live, queued, Emissions(old(live.Value()), steps))
  {
    queued := [];
    ghost var told: seq<Vector> := [];
    var i := 0;
    assert steps[0..] == steps;
    while i < |steps|
      invariant 0 <= i <= |steps| && live.elements == old(live.elements)
      invariant Detaches(live, queued, told)
      invariant told + Emissions(live.Value(), steps[i..]) == Emissions(old(live.Value()), steps)
    {
      assert steps[i..][1..] == steps[i + 1..];
      if steps[i].Emit? {
        EmittedNext(told, live.Value(), steps[i..]);
        told := told + [live.Value()];
        queued := Queue(live, queued, told);
      } else {
        assert Emissions(live.Value(), steps[i..]) == Emissions(Stepped(live.Value(), steps[i]), steps[i + 1..]);
        Write(live, steps[i], queued, told);
      }
      i := i + 1;
    }
    assert told + [] == told;
  }
}
