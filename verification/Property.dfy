/** What a driver's handle does to the vector it owns (src/indikit/driver/property.py):
    assigning element values with their coercions and switch rules, and the snapshot the
    `on_change` policy compares. */
module Property {
  import opened Wire
  import opened Merge
  import Sexagesimal

  /** A Python value a caller hands over, as far as the coercions tell values apart;
      `shown` is its text. */
  datatype Value =
    | Real(number: real, shown: string)
    | Str(text: string)
    | Bool(truth: bool)
    | SwitchIs(switch: ISState)
    | LightIs(light: IPState)
    | Bytes(bytes: Wire.Bytes, shown: string)
    | Other(shown: string)

  /** `coerce_switch`: a state, a truth value or a wire token. */
  function AsSwitch(value: Value): Option<ISState> {
    match value
    case SwitchIs(s) => Some(s)
    case Bool(b) => Some(if b then On else Off)
    case Str(t) =>
      var token := Sexagesimal.Strip(t);
      if token == "On" then Some(On) else if token == "Off" then Some(Off) else None
    case _ => None
  }

  /** `float`, refusing what is not finite. */
  function AsNumber(value: Value): Option<real> {
    match value
    case Real(x, _) => Some(x)
    case Bool(b) => Some(if b then 1.0 else 0.0)
    case Str(t) =>
      (match Sexagesimal.Float(Sexagesimal.Strip(t))
       case Value(x) => Some(x)
       case Refused => None)
    case _ => None
  }

  function AsText(value: Value): string {
    match value
    case Real(_, shown) => shown
    case Str(t) => t
    case Bool(b) => if b then "True" else "False"
    case SwitchIs(s) => SwitchText(s)
    case LightIs(s) => StateText(s)
    case Bytes(_, shown) => shown
    case Other(shown) => shown
  }

  function AsBytes(value: Value): Option<Wire.Bytes> {
    match value
    case Bytes(b, _) => Some(b)
    case Bool(b) => Some(if b then [0] else [])
    case _ => None
  }

  // ------------------------------------------------------------------------ //
  // Assigning                                                                 //
  // ------------------------------------------------------------------------ //

  /** Element names are unique and every element is of the vector's kind. */
  predicate WellFormed(v: Vector) {
    UniqueNames(v.elements) && forall i :: 0 <= i < |v.elements| ==> v.elements[i].Kind() == v.kind
  }

  /** The first element of a name, or the number of elements. */
  function IndexOf(elements: seq<Element>, name: string): (at: nat)
    ensures at <= |elements| && (forall i :: 0 <= i < at ==> elements[i].name != name)
    ensures at < |elements| ==> elements[at].name == name
  {
    if elements == [] || elements[0].name == name then 0 else 1 + IndexOf(elements[1..], name)
  }

  predicate Exclusive(v: Vector) {
    v.kind == SwitchKind && (v.rule == Some(OneOfMany) || v.rule == Some(AtMostOne))
  }

  /** One element with a value written to it, unless the value will not take. */
  function Written(e: Element, value: Value): Option<Element> {
    match e
    case Switch(_, _, _) =>
      (match AsSwitch(value) case Some(s) => Some(e.(switch := s)) case None => None)
    case Blob(_, _, _, _, _) =>
      (match AsBytes(value)
       case Some(b) => Some(e.(data := Some(b), size := if Compressed(e.encoding) then e.size else Some(|b|)))
       case None => None)
    case Text(_, _, _) => Some(e.(text := AsText(value)))
    case Number(_, _, _, _, _, _, _) =>
      (match AsNumber(value) case Some(x) => Some(e.(number := x)) case None => None)
    case Light(_, _, _) => if value.LightIs? then Some(e.(light := value.light)) else None
  }

  /** Turn one switch on and every other one off. */
  function OnlyOn(elements: seq<Element>, name: string): seq<Element> {
    seq(|elements|, i requires 0 <= i < |elements| =>
      if elements[i].Switch? then elements[i].(switch := if elements[i].name == name then On else Off) else elements[i])
  }

  datatype Fault = Missing | Refused | NoUnselected | Retracted | Unpersistable

  datatype Assignment = Failed(fault: Fault) | Assigned(vector: Vector)

  /** `_assign`: a switch turned on under an exclusive rule turns the others off. */
  function Assign(v: Vector, name: string, value: Value): Assignment {
    var at := IndexOf(v.elements, name);
    if at == |v.elements| then Failed(Missing)
    else
      match Written(v.elements[at], value)
      case None => Failed(Refused)
      case Some(e) =>
        if e.Switch? && e.switch == On && Exclusive(v) then Assigned(v.(elements := OnlyOn(v.elements, name)))
        else Assigned(v.(elements := v.elements[at := e]))
  }

  /** Assignments in order until one fails, and what was written by then. */
  function AssignAll(v: Vector, values: seq<(string, Value)>): (Vector, Option<Fault>)
    decreases |values|
  {
    if values == [] then (v, None)
    else
      match Assign(v, values[0].0, values[0].1)
      case Failed(fault) => (v, Some(fault))
      case Assigned(next) => AssignAll(next, values[1..])
  }

  /** The tolerant form: what has no element is ignored, what will not take is dropped. */
  function Tolerate(v: Vector, name: string, value: Value): Vector {
    match Assign(v, name, value)
    case Failed(_) => v
    case Assigned(next) => next
  }

  function Restored(v: Vector, values: seq<(string, Value)>): Vector
    decreases |values|
  {
    if values == [] then v else Restored(Tolerate(v, values[0].0, values[0].1), values[1..])
  }

  lemma WrittenKeeps(e: Element, value: Value)
    ensures Written(e, value).Some? ==>
              ElementPrecedes(e, Written(e, value).value)
              && Written(e, value).value.name == e.name && Written(e, value).value.Kind() == e.Kind()
  {
    hide AsNumber, AsText, AsSwitch, AsBytes;
  }

  lemma OnlyOnKeeps(v: Vector, name: string)
    requires WellFormed(v)
    ensures WellFormed(v.(elements := OnlyOn(v.elements, name))) && Precedes(v, v.(elements := OnlyOn(v.elements, name)))
  {
  }

  lemma ReplaceKeeps(v: Vector, at: nat, e: Element)
    requires WellFormed(v) && at < |v.elements| && ElementPrecedes(v.elements[at], e)
    requires e.name == v.elements[at].name && e.Kind() == v.elements[at].Kind()
    ensures WellFormed(v.(elements := v.elements[at := e])) && Precedes(v, v.(elements := v.elements[at := e]))
  {
  }

  lemma AssignKeeps(v: Vector, name: string, value: Value)
    requires WellFormed(v)
    ensures var r := Assign(v, name, value);
            r.Assigned? ==> WellFormed(r.vector) && Precedes(v, r.vector)
  {
    hide Written, WellFormed, Precedes, OnlyOn;
    var at := IndexOf(v.elements, name);
    if at < |v.elements| {
      WrittenKeeps(v.elements[at], value);
      OnlyOnKeeps(v, name);
      if Written(v.elements[at], value).Some? {
        ReplaceKeeps(v, at, Written(v.elements[at], value).value);
      }
    }
  }

  lemma {:induction false} AssignAllKeeps(v: Vector, values: seq<(string, Value)>)
    requires WellFormed(v)
    ensures var (r, _) := AssignAll(v, values); WellFormed(r) && Precedes(v, r)
    decreases |values|
  {
    if values != [] {
      AssignKeeps(v, values[0].0, values[0].1);
      match Assign(v, values[0].0, values[0].1)
      case Failed(_) =>
      case Assigned(next) =>
        AssignAllKeeps(next, values[1..]);
        PrecedesTransitive(v, next, AssignAll(v, values).0);
    }
  }

  lemma {:induction false} RestoredKeeps(v: Vector, values: seq<(string, Value)>)
    requires WellFormed(v)
    ensures WellFormed(Restored(v, values)) && Precedes(v, Restored(v, values))
    decreases |values|
  {
    if values != [] {
      AssignKeeps(v, values[0].0, values[0].1);
      var next := Tolerate(v, values[0].0, values[0].1);
      RestoredKeeps(next, values[1..]);
      PrecedesTransitive(v, next, Restored(v, values));
    }
  }

  /** Why a vector will not take a value, if it will not. */
  function FaultOf(v: Vector, name: string, value: Value): Option<Fault> {
    match Assign(v, name, value)
    case Failed(fault) => Some(fault)
    case Assigned(_) => None
  }

  lemma {:induction false} IndexOfSame(xs: seq<Element>, ys: seq<Element>, name: string)
    requires |xs| == |ys| && forall i :: 0 <= i < |xs| ==> xs[i].name == ys[i].name
    ensures IndexOf(xs, name) == IndexOf(ys, name)
  {
    if xs != [] && xs[0].name != name {
      IndexOfSame(xs[1..], ys[1..], name);
    }
  }

  lemma TakesAlike(e: Element, later: Element, value: Value)
    requires e.Kind() == later.Kind()
    ensures Written(e, value).None? <==> Written(later, value).None?
  {
    hide AsNumber, AsText, AsSwitch, AsBytes;
  }

  /** What a definition takes does not depend on the values it holds. */
  lemma FaultStays(v: Vector, later: Vector, name: string, value: Value)
    requires WellFormed(v) && WellFormed(later) && Precedes(v, later)
    ensures FaultOf(later, name, value) == FaultOf(v, name, value)
  {
    hide Written;
    assert forall i :: 0 <= i < |v.elements| ==> ElementPrecedes(v.elements[i], later.elements[i]);
    IndexOfSame(v.elements, later.elements, name);
    var at := IndexOf(v.elements, name);
    if at < |v.elements| {
      TakesAlike(v.elements[at], later.elements[at], value);
    }
  }

  lemma AssignAllNext(v: Vector, values: seq<(string, Value)>)
    requires values != [] && Assign(v, values[0].0, values[0].1).Assigned?
    ensures AssignAll(v, values) == AssignAll(Assign(v, values[0].0, values[0].1).vector, values[1..])
  {
    hide Assign;
  }

  /** `fault` is that of the first value refused, if one is. */
  predicate IsFirstFault(v: Vector, values: seq<(string, Value)>, fault: Option<Fault>) {
    match fault
    case None => forall i :: 0 <= i < |values| ==> FaultOf(v, values[i].0, values[i].1).None?
    case Some(fault) => exists i :: 0 <= i < |values| && FaultOf(v, values[i].0, values[i].1) == Some(fault)
                          && forall j :: 0 <= j < i ==> FaultOf(v, values[j].0, values[j].1).None?
  }

  /** The first fault is the rest's where the first value is taken. */
  lemma FirstFaultNext(v: Vector, next: Vector, values: seq<(string, Value)>, fault: Option<Fault>)
    requires values != [] && FaultOf(v, values[0].0, values[0].1).None?
    requires forall i :: 0 <= i < |values| ==>
               FaultOf(next, values[i].0, values[i].1) == FaultOf(v, values[i].0, values[i].1)
    requires IsFirstFault(next, values[1..], fault)
    ensures IsFirstFault(v, values, fault)
  {
    hide FaultOf;
    assert forall i :: 0 < i < |values| ==> values[1..][i - 1] == values[i];
    match fault
    case None =>
    case Some(fault) =>
      var i :| 0 <= i < |values[1..]| && FaultOf(next, values[1..][i].0, values[1..][i].1) == Some(fault)
               && forall j :: 0 <= j < i ==> FaultOf(next, values[1..][j].0, values[1..][j].1).None?;
      assert FaultOf(v, values[i + 1].0, values[i + 1].1) == Some(fault);
  }

  lemma AssignRaises(v: Vector, name: string, value: Value)
    ensures Assign(v, name, value).Assigned? <==> FaultOf(v, name, value).None?
    ensures FaultOf(v, name, value).Some? ==> Assign(v, name, value) == Failed(FaultOf(v, name, value).value)
  {
    hide Written;
  }

  /** An update raises exactly when one of its values names no element or will not take,
      and with the fault of the first such, both judged before anything is written. */
  lemma {:induction false} RaisesExactly(v: Vector, values: seq<(string, Value)>)
    requires WellFormed(v)
    ensures IsFirstFault(v, values, AssignAll(v, values).1)
    decreases |values|, 1
  {
    hide Assign, FaultOf, WellFormed, Precedes;
    if values != [] {
      var (name, value) := values[0];
      AssignRaises(v, name, value);
      if FaultOf(v, name, value).None? {
        RaisesRest(v, values);
      }
    }
  }

  lemma {:induction false} RaisesRest(v: Vector, values: seq<(string, Value)>)
    requires WellFormed(v) && values != [] && FaultOf(v, values[0].0, values[0].1).None?
    ensures IsFirstFault(v, values, AssignAll(v, values).1)
    decreases |values|, 0
  {
    hide Assign, FaultOf, WellFormed, Precedes, AssignAll, IsFirstFault;
    AssignRaises(v, values[0].0, values[0].1);
    AssignAllNext(v, values);
    AssignKeeps(v, values[0].0, values[0].1);
    var next := Assign(v, values[0].0, values[0].1).vector;
    RaisesExactly(next, values[1..]);
    forall i | 0 <= i < |values| ensures FaultOf(next, values[i].0, values[i].1) == FaultOf(v, values[i].0, values[i].1) {
      FaultStays(v, next, values[i].0, values[i].1);
    }
    FirstFaultNext(v, next, values, AssignAll(v, values).1);
  }

  /** The names of the values a vector refuses, in order. */
  function Refusals(v: Vector, values: seq<(string, Value)>): seq<string> {
    if values == [] then []
    else
      var (name, value) := values[|values| - 1];
      Refusals(v, values[..|values| - 1]) + if FaultOf(v, name, value) == Some(Refused) then [name] else []
  }

  /** What is refused is what an element that is there will not take; a name without an element
      is not. */
  lemma {:induction false} RefusedAre(v: Vector, values: seq<(string, Value)>, name: string)
    ensures name in Refusals(v, values) <==>
            exists i :: 0 <= i < |values| && values[i].0 == name
                        && IndexOf(v.elements, name) < |v.elements|
                        && Written(v.elements[IndexOf(v.elements, name)], values[i].1).None?
  {
    hide Written;
    if values != [] {
      var last := |values| - 1;
      RefusedAre(v, values[..last], name);
      assert forall i :: 0 <= i < last ==> values[..last][i] == values[i];
    }
  }

  /** A `set` that raises does so at one value: the ones before it are written, and none
      from it on. */
  lemma {:induction false} FailsAt(v: Vector, values: seq<(string, Value)>) returns (k: nat)
    requires AssignAll(v, values).1.Some?
    ensures k < |values| && AssignAll(v, values[..k]) == (AssignAll(v, values).0, None)
    ensures Assign(AssignAll(v, values).0, values[k].0, values[k].1) == Failed(AssignAll(v, values).1.value)
    decreases |values|
  {
    match Assign(v, values[0].0, values[0].1)
    case Failed(_) =>
      k := 0;
      assert values[..0] == [];
    case Assigned(next) =>
      var rest := FailsAt(next, values[1..]);
      k := rest + 1;
      assert values[..k][1..] == values[1..][..rest];
  }

  /** A failed `set` can leave a vector a client was never told of: here the first of two
      numbers is written before the second is refused. */
  lemma RaisingLeavesTheClientBehind(v: Vector, shown: string)
    requires v.kind == NumberKind && |v.elements| == 2 && v.elements[0].Number? && v.elements[1].Number?
    requires v.elements[0].name == "A" && v.elements[1].name == "B" && v.elements[0].number == 0.0
    ensures var (w, fault) := AssignAll(v, [("A", Real(1.0, shown)), ("B", Other(shown))]);
            fault == Some(Refused) && w == v.(elements := v.elements[0 := v.elements[0].(number := 1.0)]) && w != v
  {
    var values := [("A", Real(1.0, shown)), ("B", Other(shown))];
    var next := v.(elements := v.elements[0 := v.elements[0].(number := 1.0)]);
    assert IndexOf(v.elements, "A") == 0;
    assert Assign(v, "A", Real(1.0, shown)) == Assigned(next);
    assert next.elements[1..][0] == next.elements[1];
    assert IndexOf(next.elements, "B") == 1;
    assert values[1..] == [("B", Other(shown))];
    assert AssignAll(next, values[1..]) == (next, Some(Refused));
  }

  // ------------------------------------------------------------------------ //
  // What is written, and what is left alone                                   //
  // ------------------------------------------------------------------------ //

  /** The element took this value: of a BLOB the bytes and, unless it is declared compressed,
      their length, its format staying as it was. */
  predicate Took(before: Element, value: Value, after: Element) {
    && SameDefinition(before, after)
    && match after
       case Number(_, _, _, _, _, _, x) => AsNumber(value) == Some(x)
       case Text(_, _, text) => text == AsText(value)
       case Switch(_, _, s) => AsSwitch(value) == Some(s)
       case Light(_, _, s) => value == LightIs(s)
       case Blob(_, _, encoding, size, data) =>
         && data.Some? && AsBytes(value) == data && before.Blob? && encoding == before.encoding
         && size == if Compressed(encoding) then before.size else Some(|data.value|)
  }

  /** What the coercions make of each kind of value. */
  lemma Coercions(x: real, shown: string, s: ISState, b: Wire.Bytes)
    ensures AsNumber(Real(x, shown)) == Some(x) && AsNumber(Bool(true)) == Some(1.0) && AsNumber(Bool(false)) == Some(0.0)
    ensures AsText(Real(x, shown)) == shown && AsText(Str(shown)) == shown
    ensures AsText(Bool(true)) == "True" && AsText(Bool(false)) == "False"
    ensures AsSwitch(SwitchIs(s)) == Some(s) && AsSwitch(Bool(true)) == Some(On) && AsSwitch(Bool(false)) == Some(Off)
    ensures AsSwitch(Str("On")) == Some(On) && AsSwitch(Str("Off")) == Some(Off)
    ensures AsBytes(Bytes(b, shown)) == Some(b)
    ensures AsNumber(SwitchIs(s)) == None && AsNumber(Bytes(b, shown)) == None
    ensures AsSwitch(Real(x, shown)) == None && AsBytes(Str(shown)) == None
  {
  }

  /** One more element's value, whatever was written to it before. */
  lemma TookAfter(e: Element, later: Element, value: Value, after: Element)
    requires Took(later, value, after) && StillOf(e, later)
    ensures Took(e, value, after)
  {
    hide AsNumber, AsText, AsSwitch, AsBytes, Compressed;
  }

  lemma WrittenTook(e: Element, value: Value)
    ensures Written(e, value).Some? ==> Took(e, value, Written(e, value).value)
  {
    hide AsNumber, AsText, AsSwitch, AsBytes;
  }

  /** A value turned on under an exclusive rule leaves every other switch off; any other value
      changes its own element alone. */
  lemma AssignWrites(v: Vector, at: nat, value: Value)
    requires WellFormed(v) && at < |v.elements| && Assign(v, v.elements[at].name, value).Assigned?
    ensures var w := Assign(v, v.elements[at].name, value).vector;
            && w == v.(elements := w.elements) && |w.elements| == |v.elements|
            && Took(v.elements[at], value, w.elements[at])
            && forall i :: 0 <= i < |v.elements| && i != at ==>
                 w.elements[i] == if Exclusive(v) && AsSwitch(value) == Some(On) then v.elements[i].(switch := Off)
                                  else v.elements[i]
  {
    hide AsNumber, AsText, AsSwitch, AsBytes, SameDefinition;
    IndexOfIs(v.elements, at);
    WrittenTook(v.elements[at], value);
    assert Exclusive(v) ==> forall i :: 0 <= i < |v.elements| ==> v.elements[i].Switch?;
    if v.elements[at].Switch? {
      SwitchTook(v.elements[at], value);
    }
  }

  lemma SwitchTook(e: Element, value: Value)
    requires e.Switch?
    ensures Written(e, value).Some? ==> AsSwitch(value).Some? && Written(e, value).value == e.(switch := AsSwitch(value).value)
  {
  }

  /** The last value given under a name. */
  predicate LastGiven(values: seq<(string, Value)>, at: int, name: string) {
    && 0 <= at < |values| && values[at].0 == name
    && forall i :: at < i < |values| ==> values[i].0 != name
  }

  /** After an update that did not raise, of a vector whose switches do not exclude each other:
      an element no value was given for is as it was, and one that was given values took the
      last of them. */
  lemma {:induction false} AssignAllWrites(v: Vector, values: seq<(string, Value)>, i: nat)
    requires WellFormed(v) && !Exclusive(v) && i < |v.elements| && AssignAll(v, values).1.None?
    ensures var w := AssignAll(v, values).0;
            && |w.elements| == |v.elements|
            && ((forall j :: 0 <= j < |values| ==> values[j].0 != v.elements[i].name) ==> w.elements[i] == v.elements[i])
            && forall j :: LastGiven(values, j, v.elements[i].name) ==> Took(v.elements[i], values[j].1, w.elements[i])
    decreases |values|
  {
    hide Took, Assign, WellFormed;
    if values != [] {
      var (name, value) := values[0];
      AssignAllNext(v, values);
      var next := OneWritten(v, name, value, i);
      AssignAllWrites(next, values[1..], i);
      var w := AssignAll(v, values).0;
      assert forall j :: 0 < j < |values| ==> values[1..][j - 1] == values[j];
      forall j | LastGiven(values, j, v.elements[i].name) ensures Took(v.elements[i], values[j].1, w.elements[i]) {
        if j > 0 {
          assert LastGiven(values[1..], j - 1, v.elements[i].name);
          TookAfter(v.elements[i], next.elements[i], values[j].1, w.elements[i]);
        }
      }
    }
  }

  /** What one assignment leaves of an element: the value it took, or all of it. */
  lemma OneWritten(v: Vector, name: string, value: Value, i: nat) returns (next: Vector)
    requires WellFormed(v) && !Exclusive(v) && i < |v.elements| && Assign(v, name, value).Assigned?
    ensures Assign(v, name, value) == Assigned(next) && WellFormed(next) && !Exclusive(next)
    ensures |next.elements| == |v.elements| && StillOf(v.elements[i], next.elements[i])
    ensures if v.elements[i].name == name then Took(v.elements[i], value, next.elements[i])
            else next.elements[i] == v.elements[i]
  {
    hide Written, AsSwitch, AsNumber, AsText, AsBytes, Precedes;
    next := Assign(v, name, value).vector;
    AssignKeeps(v, name, value);
    var at := IndexOf(v.elements, name);
    AssignWrites(v, at, value);
  }

  /** Another state of one element: the same definition and, of a BLOB, the same format and,
      if it is declared compressed, the same length. */
  predicate StillOf(e: Element, later: Element) {
    SameDefinition(e, later) && (e.Blob? ==> later.encoding == e.encoding && (Compressed(e.encoding) ==> later.size == e.size))
  }

  // ------------------------------------------------------------------------ //
  // Exclusive switches                                                        //
  // ------------------------------------------------------------------------ //

  /** No two switches are on. */
  predicate AtMostOneOn(elements: seq<Element>) {
    forall i, j :: 0 <= i < j < |elements| && elements[i].Switch? && elements[j].Switch?
                   ==> elements[i].switch == Off || elements[j].switch == Off
  }

  /** An exclusive vector that has at most one switch on still does after any call. */
  lemma AssignStaysExclusive(v: Vector, name: string, value: Value)
    requires WellFormed(v) && Exclusive(v) && AtMostOneOn(v.elements)
    ensures var r := Assign(v, name, value); r.Assigned? ==> AtMostOneOn(r.vector.elements)
  {
  }

  lemma {:induction false} AssignAllStaysExclusive(v: Vector, values: seq<(string, Value)>)
    requires WellFormed(v) && Exclusive(v) && AtMostOneOn(v.elements)
    ensures AtMostOneOn(AssignAll(v, values).0.elements)
    decreases |values|
  {
    if values != [] {
      AssignKeeps(v, values[0].0, values[0].1);
      AssignStaysExclusive(v, values[0].0, values[0].1);
      match Assign(v, values[0].0, values[0].1)
      case Failed(_) =>
      case Assigned(next) => AssignAllStaysExclusive(next, values[1..]);
    }
  }

  lemma {:induction false} RestoredStaysExclusive(v: Vector, values: seq<(string, Value)>)
    requires WellFormed(v) && Exclusive(v) && AtMostOneOn(v.elements)
    ensures AtMostOneOn(Restored(v, values).elements)
    decreases |values|
  {
    if values != [] {
      AssignKeeps(v, values[0].0, values[0].1);
      AssignStaysExclusive(v, values[0].0, values[0].1);
      RestoredStaysExclusive(Tolerate(v, values[0].0, values[0].1), values[1..]);
    }
  }

  // ------------------------------------------------------------------------ //
  // What a client can see                                                     //
  // ------------------------------------------------------------------------ //

  /** A number as the format renders it; every other value as it is. */
  datatype Shown =
    | ShownNumber(digits: string)
    | ShownText(text: string)
    | ShownSwitch(switch: ISState)
    | ShownLight(light: IPState)
    | ShownBlob(data: Option<Wire.Bytes>)

  type Render = (real, string) -> string

  function ShownAs(e: Element, render: Render): Shown {
    match e
    case Number(_, _, format, _, _, _, x) => ShownNumber(render(x, format))
    case Text(_, _, t) => ShownText(t)
    case Switch(_, _, s) => ShownSwitch(s)
    case Light(_, _, s) => ShownLight(s)
    case Blob(_, _, _, _, data) => ShownBlob(data)
  }

  datatype Snapshot = Snapshot(values: seq<(string, Shown)>, state: IPState, message: Option<string>)

  /** What two states of a vector are compared by: a client would see no other difference. */
  function SnapshotOf(v: Vector, render: Render): Snapshot {
    Snapshot(seq(|v.elements|, i requires 0 <= i < |v.elements| => (v.elements[i].name, ShownAs(v.elements[i], render))),
             v.state, v.message)
  }

  // ------------------------------------------------------------------------ //
  // Saved values                                                              //
  // ------------------------------------------------------------------------ //

  /** What a saved configuration keeps of an element; nothing of lights and BLOBs. `show`
      gives the text of a number. */
  function SavedValue(e: Element, show: real -> string): Option<Value> {
    match e
    case Number(_, _, _, _, _, _, x) => Some(Real(x, show(x)))
    case Text(_, _, t) => Some(Str(t))
    case Switch(_, _, s) => Some(Str(SwitchText(s)))
    case _ => None
  }

  function ValuesOf(elements: seq<Element>, show: real -> string): seq<(string, Value)> {
    if elements == [] then []
    else
      match SavedValue(elements[0], show)
      case Some(value) => [(elements[0].name, value)] + ValuesOf(elements[1..], show)
      case None => ValuesOf(elements[1..], show)
  }

  /** Values are collected element by element. */
  lemma {:induction false} ValuesOfSplit(front: seq<Element>, e: Element, show: real -> string)
    ensures ValuesOf(front + [e], show) == ValuesOf(front, show) +
      match SavedValue(e, show) { case Some(value) => [(e.name, value)] case None => [] }
  {
    hide SavedValue;
    if front == [] {
      assert front + [e] == [e];
    } else {
      assert (front + [e])[1..] == front[1..] + [e];
      ValuesOfSplit(front[1..], e, show);
    }
  }

  /** The loop of `values_of` (src/indikit/driver/config.py:131-143). */
  method CollectValues(elements: seq<Element>, show: real -> string) returns (values: seq<(string, Value)>)
    ensures values == ValuesOf(elements, show)
  {
    hide SavedValue;
    values := [];
    var i := 0;
    while i < |elements|
      invariant 0 <= i <= |elements|
      invariant values == ValuesOf(elements[..i], show)
    {
      assert elements[..i + 1] == elements[..i] + [elements[i]];
      ValuesOfSplit(elements[..i], elements[i], show);
      match SavedValue(elements[i], show) {
        case Some(value) => values := values + [(elements[i].name, value)];
        case None =>
      }
      i := i + 1;
    }
    assert elements[..i] == elements;
  }

  predicate Persistable(kind: Kind) {
    kind == NumberKind || kind == TextKind || kind == SwitchKind
  }

  /** Two vectors of one definition: the same elements but for their values. */
  predicate SameElements(v: Vector, w: Vector) {
    && v.kind == w.kind && v.rule == w.rule && |v.elements| == |w.elements|
    && forall i :: 0 <= i < |v.elements| ==> ElementPrecedes(v.elements[i], w.elements[i])
  }

  lemma {:induction false} IndexOfIs(elements: seq<Element>, at: nat)
    requires at < |elements| && forall i :: 0 <= i < at ==> elements[i].name != elements[at].name
    ensures IndexOf(elements, elements[at].name) == at
  {
    if at > 0 {
      IndexOfIs(elements[1..], at - 1);
    }
  }

  lemma TokensRead()
    ensures AsSwitch(Str(SwitchText(On))) == Some(On) && AsSwitch(Str(SwitchText(Off))) == Some(Off)
  {
  }

  /** Restoring one saved value brings that element back, and no other one in a vector
      that is not exclusive; turning an exclusive switch on turns the others off. */
  lemma RestoreOne(u: Vector, w: Vector, k: nat, show: real -> string)
    requires WellFormed(u) && WellFormed(w) && SameElements(u, w) && Persistable(u.kind) && k < |w.elements|
    ensures SavedValue(w.elements[k], show).Some?
    ensures var next := Tolerate(u, w.elements[k].name, SavedValue(w.elements[k], show).value);
            && WellFormed(next) && SameElements(next, w) && next.elements[k] == w.elements[k]
            && next.elements == if Exclusive(u) && w.elements[k].switch == On then OnlyOn(u.elements, w.elements[k].name)
                                else u.elements[k := w.elements[k]]
  {
    TokensRead();
    hide Sexagesimal.Float, Sexagesimal.Strip, AsSwitch;
    assert ElementPrecedes(u.elements[k], w.elements[k]);
    IndexOfIs(u.elements, k);
    AssignKeeps(u, w.elements[k].name, SavedValue(w.elements[k], show).value);
  }

  lemma ValuesOfFrom(elements: seq<Element>, k: nat, show: real -> string)
    requires k < |elements| && SavedValue(elements[k], show).Some?
    ensures ValuesOf(elements[k..], show)
            == [(elements[k].name, SavedValue(elements[k], show).value)] + ValuesOf(elements[k + 1..], show)
  {
    assert elements[k..][1..] == elements[k + 1..];
  }

  lemma RestoredFirst(u: Vector, name: string, value: Value, rest: seq<(string, Value)>)
    ensures Restored(u, [(name, value)] + rest) == Restored(Tolerate(u, name, value), rest)
  {
    assert ([(name, value)] + rest)[1..] == rest;
  }

  lemma {:induction false} RestoreFrom(u: Vector, w: Vector, k: nat, show: real -> string)
    requires WellFormed(u) && WellFormed(w) && SameElements(u, w) && Persistable(u.kind) && k <= |w.elements|
    requires Exclusive(u) ==> AtMostOneOn(w.elements)
    requires forall i :: 0 <= i < k ==> u.elements[i] == w.elements[i]
    ensures Restored(u, ValuesOf(w.elements[k..], show)).elements == w.elements
    decreases |w.elements| - k
  {
    if k < |w.elements| {
      RestoreOne(u, w, k, show);
      var name, value := w.elements[k].name, SavedValue(w.elements[k], show).value;
      var next := Tolerate(u, name, value);
      forall i | 0 <= i <= k ensures next.elements[i] == w.elements[i] {
        assert ElementPrecedes(u.elements[i], w.elements[i]);
      }
      ValuesOfFrom(w.elements, k, show);
      RestoredFirst(u, name, value, ValuesOf(w.elements[k + 1..], show));
      RestoreFrom(next, w, k + 1, show);
    } else {
      assert w.elements[k..] == [];
    }
  }

  lemma OnlyOnOne(elements: seq<Element>, name: string)
    requires UniqueNames(elements)
    ensures AtMostOneOn(OnlyOn(elements, name))
  {
  }

  lemma KindsAre(w: Vector)
    requires WellFormed(w)
    ensures forall i :: 0 <= i < |w.elements| ==> w.elements[i].Kind() == w.kind
  {
  }

  lemma NamesUnique(u: Vector)
    requires WellFormed(u)
    ensures UniqueNames(u.elements)
  {
  }

  /** Restoring an exclusive vector from values one of which is on leaves one on. */
  lemma {:induction false} RestoreOnlyOne(u: Vector, w: Vector, k: nat, show: real -> string)
    requires WellFormed(u) && WellFormed(w) && SameElements(u, w) && Exclusive(u) && k <= |w.elements|
    requires AtMostOneOn(u.elements) || exists i :: k <= i < |w.elements| && w.elements[i].switch == On
    ensures AtMostOneOn(Restored(u, ValuesOf(w.elements[k..], show)).elements)
    decreases |w.elements| - k
  {
    if k < |w.elements| {
      KindsAre(w);
      hide Restored, ValuesOf, Tolerate, SavedValue, AtMostOneOn, WellFormed, OnlyOn;
      NamesUnique(u);
      RestoreOne(u, w, k, show);
      var name, value := w.elements[k].name, SavedValue(w.elements[k], show).value;
      if w.elements[k].switch == On {
        OnlyOnOne(u.elements, name);
      }
      ValuesOfFrom(w.elements, k, show);
      RestoredFirst(u, name, value, ValuesOf(w.elements[k + 1..], show));
      RestoreOnlyOne(Tolerate(u, name, value), w, k + 1, show);
    } else {
      assert w.elements[k..] == [];
    }
  }

  /** Saved values restore the elements they were read from, whatever the vector held,
      exactly when an exclusive vector was not saved with two switches on. */
  lemma SaveThenRestore(v: Vector, w: Vector, show: real -> string)
    requires WellFormed(v) && WellFormed(w) && SameElements(v, w) && Persistable(v.kind)
    ensures Restored(v, ValuesOf(w.elements, show)).elements == w.elements
            <==> (Exclusive(v) ==> AtMostOneOn(w.elements))
  {
    assert w.elements[0..] == w.elements;
    if Exclusive(v) && !AtMostOneOn(w.elements) {
      var i, j :| 0 <= i < j < |w.elements| && w.elements[i].switch == On && w.elements[j].switch == On;
      RestoreOnlyOne(v, w, 0, show);
    } else {
      RestoreFrom(v, w, 0, show);
    }
  }

  lemma {:induction false} RestoredKeepsDefinition(v: Vector, w: Vector, values: seq<(string, Value)>)
    requires WellFormed(v) && SameElements(v, w)
    ensures WellFormed(Restored(v, values)) && SameElements(Restored(v, values), w)
    decreases |values|
  {
    if values != [] {
      AssignKeeps(v, values[0].0, values[0].1);
      var next := Tolerate(v, values[0].0, values[0].1);
      forall i | 0 <= i < |v.elements| ensures ElementPrecedes(next.elements[i], w.elements[i]) {
        assert ElementPrecedes(v.elements[i], next.elements[i]) && ElementPrecedes(v.elements[i], w.elements[i]);
      }
      RestoredKeepsDefinition(next, w, values[1..]);
    }
  }

  lemma OnlyOnAlike(xs: seq<Element>, ys: seq<Element>, zs: seq<Element>, name: string)
    requires |xs| == |ys| == |zs|
    requires forall i :: 0 <= i < |zs| ==>
               zs[i].Switch? && ElementPrecedes(xs[i], zs[i]) && ElementPrecedes(ys[i], zs[i])
    ensures OnlyOn(xs, name) == OnlyOn(ys, name)
  {
    forall i | 0 <= i < |zs| ensures OnlyOn(xs, name)[i] == OnlyOn(ys, name)[i] {
      assert zs[i].Switch? && ElementPrecedes(xs[i], zs[i]) && ElementPrecedes(ys[i], zs[i]);
    }
  }

  /** Restoring all of a vector's values forgets what it held. */
  lemma {:induction false} RestoreForgets(u: Vector, other: Vector, w: Vector, k: nat, show: real -> string)
    requires WellFormed(u) && WellFormed(other) && WellFormed(w) && Persistable(w.kind) && k <= |w.elements|
    requires SameElements(u, w) && SameElements(other, w)
    requires forall i :: 0 <= i < k ==> u.elements[i] == other.elements[i]
    ensures Restored(u, ValuesOf(w.elements[k..], show)).elements == Restored(other, ValuesOf(w.elements[k..], show)).elements
    decreases |w.elements| - k
  {
    hide Tolerate, SavedValue, WellFormed, ValuesOf;
    KindsAre(w);
    if k < |w.elements| {
      RestoreOne(u, w, k, show);
      RestoreOne(other, w, k, show);
      var name, value := w.elements[k].name, SavedValue(w.elements[k], show).value;
      var rest := ValuesOf(w.elements[k + 1..], show);
      if Exclusive(u) && w.elements[k].switch == On {
        OnlyOnAlike(u.elements, other.elements, w.elements, name);
      }
      ValuesOfFrom(w.elements, k, show);
      RestoredFirst(u, name, value, rest);
      RestoredFirst(other, name, value, rest);
      RestoreForgets(Tolerate(u, name, value), Tolerate(other, name, value), w, k + 1, show);
    } else {
      assert w.elements[k..] == [];
      assert ValuesOf([], show) == [] by {
        NoValues(show);
      }
      assert u.elements == other.elements;
    }
  }

  lemma NoValues(show: real -> string)
    ensures ValuesOf([], show) == []
  {
  }

  // ------------------------------------------------------------------------ //
  // Selecting                                                                 //
  // ------------------------------------------------------------------------ //

  /** The same value for every element. */
  function ForAll(elements: seq<Element>, value: Value): seq<(string, Value)> {
    seq(|elements|, i requires 0 <= i < |elements| => (elements[i].name, value))
  }

  /** One value for the element named and another for the rest. */
  function ForOne(elements: seq<Element>, name: string, value: Value, others: Value): seq<(string, Value)> {
    seq(|elements|, i requires 0 <= i < |elements| =>
      (elements[i].name, if elements[i].name == name then value else others))
  }

  /** The value `select` has for the rest, by kind. */
  function Unselected(kind: Kind): Option<Value> {
    if kind == LightKind then Some(LightIs(Idle))
    else if kind == SwitchKind then Some(SwitchIs(Off))
    else None
  }

  lemma AssignAllFirst(u: Vector, name: string, value: Value, rest: seq<(string, Value)>)
    requires Assign(u, name, value).Assigned?
    ensures AssignAll(u, [(name, value)] + rest) == AssignAll(Assign(u, name, value).vector, rest)
  {
    assert ([(name, value)] + rest)[1..] == rest;
  }

  lemma AssignAllFrom(u: Vector, values: seq<(string, Value)>, k: nat)
    requires k < |values| && Assign(u, values[k].0, values[k].1).Assigned?
    ensures AssignAll(u, values[k..]) == AssignAll(Assign(u, values[k].0, values[k].1).vector, values[k + 1..])
  {
    hide Assign;
    assert values[k..] == [(values[k].0, values[k].1)] + values[k + 1..];
    AssignAllFirst(u, values[k].0, values[k].1, values[k + 1..]);
  }

  /** Each element is handed the value that makes it what `w` has, in order. */
  predicate Gives(values: seq<(string, Value)>, w: Vector) {
    && |values| == |w.elements|
    && forall i :: 0 <= i < |values| ==>
         && values[i].0 == w.elements[i].name
         && (w.elements[i].Switch? ==> AsSwitch(values[i].1) == Some(w.elements[i].switch))
         && (w.elements[i].Light? ==> values[i].1 == LightIs(w.elements[i].light))
  }

  lemma GiveOne(u: Vector, w: Vector, values: seq<(string, Value)>, k: nat)
    requires WellFormed(u) && WellFormed(w) && SameElements(u, w) && (u.kind == SwitchKind || u.kind == LightKind)
    requires k < |w.elements| && Gives(values, w)
    requires (Exclusive(u) ==> AtMostOneOn(w.elements)) && forall i :: 0 <= i < k ==> u.elements[i] == w.elements[i]
    ensures var r := Assign(u, values[k].0, values[k].1);
            && r.Assigned? && WellFormed(r.vector) && SameElements(r.vector, w)
            && r.vector.kind == u.kind && r.vector.rule == u.rule
            && forall i :: 0 <= i <= k ==> r.vector.elements[i] == w.elements[i]
  {
    assert ElementPrecedes(u.elements[k], w.elements[k]);
    IndexOfIs(u.elements, k);
    AssignKeeps(u, values[k].0, values[k].1);
    var r := Assign(u, values[k].0, values[k].1).vector;
    forall i | 0 <= i < |u.elements| ensures ElementPrecedes(r.elements[i], w.elements[i]) {
      assert ElementPrecedes(u.elements[i], w.elements[i]);
    }
  }

  lemma {:induction false} GiveAll(u: Vector, w: Vector, values: seq<(string, Value)>, k: nat)
    requires WellFormed(u) && WellFormed(w) && SameElements(u, w) && (u.kind == SwitchKind || u.kind == LightKind)
    requires k <= |w.elements| && Gives(values, w)
    requires (Exclusive(u) ==> AtMostOneOn(w.elements)) && forall i :: 0 <= i < k ==> u.elements[i] == w.elements[i]
    ensures AssignAll(u, values[k..]).1.None? && AssignAll(u, values[k..]).0.elements == w.elements
    decreases |w.elements| - k
  {
    if k < |w.elements| {
      hide WellFormed, SameElements, Assign, AssignAll, AtMostOneOn, Gives;
      GiveOne(u, w, values, k);
      AssignAllFrom(u, values, k);
      GiveAll(Assign(u, values[k].0, values[k].1).vector, w, values, k + 1);
    } else {
      assert values[k..] == [];
    }
  }

  /** Selecting a light gives it the value and puts every other light to the other one. */
  lemma SelectLight(v: Vector, name: string, value: IPState, others: IPState)
    requires WellFormed(v) && v.kind == LightKind
    ensures var (r, fault) := AssignAll(v, ForOne(v.elements, name, LightIs(value), LightIs(others)));
            && fault.None? && |r.elements| == |v.elements|
            && forall i :: 0 <= i < |v.elements| ==>
                 r.elements[i] == v.elements[i].(light := if v.elements[i].name == name then value else others)
  {
    assert forall i :: 0 <= i < |v.elements| ==> v.elements[i].Light?;
    hide AsSwitch, AsNumber, AsText, AsBytes, AssignAll, Assign, OnlyOn;
    var w := v.(elements := seq(|v.elements|, i requires 0 <= i < |v.elements| =>
      v.elements[i].(light := if v.elements[i].name == name then value else others)));
    var values := ForOne(v.elements, name, LightIs(value), LightIs(others));
    assert values[0..] == values;
    GiveAll(v, w, values, 0);
  }

  /** Selecting a switch leaves it on and every other one off, whatever the rule. */
  lemma SelectSwitch(v: Vector, name: string, value: Value)
    requires WellFormed(v) && v.kind == SwitchKind && AsSwitch(value) == Some(On)
    ensures AssignAll(v, ForOne(v.elements, name, value, SwitchIs(Off))).1.None?
    ensures AssignAll(v, ForOne(v.elements, name, value, SwitchIs(Off))).0.elements == OnlyOn(v.elements, name)
  {
    assert forall i :: 0 <= i < |v.elements| ==> v.elements[i].Switch?;
    hide AsNumber, AsText, AsBytes, AssignAll, Assign;
    var w := v.(elements := OnlyOn(v.elements, name));
    OnlyOnOne(v.elements, name);
    var values := ForOne(v.elements, name, value, SwitchIs(Off));
    assert values[0..] == values;
    GiveAll(v, w, values, 0);
  }

  // ------------------------------------------------------------------------ //
  // The emit policy                                                           //
  // ------------------------------------------------------------------------ //

  datatype Policy = Always | OnChange

  /** Whether an update reaches the wire. */
  predicate Emits(policy: Policy, force: bool, before: Vector, after: Vector, render: Render) {
    force || policy == Always || SnapshotOf(after, render) != SnapshotOf(before, render)
  }

  /** What a client was told shows what the vector holds: exactly, or as far as the
      policy lets it see. */
  predicate Shows(told: Vector, live: Vector, policy: Policy, render: Render) {
    if policy == Always then told == live else SnapshotOf(told, render) == SnapshotOf(live, render)
  }

  /** A client sees no difference between two states of an element: a number reads the same
      in its format, and any other value is the same. */
  predicate ElementLooksAlike(a: Element, b: Element, render: Render) {
    && a.name == b.name && a.Kind() == b.Kind()
    && match a
       case Number(_, _, format, _, _, _, x) => render(x, format) == render(b.number, b.format)
       case Text(_, _, text) => text == b.text
       case Switch(_, _, switch) => switch == b.switch
       case Light(_, _, light) => light == b.light
       case Blob(_, _, _, _, data) => data == b.data
  }

  /** A client sees no difference between two states of a vector. */
  predicate LooksAlike(a: Vector, b: Vector, render: Render) {
    && a.state == b.state && a.message == b.message && |a.elements| == |b.elements|
    && forall i :: 0 <= i < |a.elements| ==> ElementLooksAlike(a.elements[i], b.elements[i], render)
  }

  /** What is compared is the state, the message and every element as a client reads it. */
  lemma SnapshotsCompare(a: Vector, b: Vector, render: Render)
    ensures SnapshotOf(a, render) == SnapshotOf(b, render) <==> LooksAlike(a, b, render)
  {
    var x, y := SnapshotOf(a, render), SnapshotOf(b, render);
    forall i | 0 <= i < |a.elements| && |a.elements| == |b.elements|
      ensures x.values[i] == y.values[i] <==> ElementLooksAlike(a.elements[i], b.elements[i], render)
    {
    }
    if SnapshotOf(a, render) == SnapshotOf(b, render) {
      assert |x.values| == |y.values|;
      assert forall i :: 0 <= i < |x.values| ==> x.values[i] == y.values[i];
    }
    if LooksAlike(a, b, render) {
      assert forall i :: 0 <= i < |x.values| ==> x.values[i] == y.values[i];
      assert x.values == y.values;
    }
  }

  /** A client in step holds the vector itself or, under `on_change`, one that looks like it. */
  lemma ShowsExactly(told: Vector, live: Vector, policy: Policy, render: Render)
    ensures Shows(told, live, policy, render) <==>
              if policy == OnChange then LooksAlike(told, live, render) else told == live
  {
    hide SnapshotOf, LooksAlike;
    SnapshotsCompare(told, live, render);
  }

  /** An update goes out if it is forced, if its property always sends, or if it changed what
      a client sees; and only then. */
  lemma EmitsExactly(policy: Policy, force: bool, before: Vector, after: Vector, render: Render)
    ensures Emits(policy, force, before, after, render) <==>
              force || policy == Always || !LooksAlike(before, after, render)
  {
    hide SnapshotOf, LooksAlike;
    SnapshotsCompare(before, after, render);
  }

  /** A vector with a state and a message, where they are given. */
  function Noted(v: Vector, state: Option<IPState>, message: Option<string>): Vector {
    v.(state := if state.Some? then state.value else v.state, message := Or(message, v.message))
  }

  /** What a successful update leaves, once its time is known. */
  function Stamped(v: Vector, time: int): Vector {
    v.(timestamp := Some(time))
  }

  lemma NotedKeeps(v: Vector, w: Vector, state: Option<IPState>, message: Option<string>)
    requires Precedes(v, w) && WellFormed(w)
    ensures Precedes(v, Noted(w, state, message)) && WellFormed(Noted(w, state, message))
  {
  }

  lemma StampedShows(told: Vector, live: Vector, time: int, policy: Policy, render: Render)
    requires Precedes(told, live) && WellFormed(live)
    ensures Precedes(told, Stamped(live, time)) && WellFormed(Stamped(live, time))
    ensures MergeVector(told, Stamped(live, time), true) == Stamped(live, time)
  {
    assert forall i :: 0 <= i < |told.elements| ==> ElementPrecedes(told.elements[i], live.elements[i]);
    LaterStateAbsorbs(told, Stamped(live, time));
  }
}
