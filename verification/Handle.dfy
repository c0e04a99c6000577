/** The driver-side handle over a vector (src/indikit/driver/property.py): it mutates the
    vector in place and queues what the client is told. */
module Handle {
  import opened Wire
  import opened Merge
  import opened Store
  import opened Property

  /** The outbound queue of one device's runtime, and what a client that folded the
      stream from the start holds after each message of it. */
  class Outbox {
    var sent: seq<IndiMessage>
    ghost var caches: seq<Cache>

    constructor ()
      ensures Valid() && sent == [] && caches == [map[]]
    {
      sent, caches := [], [map[]];
    }

    ghost predicate Valid()
      reads this
    {
      && |caches| == |sent| + 1
      && forall i :: 0 <= i <= |sent| ==> caches[i] == AppliedAll(map[], sent[..i])
    }

    /** What that client holds now. */
    ghost function Told(): Cache
      reads this
    {
      if caches == [] then map[] else caches[|caches| - 1]
    }

    method Emit(msg: IndiMessage)
      requires Valid()
      modifies this
      ensures Valid() && sent == old(sent) + [msg]
      ensures Told() == Applied(old(Told()), msg) && caches == old(caches) + [Told()]
    {
      caches := caches + [Applied(Told(), msg)];
      sent := sent + [msg];
      forall i | 0 <= i <= |sent| ensures caches[i] == AppliedAll(map[], sent[..i]) {
        if i == |sent| {
          assert sent[..i] == old(sent) + [msg] && sent[..i][..i - 1] == old(sent)[..i - 1];
        } else {
          assert sent[..i] == old(sent)[..i];
        }
      }
    }
  }

  /** The updates a driver makes through a handle. */
  datatype Edit =
    | Setting(values: seq<(string, Value)>, state: Option<IPState>, message: Option<string>, force: bool)
    | SettingAll(value: Value, state: Option<IPState>, message: Option<string>, force: bool)
    | Selecting(name: string, value: Value, others: Option<Value>,
                state: Option<IPState>, message: Option<string>, force: bool)
    | Restoring(values: seq<(string, Value)>)
  {
    predicate Forced() {
      !Restoring? && force
    }
  }

  /** What an edit writes into a vector, and what it raises. */
  function Edited(v: Vector, edit: Edit): (Vector, Option<Fault>) {
    match edit
    case Setting(values, state, message, _) => NotedUnlessFailed(AssignAll(v, values), state, message)
    case SettingAll(value, state, message, _) =>
      NotedUnlessFailed(AssignAll(v, ForAll(v.elements, value)), state, message)
    case Selecting(name, value, others, state, message, _) =>
      var rest := if others.Some? then others else Unselected(v.kind);
      if IndexOf(v.elements, name) == |v.elements| then (v, Some(Missing))
      else if rest.None? then (v, Some(NoUnselected))
      else
        NotedUnlessFailed(AssignAll(v, ForOne(v.elements, name, value, rest.value)),
                          if state.None? && value.LightIs? then Some(value.light) else state, message)
    case Restoring(values) => (Restored(v, values), None)
  }

  /** An edit moves a vector forward along its own definition. */
  lemma EditedKeeps(v: Vector, edit: Edit)
    requires WellFormed(v)
    ensures WellFormed(Edited(v, edit).0) && Precedes(v, Edited(v, edit).0)
  {
    hide WellFormed, Precedes, AssignAll, Restored, ForAll, ForOne, Noted;
    PrecedesReflexive(v);
    match edit
    case Setting(values, state, message, _) => WrittenKeepsNoted(v, values, state, message);
    case SettingAll(value, state, message, _) => WrittenKeepsNoted(v, ForAll(v.elements, value), state, message);
    case Selecting(name, value, others, state, message, _) =>
      var rest := if others.Some? then others else Unselected(v.kind);
      if rest.Some? {
        WrittenKeepsNoted(v, ForOne(v.elements, name, value, rest.value),
                          if state.None? && value.LightIs? then Some(value.light) else state, message);
      }
    case Restoring(values) => RestoredKeeps(v, values);
  }

  lemma WrittenKeepsNoted(v: Vector, values: seq<(string, Value)>, state: Option<IPState>, message: Option<string>)
    requires WellFormed(v)
    ensures var w := NotedUnlessFailed(AssignAll(v, values), state, message).0; WellFormed(w) && Precedes(v, w)
  {
    hide WellFormed, Precedes, AssignAll, Noted;
    AssignAllKeeps(v, values);
    NotedKeeps(v, AssignAll(v, values).0, state, message);
  }

  function NotedUnlessFailed(written: (Vector, Option<Fault>), state: Option<IPState>, message: Option<string>)
    : (Vector, Option<Fault>)
  {
    if written.1.Some? then written else (Noted(written.0, state, message), None)
  }

  /** The state and the message an edit asks for: a light selected without a state takes its
      vector's with it, and a restore asks for neither. */
  function Asked(edit: Edit): (Option<IPState>, Option<string>) {
    match edit
    case Setting(_, state, message, _) => (state, message)
    case SettingAll(_, state, message, _) => (state, message)
    case Selecting(_, value, _, state, message, _) =>
      (if state.Some? then state else if value.LightIs? then Some(value.light) else None, message)
    case Restoring(_) => (None, None)
  }

  /** Beside its elements, an edit that succeeds changes the state and the message it asks for,
      and one that raises neither; the rest of the vector is as it was. */
  lemma EditedWrites(v: Vector, edit: Edit)
    ensures var (w, fault) := Edited(v, edit);
            var (state, message) := Asked(edit);
            && w == v.(elements := w.elements, state := w.state, message := w.message)
            && w.state == (if fault.None? && state.Some? then state.value else v.state)
            && w.message == (if fault.None? && message.Some? then message else v.message)
  {
    hide AssignAll, Restored, ForAll, ForOne;
    match edit
    case Setting(values, _, _, _) => AssignsElements(v, values);
    case SettingAll(value, _, _, _) => AssignsElements(v, ForAll(v.elements, value));
    case Selecting(name, value, others, _, _, _) =>
      var rest := if others.Some? then others else Unselected(v.kind);
      if rest.Some? {
        AssignsElements(v, ForOne(v.elements, name, value, rest.value));
      }
    case Restoring(values) => RestoresElements(v, values);
  }

  lemma {:induction false} AssignsElements(v: Vector, values: seq<(string, Value)>)
    ensures AssignAll(v, values).0 == v.(elements := AssignAll(v, values).0.elements)
    decreases |values|
  {
    hide Written, OnlyOn;
    if values != [] && Assign(v, values[0].0, values[0].1).Assigned? {
      AssignsElements(Assign(v, values[0].0, values[0].1).vector, values[1..]);
    }
  }

  lemma {:induction false} RestoresElements(v: Vector, values: seq<(string, Value)>)
    ensures Restored(v, values) == v.(elements := Restored(v, values).elements)
    decreases |values|
  {
    hide Written, OnlyOn;
    if values != [] {
      RestoresElements(Tolerate(v, values[0].0, values[0].1), values[1..]);
    }
  }

  /** Selecting with nothing said of the rest turns the other switches off and the other
      lights idle; of any other kind it is refused, with nothing written. */
  lemma SelectFills(v: Vector, name: string, value: Value, state: Option<IPState>, message: Option<string>, force: bool)
    requires WellFormed(v) && IndexOf(v.elements, name) < |v.elements|
    requires (v.kind == SwitchKind ==> AsSwitch(value) == Some(On)) && (v.kind == LightKind ==> value.LightIs?)
    ensures var (w, fault) := Edited(v, Selecting(name, value, None, state, message, force));
            if v.kind == SwitchKind || v.kind == LightKind then
              && fault.None? && |w.elements| == |v.elements|
              && forall i :: 0 <= i < |v.elements| ==>
                   w.elements[i] == if v.kind == SwitchKind
                                    then v.elements[i].(switch := if v.elements[i].name == name then On else Off)
                                    else v.elements[i].(light := if v.elements[i].name == name then value.light else Idle)
            else w == v && fault == Some(NoUnselected)
  {
    hide AssignAll, AsSwitch, ForOne;
    assert forall i :: 0 <= i < |v.elements| ==> v.elements[i].Kind() == v.kind;
    if v.kind == SwitchKind {
      SelectSwitch(v, name, value);
    } else if v.kind == LightKind {
      SelectLight(v, name, value.light, Idle);
    }
  }

  /** One value given to every element, of a vector whose switches do not exclude each other, is
      taken by each of them; it raises where one will not take it, and only then. */
  lemma SetAllWrites(v: Vector, value: Value, state: Option<IPState>, message: Option<string>, force: bool, i: nat)
    requires WellFormed(v) && i < |v.elements| && !Exclusive(v)
    ensures var (w, fault) := Edited(v, SettingAll(value, state, message, force));
            && (fault.None? ==> |w.elements| == |v.elements| && Took(v.elements[i], value, w.elements[i]))
            && (fault.None? ==> Written(v.elements[i], value).Some?)
            && (fault.Some? ==> exists j :: 0 <= j < |v.elements| && FaultOf(v, v.elements[j].name, value) == fault)
  {
    hide Took, AssignAll, FaultOf, Exclusive, Written;
    var values := ForAll(v.elements, value);
    RaisesExactly(v, values);
    if AssignAll(v, values).1.None? {
      AssignAllWrites(v, values, i);
      assert LastGiven(values, i, v.elements[i].name);
      assert FaultOf(v, values[i].0, values[i].1).None?;
      TakenIsWritten(v, i, value);
    }
  }

  lemma TakenIsWritten(v: Vector, i: nat, value: Value)
    requires WellFormed(v) && i < |v.elements| && FaultOf(v, v.elements[i].name, value).None?
    ensures Written(v.elements[i], value).Some?
  {
    hide Written;
    IndexOfIs(v.elements, i);
  }

  /** A property's vector, and what a client holds of it, after an edit. */
  function Pushed(policy: Policy, before: Vector, told: Vector, edit: Edit, time: int, render: Render): (Vector, Vector) {
    var (written, fault) := Edited(before, edit);
    if fault.None? && Emits(policy, edit.Forced(), before, written, render)
    then (Stamped(written, time), Stamped(written, time))
    else (written, told)
  }

  /** The elements whose saved values a restore refused. */
  function RefusedBy(before: Vector, edit: Edit): seq<string> {
    if edit.Restoring? then Refusals(before, edit.values) else []
  }

  class BoundProperty {
    const outbox: Outbox
    const policy: Policy
    const persist: bool
    const render: Render
    var vector: Vector
    var retracted: bool

    constructor (v: Vector, outbox: Outbox, policy: Policy, persist: bool, render: Render)
      ensures vector == v && !retracted
      ensures this.outbox == outbox && this.policy == policy && this.persist == persist && this.render == render
    {
      vector, retracted := v, false;
      this.outbox, this.policy, this.persist, this.render := outbox, policy, persist, render;
    }

    /** `Vector.element`: where the first element of a name is, or the number of them. */
    method Find(name: string) returns (at: nat)
      ensures at == IndexOf(vector.elements, name)
    {
      at := 0;
      while at < |vector.elements| && vector.elements[at].name != name
        invariant at <= |vector.elements|
        invariant forall i :: 0 <= i < at ==> vector.elements[i].name != name
      {
        at := at + 1;
      }
      if at < |vector.elements| {
        IndexOfIs(vector.elements, at);
      } else {
        assert forall i :: 0 <= i < |vector.elements| ==> vector.elements[i].name != name;
      }
    }

    /** `_assign`: write one element's value, or fail with nothing written. */
    method Assign(name: string, value: Value) returns (fault: Option<Fault>)
      requires WellFormed(vector)
      modifies this`vector
      ensures match Property.Assign(old(vector), name, value)
              case Failed(f) => fault == Some(f) && vector == old(vector)
              case Assigned(v) => fault == None && vector == v
    {
      var at := Find(name);
      if at == |vector.elements| {
        return Some(Missing);
      }
      var e := vector.elements[at];
      if e.Switch? && AsSwitch(value) == Some(On) && Exclusive(vector) {
        SwitchOnly(name);
        return None;
      }
      match Written(e, value) {
        case None =>
          fault := Some(Refused);
        case Some(written) =>
          vector := vector.(elements := vector.elements[at := written]);
          fault := None;
      }
    }

    /** The loop over the members of an exclusive vector. */
    method SwitchOnly(name: string)
      requires WellFormed(vector) && vector.kind == SwitchKind
      modifies this`vector
      ensures vector == old(vector).(elements := OnlyOn(old(vector).elements, name))
    {
      var i := 0;
      while i < |vector.elements|
        invariant 0 <= i <= |vector.elements| == |old(vector).elements|
        invariant vector == old(vector).(elements := vector.elements)
        invariant vector.elements[..i] == OnlyOn(old(vector).elements, name)[..i]
        invariant vector.elements[i..] == old(vector).elements[i..]
      {
        var sw := vector.elements[i];
        assert sw == old(vector).elements[i] && sw.Kind() == SwitchKind;
        vector := vector.(elements := vector.elements[i := sw.(switch := if sw.name == name then On else Off)]);
        i := i + 1;
      }
      assert vector.elements == vector.elements[..i] == OnlyOn(old(vector).elements, name);
    }

    /** The loop of `set` over the values: the first that fails leaves the ones before
        it written. */
    method AssignEach(values: seq<(string, Value)>) returns (fault: Option<Fault>)
      requires WellFormed(vector)
      modifies this`vector
      ensures (vector, fault) == AssignAll(old(vector), values)
      ensures WellFormed(vector) && Precedes(old(vector), vector)
    {
      hide WellFormed, Precedes;
      var i := 0;
      fault := None;
      AssignAllKeeps(vector, values);
      assert values[0..] == values;
      while i < |values| && fault.None?
        invariant 0 <= i <= |values| && WellFormed(vector)
        invariant fault.None? ==> AssignAll(vector, values[i..]) == AssignAll(old(vector), values)
        invariant fault.Some? ==> (vector, fault) == AssignAll(old(vector), values)
        decreases |values| - i, fault.None?
      {
        AssignKeeps(vector, values[i].0, values[i].1);
        assert values[i..][1..] == values[i + 1..];
        fault := Assign(values[i].0, values[i].1);
        if fault.None? {
          i := i + 1;
        }
      }
    }

    /** `_apply_values`: a value whose element is gone is ignored, one that will not take
        is dropped and named. A retracted handle takes none. */
    method ApplyValues(values: seq<(string, Value)>) returns (rejected: seq<string>, fault: Option<Fault>)
      requires WellFormed(vector)
      modifies this`vector
      ensures WellFormed(vector) && Precedes(old(vector), vector)
      ensures if retracted then fault == Some(Retracted) && vector == old(vector) && rejected == []
              else fault == None && vector == Restored(old(vector), values) && rejected == Refusals(old(vector), values)
    {
      hide WellFormed, Precedes, Property.Assign;
      rejected, fault := [], None;
      RestoredKeeps(vector, values);
      PrecedesReflexive(vector);
      if retracted {
        fault := Some(Retracted);
        return;
      }
      assert values[0..] == values;
      var i := 0;
      while i < |values|
        invariant 0 <= i <= |values| && WellFormed(vector) && Precedes(old(vector), vector)
        invariant Restored(vector, values[i..]) == Restored(old(vector), values)
        invariant rejected == Refusals(old(vector), values[..i])
      {
        AssignKeeps(vector, values[i].0, values[i].1);
        FaultStays(old(vector), vector, values[i].0, values[i].1);
        PrecedesReflexive(vector);
        PrecedesTransitive(old(vector), vector, Tolerate(vector, values[i].0, values[i].1));
        assert values[i..][1..] == values[i + 1..];
        assert values[..i + 1][..i] == values[..i];
        var refusal := Assign(values[i].0, values[i].1);
        if refusal == Some(Refused) {
          rejected := rejected + [values[i].0];
        }
        i := i + 1;
      }
      assert values[..i] == values;
    }

    /** `_publish`, with which every update ends. */
    method Publish(ghost before: Vector, snapshot: Snapshot, force: bool, time: int)
      requires outbox.Valid() && snapshot == SnapshotOf(before, render)
      modifies this`vector, outbox
      ensures outbox.Valid()
      ensures Published(before, old(vector), vector, force, time)
      ensures outbox.sent == old(outbox.sent)
              + if Emits(policy, force, before, old(vector), render) then [SetVector(vector, true)] else []
      ensures Emits(policy, force, before, old(vector), render) ==>
                && outbox.Told() == Applied(old(outbox.Told()), SetVector(vector, true))
                && outbox.caches == old(outbox.caches) + [outbox.Told()]
      ensures !Emits(policy, force, before, old(vector), render) ==> unchanged(outbox)
      ensures outbox.sent == old(outbox.sent) <==> !force && policy == OnChange && LooksAlike(before, old(vector), render)
    {
      hide SnapshotOf, LooksAlike;
      EmitsExactly(policy, force, before, vector, render);
      if !force && policy == OnChange && SnapshotOf(vector, render) == snapshot {
        return;
      }
      vector := Stamped(vector, time);
      outbox.Emit(SetVector(vector, true));
    }

    /** What publishing makes of the written vector: stamped if it is sent at all. */
    predicate Published(before: Vector, written: Vector, result: Vector, force: bool, time: int) {
      result == if Emits(policy, force, before, written, render) then Stamped(written, time) else written
    }

    /** Either the `set` of the vector as it is now was sent, or nothing was. */
    ghost predicate Sends(sent: seq<IndiMessage>, caches: seq<Cache>, emits: bool)
      reads this`vector, outbox
    {
      && |caches| > 0
      && outbox.sent == sent + (if emits then [SetVector(vector, true)] else [])
      && outbox.caches == caches + (if emits then [Applied(caches[|caches| - 1], SetVector(vector, true))] else [])
    }

    /** `set`: write the values, the state and the message, and tell the client. A value
        that fails raises midway: what was written before it stays and nothing is sent. */
    method Set(values: seq<(string, Value)>, state: Option<IPState>, message: Option<string>,
               time: int, force: bool) returns (fault: Option<Fault>)
      requires outbox.Valid() && WellFormed(vector)
      modifies this`vector, outbox
      ensures Performed(old(vector), old(outbox.sent), old(outbox.caches), Setting(values, state, message, force),
                        time, fault)
    {
      PrecedesReflexive(vector);
      if retracted {
        return Some(Retracted);
      }
      ghost var before := vector;
      var snapshot := SnapshotOf(vector, render);
      fault := AssignEach(values);
      if fault.None? {
        NotedKeeps(before, vector, state, message);
        vector := Noted(vector, state, message);
        StampedShows(before, vector, time, policy, render);
        Publish(before, snapshot, force, time);
      }
    }

    /** What an edit did: nothing on a retracted handle; what `Edited` says otherwise,
        and the `set` of it on the wire if it succeeded and the policy lets it. */
    ghost predicate Performed(before: Vector, sent: seq<IndiMessage>, caches: seq<Cache>, edit: Edit, time: int,
                              fault: Option<Fault>)
      reads this`vector, this`retracted, outbox
    {
      var (written, failed) := Edited(before, edit);
      && outbox.Valid() && WellFormed(vector) && Precedes(before, vector)
      && (retracted ==> fault.Some? && vector == before && (!edit.Selecting? ==> fault == Some(Retracted)))
      && (!retracted ==> fault == failed)
      && (!retracted && failed.Some? ==> vector == written)
      && (fault.Some? ==> Sends(sent, caches, false))
      && (fault.None? ==>
            && Published(before, written, vector, edit.Forced(), time)
            && Sends(sent, caches, Emits(policy, edit.Forced(), before, written, render)))
    }

    /** After an edit that succeeded the vector reports the state and the message it asked
        for, or those it had, and its time if it was sent; after one that did not, those it had. */
    lemma Reports(before: Vector, sent: seq<IndiMessage>, caches: seq<Cache>, edit: Edit, time: int, fault: Option<Fault>)
      requires Performed(before, sent, caches, edit, time, fault)
      ensures var (state, message) := Asked(edit);
              && vector.state == (if fault.None? && state.Some? then state.value else before.state)
              && vector.message == (if fault.None? && message.Some? then message else before.message)
              && vector.timestamp == (if |outbox.sent| > |sent| then Some(time) else before.timestamp)
              && vector.timeout == before.timeout && vector.device == before.device && vector.name == before.name
    {
      hide Edited, Asked, Emits, Outbox.Valid, WellFormed, Precedes;
      EditedWrites(before, edit);
    }

    /** `set_all`. */
    method SetAll(value: Value, state: Option<IPState>, message: Option<string>, time: int, force: bool)
      returns (fault: Option<Fault>)
      requires outbox.Valid() && WellFormed(vector)
      modifies this`vector, outbox
      ensures Performed(old(vector), old(outbox.sent), old(outbox.caches), SettingAll(value, state, message, force),
                        time, fault)
    {
      fault := Set(ForAll(vector.elements, value), state, message, time, force);
    }

    /** `select`: give one element a value and reset the rest. */
    method Select(name: string, value: Value, others: Option<Value>, state: Option<IPState>,
                  message: Option<string>, time: int, force: bool) returns (fault: Option<Fault>)
      requires outbox.Valid() && WellFormed(vector)
      modifies this`vector, outbox
      ensures Performed(old(vector), old(outbox.sent), old(outbox.caches),
                        Selecting(name, value, others, state, message, force), time, fault)
    {
      PrecedesReflexive(vector);
      var at := Find(name);
      if at == |vector.elements| {
        return Some(Missing);
      }
      var rest := others;
      if rest.None? {
        rest := Unselected(vector.kind);
        if rest.None? {
          return Some(NoUnselected);
        }
      }
      var follows := state;
      if follows.None? && value.LightIs? {
        follows := Some(value.light);
      }
      fault := Set(ForOne(vector.elements, name, value, rest.value), follows, message, time, force);
    }

    /** `_restore`: what a saved configuration says of a property already announced. */
    method Restore(values: seq<(string, Value)>, time: int) returns (rejected: seq<string>, fault: Option<Fault>)
      requires outbox.Valid() && WellFormed(vector)
      modifies this`vector, outbox
      ensures Performed(old(vector), old(outbox.sent), old(outbox.caches), Restoring(values), time, fault)
      ensures rejected == (if retracted then [] else Refusals(old(vector), values))
    {
      ghost var before := vector;
      var snapshot := SnapshotOf(vector, render);
      rejected, fault := ApplyValues(values);
      if fault.Some? {
        return;
      }
      StampedShows(before, vector, time, policy, render);
      Publish(before, snapshot, false, time);
    }

    /** Any of the four, with the names of the values a restore refused. */
    method Perform(edit: Edit, time: int) returns (fault: Option<Fault>, rejected: seq<string>)
      requires outbox.Valid() && WellFormed(vector) && !retracted
      modifies this`vector, outbox
      ensures Performed(old(vector), old(outbox.sent), old(outbox.caches), edit, time, fault)
      ensures rejected == RefusedBy(old(vector), edit)
    {
      rejected := [];
      match edit {
        case Setting(values, state, message, force) => fault := Set(values, state, message, time, force);
        case SettingAll(value, state, message, force) => fault := SetAll(value, state, message, time, force);
        case Selecting(name, value, others, state, message, force) =>
          fault := Select(name, value, others, state, message, time, force);
        case Restoring(values) =>
          rejected, fault := Restore(values, time);
      }
    }

    /** `_announce`: the `def` of the vector as it stands. */
    method Announce()
      requires outbox.Valid()
      modifies outbox
      ensures outbox.Valid() && outbox.sent == old(outbox.sent) + [DefVector(vector)]
      ensures outbox.Told() == Applied(old(outbox.Told()), DefVector(vector))
      ensures outbox.caches == old(outbox.caches) + [outbox.Told()]
    {
      outbox.Emit(DefVector(vector));
    }
  }
}
