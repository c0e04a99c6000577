/** What any run of a driver guarantees, as statements about the events of the run: that
    a client is in step, that the published list is exact, and that saving and loading
    give back the values. */
module RegistryRuns {
  import opened Wire
  import opened Merge
  import opened Property
  import opened Handle
  import opened Driver
  import opened Registry
  import PersistedList

  // ------------------------------------------------------------------------ //
  // What one call changes                                                     //
  // ------------------------------------------------------------------------ //

  /** The call is about this property: by name, through the handle that owns it, or as one a
      loaded document names. */
  predicate Concerns(s: State, call: Call, n: string) {
    match call
    case Defining(v, _, _) => v.name == n
    case Updating(m, _) => m == n
    case Withdrawing(m, _) => m == n
    case WithdrawingHandle(which, _) => OwnedBy(s, which) == Some(n)
    case Saving => false
    case Loading(document, _) => n in document
  }

  /** A call leaves every other property as it was, with what is configured for it unless the
      call saves. */
  lemma CallLeavesOthers(s: State, timed: Timed, n: string, x: Context)
    requires !Concerns(s, timed.call, n)
    ensures SameEntry(s, After(s, timed, x), n) && (!timed.call.Saving? ==> SameSaved(s, After(s, timed, x), n))
  {
    hide SameEntry, SameSaved, AfterDefining, AfterUpdating, AfterForgetting, AfterLoading, AfterSaving;
    match timed.call
    case Defining(v, policy, persist) => DefiningLeavesOthers(s, v, policy, persist, n, x);
    case Updating(m, edit) => UpdatingLeavesOthers(s, m, edit, timed.time, n, x);
    case Withdrawing(m, _) => ForgettingLeavesOthers(s, m, n, x);
    case WithdrawingHandle(which, _) =>
      if OwnedBy(s, which).Some? {
        ForgettingLeavesOthers(s, OwnedBy(s, which).value, n, x);
      } else {
        NothingChanges(s, n);
      }
    case Saving => SavingLeavesAll(s, n, x);
    case Loading(document, _) => LoadingLeavesOthers(s, document, timed.time, n, x);
  }

  predicate SameEntry(s: State, t: State, n: string) {
    (n in s.entries <==> n in t.entries) && (n in s.entries ==> t.entries[n] == s.entries[n])
  }

  predicate SameSaved(s: State, t: State, n: string) {
    (n in s.config <==> n in t.config) && (n in s.config ==> t.config[n] == s.config[n])
  }

  lemma NothingChanges(s: State, n: string)
    ensures SameEntry(s, s, n) && SameSaved(s, s, n)
  {
  }

  lemma DefiningLeavesOthers(s: State, v: Vector, policy: Policy, persist: bool, n: string, x: Context)
    requires v.name != n
    ensures SameEntry(s, AfterDefining(s, v, policy, persist, x), n) && SameSaved(s, AfterDefining(s, v, policy, persist, x), n)
  {
    hide Restored, PersistedList.NoSpace, Listed;
  }

  lemma UpdatingLeavesOthers(s: State, m: string, edit: Edit, time: int, n: string, x: Context)
    requires m != n
    ensures SameEntry(s, AfterUpdating(s, m, edit, time, x), n) && SameSaved(s, AfterUpdating(s, m, edit, time, x), n)
  {
    hide AfterEdit;
  }

  lemma ForgettingLeavesOthers(s: State, m: string, n: string, x: Context)
    requires m != n
    ensures SameEntry(s, AfterForgetting(s, m, x), n) && SameSaved(s, AfterForgetting(s, m, x), n)
  {
    hide Listed, Truthful, ValuesIn, CONFIG_PERSISTED;
  }

  lemma SavingLeavesAll(s: State, n: string, x: Context)
    ensures SameEntry(s, AfterSaving(s, x), n)
  {
    hide Savings;
  }

  lemma LoadingLeavesOthers(s: State, document: map<string, Saved>, time: int, n: string, x: Context)
    requires n !in document
    ensures SameEntry(s, AfterLoading(s, document, time, x), n) && SameSaved(s, AfterLoading(s, document, time, x), n)
  {
    hide AfterEdit;
  }

  /** A definition registers its property under a handle of its own, as it was given but for
      values configured for it if it is persisted; a client is told just what is held. Only
      a persisted one of a kind or a name that cannot be saved is refused, with no effect. */
  lemma DefiningRegisters(s: State, v: Vector, policy: Policy, persist: bool, x: Context)
    ensures var next := AfterDefining(s, v, policy, persist, x);
            if persist && (v.kind == LightKind || v.kind == BlobKind || !PersistedList.NoSpace(v.name)) then next == s
            else
              && v.name in next.entries && next.made == s.made + [v.name]
              && var e := next.entries[v.name];
                 && e.which == |s.made| && e.policy == policy && e.persist == persist
                 && e.defined == v.(device := x.device) && e.told == e.vector
                 && (!persist || v.name !in s.config ==> e.vector == e.defined)
                 && (persist && v.name in s.config ==> e.vector == Restored(e.defined, s.config[v.name]))
                 && next.order == if v.name in s.entries then s.order else s.order + [v.name]
  {
    hide Restored, PersistedList.NoSpace, Listed;
  }

  /** A setup that raised is run again by the next `getProperties`, on what the failed one left;
      one that did not is not, whatever is asked later. */
  lemma SetupRetried(s: State, setup: seq<Timed>, again: seq<Timed>, x: Context)
    requires !s.setupDone
    ensures var failed := AfterAsking(s, setup, true, x);
            && !failed.setupDone
            && AfterAsking(failed, again, false, x) == AfterPublishing(AfterAll(failed.(setupDone := true), again, x))
    ensures var settled := AfterAsking(s, setup, false, x);
            settled.setupDone && forall fails :: AfterAsking(settled, again, fails, x) == AfterAnnouncing(settled)
  {
    hide AfterFailing, AfterPublishing, AfterAnnouncing;
    FailingUnsettles(s.(setupDone := true), AfterAll(s.(setupDone := true), setup, x), x);
    CallsKeepSetup(s.(setupDone := true), setup, x);
    PublishingKeepsSetup(AfterAll(s.(setupDone := true), setup, x));
  }

  lemma FailingUnsettles(before: State, s: State, x: Context)
    ensures !AfterFailing(before, s, x).setupDone
  {
  }

  lemma PublishingKeepsSetup(s: State)
    ensures AfterPublishing(s).setupDone == s.setupDone
  {
  }

  lemma {:induction false} CallsKeepSetup(s: State, calls: seq<Timed>, x: Context)
    ensures AfterAll(s, calls, x).setupDone == s.setupDone
  {
    hide Listed, Truthful, Savings, AfterEdit, Restored, ValuesIn, CONFIG_PERSISTED;
    if calls != [] {
      CallsKeepSetup(s, calls[..|calls| - 1], x);
    }
  }

  // ------------------------------------------------------------------------ //
  // Being in step                                                             //
  // ------------------------------------------------------------------------ //

  /** The client holds the property as its policy shows it: exactly, or as rendered. */
  predicate InStep(e: Entry, x: Context) {
    Shows(e.told, e.vector, e.policy, x.render)
  }

  /** A call that updates a property with a value its definition has no element for or
      will not take. */
  predicate RaisesOn(s: State, call: Call, n: string) {
    call.Updating? && call.name == n && n in s.entries && Edited(s.entries[n].defined, call.edit).1.Some?
  }

  /** An edit that goes out: it raises nothing, and the policy lets it through. */
  predicate Sends(e: Entry, edit: Edit, x: Context) {
    Edited(e.defined, edit).1.None? && Emits(e.policy, edit.Forced(), e.vector, Edited(e.vector, edit).0, x.render)
  }

  /** A call after which the client holds the property whatever it held before. */
  predicate Resends(s: State, call: Call, n: string, x: Context) {
    match call
    case Defining(v, _, persist) => v.name == n && (persist ==> Persistable(v.kind) && PersistedList.NoSpace(n))
    case Updating(m, edit) => m == n && n in s.entries && Sends(s.entries[n], edit, x)
    case Loading(document, _) =>
      n in document && n in s.entries && s.entries[n].persist && Sends(s.entries[n], Restoring(document[n]), x)
    case _ => false
  }

  /** A call that raises, having written what shows as a change. */
  predicate LeavesBehind(s: State, call: Call, n: string, x: Context) {
    && RaisesOn(s, call, n)
    && var e := s.entries[n]; !Shows(e.vector, Edited(e.vector, call.edit).0, e.policy, x.render)
  }

  /** No call left a client behind on the property since one that sent it. */
  predicate CaughtUpBy(s: State, calls: seq<Timed>, n: string, x: Context) {
    calls == [] ||
    var front, last := calls[..|calls| - 1], calls[|calls| - 1].call;
    || Resends(AfterAll(s, front, x), last, n, x)
    || (CaughtUpBy(s, front, n, x) && !LeavesBehind(AfterAll(s, front, x), last, n, x))
  }

  /** One of the calls sent the property, and none left a client behind since. */
  predicate ResentBy(s: State, calls: seq<Timed>, n: string, x: Context) {
    calls != [] &&
    var front, last := calls[..|calls| - 1], calls[|calls| - 1].call;
    || Resends(AfterAll(s, front, x), last, n, x)
    || (ResentBy(s, front, n, x) && !LeavesBehind(AfterAll(s, front, x), last, n, x))
  }

  /** No update of the property left a client behind since it was last defined, sent or
      announced. */
  predicate CaughtUp(s: State, events: seq<Event>, n: string, x: Context) {
    events == [] ||
    var front := events[..|events| - 1];
    var before := AfterEvents(s, front, x);
    match events[|events| - 1]
    case Plain(timed) =>
      Resends(before, timed.call, n, x) || (CaughtUp(s, front, n, x) && !LeavesBehind(before, timed.call, n, x))
    case Asked(setup, fails, _) =>
      || before.setupDone || fails || ResentBy(before.(setupDone := true), setup, n, x)
      || (CaughtUp(s, front, n, x) && CaughtUpBy(before.(setupDone := true), setup, n, x))
  }

  /** Exactly when an edit leaves a client in step: when it is sent, or when what it wrote
      shows as what the client was told. */
  lemma EditInStep(e: Entry, edit: Edit, time: int, x: Context)
    ensures var (written, fault) := Edited(e.vector, edit);
            && (InStep(AfterEdit(e, edit, time, x), x) <==>
                 || (fault.None? && Emits(e.policy, edit.Forced(), e.vector, written, x.render))
                 || Shows(e.told, written, e.policy, x.render))
            && (InStep(e, x) ==>
                 (InStep(AfterEdit(e, edit, time, x), x) <==>
                    fault.None? || Shows(e.vector, written, e.policy, x.render)))
  {
    hide SnapshotOf, Edited;
  }

  /** The values an update assigns, in order; none if a `select` is refused at once. */
  function GivenBy(v: Vector, edit: Edit): seq<(string, Value)> {
    match edit
    case Setting(values, _, _, _) => values
    case SettingAll(value, _, _, _) => ForAll(v.elements, value)
    case Selecting(name, value, others, _, _, _) =>
      var rest := if others.Some? then others else Unselected(v.kind);
      if IndexOf(v.elements, name) == |v.elements| || rest.None? then [] else ForOne(v.elements, name, value, rest.value)
    case Restoring(_) => []
  }

  lemma RaisedAssignment(e: Entry, n: string, values: seq<(string, Value)>, x: Context) returns (k: nat)
    requires Sound(e, n, x) && AssignAll(e.vector, values).1.Some?
    ensures k < |values| && FaultOf(e.defined, values[k].0, values[k].1).Some?
    ensures forall j :: 0 <= j < k ==> FaultOf(e.defined, values[j].0, values[j].1).None?
    ensures AssignAll(e.vector, values[..k]).0 == AssignAll(e.vector, values).0
  {
    k := FailsAt(e.vector, values);
    PrecedesTransitive(e.defined, e.told, e.vector);
    AssignAllKeeps(e.vector, values[..k]);
    var partly := AssignAll(e.vector, values[..k]).0;
    PrecedesTransitive(e.defined, e.vector, partly);
    FaultStays(e.defined, partly, values[k].0, values[k].1);
    RaisesExactly(e.vector, values[..k]);
    hide WellFormed, Precedes, AssignAll;
    forall j | 0 <= j < k ensures FaultOf(e.defined, values[j].0, values[j].1).None? {
      assert values[..k][j] == values[j];
      FaultStays(e.defined, e.vector, values[j].0, values[j].1);
    }
  }

  /** An update that raises does so at the first value the definition will not take, and
      leaves a client in step exactly when the values before it show no change; one whose
      first value is refused, and a `select` refused at once, always do. */
  lemma RaisedUpdate(e: Entry, n: string, edit: Edit, time: int, x: Context) returns (k: nat)
    requires Sound(e, n, x) && InStep(e, x) && Edited(e.vector, edit).1.Some?
    ensures var values := GivenBy(e.vector, edit);
            && k <= |values| && (k == |values| ==> values == [])
            && (k < |values| ==> FaultOf(e.defined, values[k].0, values[k].1).Some?)
            && (forall j :: 0 <= j < k ==> FaultOf(e.defined, values[j].0, values[j].1).None?)
            && (InStep(AfterEdit(e, edit, time, x), x) <==>
                  Shows(e.vector, AssignAll(e.vector, values[..k]).0, e.policy, x.render))
            && (k == 0 ==> InStep(AfterEdit(e, edit, time, x), x))
  {
    EditInStep(e, edit, time, x);
    var values := GivenBy(e.vector, edit);
    k := 0;
    hide Sound, InStep, AssignAll, FaultOf, Noted, ForAll, ForOne;
    if values != [] {
      k := RaisedAssignment(e, n, values, x);
    }
    if k == 0 {
      assert values[..0] == [];
      assert AssignAll(e.vector, []).0 == e.vector by {
        NothingAssigned(e.vector);
      }
    }
  }

  lemma NothingAssigned(v: Vector)
    ensures AssignAll(v, []) == (v, None)
  {
  }

  /** An edit keeps a client in step, or brings it back, as `Sends` and `Shows` say. */
  lemma EditCatchesUp(e: Entry, n: string, edit: Edit, time: int, x: Context)
    requires Sound(e, n, x)
    requires Sends(e, edit, x)
             || (InStep(e, x) && (Edited(e.defined, edit).1.None?
                                  || Shows(e.vector, Edited(e.vector, edit).0, e.policy, x.render)))
    ensures InStep(AfterEdit(e, edit, time, x), x)
  {
    PrecedesTransitive(e.defined, e.told, e.vector);
    EditFaultStays(e.defined, e.vector, edit);
    hide Sound, WellFormed, Precedes, Edited, AfterEdit, InStep, SnapshotOf;
    EditInStep(e, edit, time, x);
  }

  lemma UpdatingCatchesUp(s: State, m: string, edit: Edit, time: int, n: string, x: Context)
    requires EntryInv(s, n, x)
    requires Resends(s, Updating(m, edit), n, x)
             || ((n in s.entries ==> InStep(s.entries[n], x)) && !LeavesBehind(s, Updating(m, edit), n, x))
    ensures var next := AfterUpdating(s, m, edit, time, x); n in next.entries ==> InStep(next.entries[n], x)
  {
    hide InStep, AfterEdit, Sound, Edited, Shows, Sends, CONFIG_PERSISTED;
    if m == n && n in s.entries {
      EditCatchesUp(s.entries[n], n, edit, time, x);
    }
  }

  lemma LoadingCatchesUp(s: State, document: map<string, Saved>, order: seq<string>, time: int, n: string, x: Context)
    requires EntryInv(s, n, x)
    requires Resends(s, Loading(document, order), n, x) || (n in s.entries ==> InStep(s.entries[n], x))
    ensures var next := AfterLoading(s, document, time, x); n in next.entries ==> InStep(next.entries[n], x)
  {
    hide InStep, AfterEdit, Sound, Shows, Sends, CONFIG_PERSISTED, Restored;
    if n in s.entries && n in document && s.entries[n].persist {
      RestoringNeverRaises(s.entries[n].defined, document[n]);
      EditCatchesUp(s.entries[n], n, Restoring(document[n]), time, x);
    }
  }

  lemma DefiningCatchesUp(s: State, v: Vector, policy: Policy, persist: bool, n: string, x: Context)
    requires Resends(s, Defining(v, policy, persist), n, x) || (n in s.entries ==> InStep(s.entries[n], x))
    ensures var next := AfterDefining(s, v, policy, persist, x); n in next.entries ==> InStep(next.entries[n], x)
  {
    hide SnapshotOf, Restored, KeptNames, PersistedList.NoSpace, Persistable;
  }

  lemma ForgettingLeaves(s: State, m: string, n: string, x: Context)
    ensures var next := AfterForgetting(s, m, x);
            n in next.entries ==> n in s.entries && next.entries[n] == s.entries[n]
  {
    hide KeptNames, ValuesOf;
  }

  /** A call that sends a property brings it into step, and every other one keeps it
      there unless it leaves the client behind. */
  lemma CallCatchesUp(s: State, timed: Timed, n: string, x: Context)
    requires Inv(s, x)
    requires Resends(s, timed.call, n, x)
             || ((n in s.entries ==> InStep(s.entries[n], x)) && !LeavesBehind(s, timed.call, n, x))
    ensures n in After(s, timed, x).entries ==> InStep(After(s, timed, x).entries[n], x)
  {
    assert EntryInv(s, n, x);
    hide Inv, EntryInv, InStep, Sends, LeavesBehind, AfterDefining, AfterUpdating, AfterForgetting, AfterLoading,
         CONFIG_PERSISTED, PersistedList.NoSpace, Persistable;
    match timed.call
    case Defining(v, policy, persist) => DefiningCatchesUp(s, v, policy, persist, n, x);
    case Updating(m, edit) => UpdatingCatchesUp(s, m, edit, timed.time, n, x);
    case Withdrawing(m, _) => ForgettingLeaves(s, m, n, x);
    case WithdrawingHandle(which, _) =>
      if OwnedBy(s, which).Some? {
        ForgettingLeaves(s, OwnedBy(s, which).value, n, x);
      }
    case Saving =>
    case Loading(document, order) => LoadingCatchesUp(s, document, order, timed.time, n, x);
  }

  lemma RestoringNeverRaises(v: Vector, values: Saved)
    ensures Edited(v, Restoring(values)).1.None?
  {
  }

  lemma {:induction false} CallsCatchUp(s: State, calls: seq<Timed>, n: string, x: Context)
    requires Inv(s, x) && AllPermitted(calls, x)
    requires ResentBy(s, calls, n, x)
             || ((n in s.entries ==> InStep(s.entries[n], x)) && CaughtUpBy(s, calls, n, x))
    ensures n in AfterAll(s, calls, x).entries ==> InStep(AfterAll(s, calls, x).entries[n], x)
  {
    hide Inv, Permitted, After, InStep, Resends, LeavesBehind;
    if calls != [] {
      var front, last := calls[..|calls| - 1], calls[|calls| - 1];
      CallsKeepInv(s, front, x);
      if !Resends(AfterAll(s, front, x), last.call, n, x) {
        CallsCatchUp(s, front, n, x);
      }
      CallCatchesUp(AfterAll(s, front, x), last, n, x);
    }
  }

  /** An announcement brings every property into step, whatever was left unsaid; so does
      the end of a setup that failed. */
  lemma AnnouncedIsInStep(s: State, setup: seq<Timed>, fails: bool, n: string, x: Context)
    requires s.setupDone || fails
    ensures n in AfterAsking(s, setup, fails, x).entries ==> InStep(AfterAsking(s, setup, fails, x).entries[n], x)
  {
    hide AfterAll, SnapshotOf, ValuesOf;
  }

  /** In any run, a property is in step at the end unless an update of it raised, having
      written what shows as a change, since it was last defined, sent or announced. */
  lemma {:induction false} InStepUnlessLeftBehind(s: State, events: seq<Event>, n: string, x: Context)
    requires Inv(s, x) && EventsPermitted(events, x) && CaughtUp(s, events, n, x)
    requires n in s.entries ==> InStep(s.entries[n], x)
    ensures n in AfterEvents(s, events, x).entries ==> InStep(AfterEvents(s, events, x).entries[n], x)
  {
    if events != [] {
      hide InStep, Resends, LeavesBehind, After, AfterAll, EntryInv, Permitted, CaughtUpBy, ResentBy;
      var front := events[..|events| - 1];
      if CaughtUp(s, front, n, x) {
        InStepUnlessLeftBehind(s, front, n, x);
      }
      EventsKeepInv(s, front, x);
      var before := AfterEvents(s, front, x);
      match events[|events| - 1]
      case Plain(timed) =>
        assert EventPermitted(events[|events| - 1], x);
        CallCatchesUp(before, timed, n, x);
      case Asked(setup, fails, _) =>
        assert EventPermitted(events[|events| - 1], x);
        if before.setupDone || fails {
          AnnouncedIsInStep(before, setup, fails, n, x);
        } else {
          BegunKeepsInv(before, x);
          CallsCatchUp(before.(setupDone := true), setup, n, x);
        }
    }
  }

  // ------------------------------------------------------------------------ //
  // The list of saved properties                                              //
  // ------------------------------------------------------------------------ //

  /** The published list names the persisted properties, in the order of the registry. */
  predicate Exact(s: State) {
    s.stated.Some? ==> s.stated.value == Listed(s)
  }

  /** A call that replaces a persisted property by one that is not, once the list is out. */
  predicate Unlists(s: State, call: Call) {
    && s.stated.Some? && call.Defining? && !call.persist
    && call.vector.name in s.entries && s.entries[call.vector.name].persist
  }

  lemma {:induction false} SameKept(order: seq<string>, p: map<string, Entry>, q: map<string, Entry>)
    requires forall n :: n in order ==> (n in p && p[n].persist <==> n in q && q[n].persist)
    ensures KeptNames(order, p) == KeptNames(order, q)
  {
    if order != [] {
      SameKept(order[1..], p, q);
    }
  }

  lemma {:induction false} KeptOneMore(order: seq<string>, n: string, entries: map<string, Entry>)
    ensures KeptNames(order + [n], entries)
            == KeptNames(order, entries) + if n in entries && entries[n].persist then [n] else []
  {
    if order == [] {
      assert [] + [n] == [n] && [n][1..] == [];
    } else {
      assert (order + [n])[1..] == order[1..] + [n];
      KeptOneMore(order[1..], n, entries);
    }
  }

  lemma {:induction false} KeptWithoutOne(order: seq<string>, n: string, entries: map<string, Entry>)
    requires n in entries ==> !entries[n].persist
    ensures KeptNames(Without(order, n), entries) == KeptNames(order, entries)
  {
    if order != [] {
      KeptWithoutOne(order[1..], n, entries);
      if order[0] != n {
        var rest := Without(order[1..], n);
        assert Without(order, n) == [order[0]] + rest;
        assert ([order[0]] + rest)[1..] == rest;
      }
    }
  }

  /** Exactly when a definition leaves an exact list exact. */
  lemma DefiningExactly(s: State, v: Vector, policy: Policy, persist: bool, x: Context)
    requires Inv(s, x) && Exact(s)
    ensures Exact(AfterDefining(s, v, policy, persist, x)) <==> !Unlists(s, Defining(v, policy, persist))
  {
    hide Sound, Restored, CONFIG_PERSISTED, PersistedList.NoSpace, Persistable;
    var next := AfterDefining(s, v, policy, persist, x);
    assert EntryInv(s, v.name, x);
    if s.stated.Some? && !persist {
      if Unlists(s, Defining(v, policy, persist)) {
        assert v.name in Listed(s) && v.name !in Listed(next);
      } else {
        SameKept(s.order, s.entries, next.entries);
        KeptOneMore(s.order, v.name, next.entries);
      }
    }
  }

  lemma UpdatingExactly(s: State, n: string, edit: Edit, time: int, x: Context)
    requires Exact(s)
    ensures Exact(AfterUpdating(s, n, edit, time, x))
  {
    hide AfterEdit;
    if n in s.entries {
      AfterEditSame(s.entries[n], edit, time, x);
    }
    SameKept(s.order, s.entries, AfterUpdating(s, n, edit, time, x).entries);
  }

  lemma LoadingExactly(s: State, document: map<string, Saved>, time: int, x: Context)
    requires Exact(s)
    ensures Exact(AfterLoading(s, document, time, x))
  {
    hide AfterEdit;
    forall n | n in s.entries && n in document
      ensures AfterEdit(s.entries[n], Restoring(document[n]), time, x).persist == s.entries[n].persist
    {
      AfterEditSame(s.entries[n], Restoring(document[n]), time, x);
    }
    SameKept(s.order, s.entries, AfterLoading(s, document, time, x).entries);
  }

  lemma ForgettingExactly(s: State, n: string, x: Context)
    requires Inv(s, x) && Exact(s)
    ensures Exact(AfterForgetting(s, n, x))
    ensures AfterForgetting(s, n, x).honest == s.honest
  {
    hide Sound, ValuesOf, PersistedList.NoSpace;
    if n != CONFIG_PERSISTED && n in s.entries {
      var next := AfterForgetting(s, n, x);
      if !s.entries[n].persist {
        SameKept(s.order, s.entries, next.entries);
        KeptWithoutOne(s.order, n, next.entries);
      }
    }
  }

  lemma CallExactly(s: State, timed: Timed, x: Context)
    requires Inv(s, x) && Exact(s) && !Unlists(s, timed.call)
    ensures Exact(After(s, timed, x)) && After(s, timed, x).honest == s.honest
  {
    hide Inv, AfterForgetting, AfterEdit, Restored, KeptNames, ValuesOf;
    match timed.call
    case Defining(v, policy, persist) => DefiningExactly(s, v, policy, persist, x);
    case Updating(n, edit) => UpdatingExactly(s, n, edit, timed.time, x);
    case Withdrawing(n, _) => ForgettingExactly(s, n, x);
    case WithdrawingHandle(which, _) =>
      if OwnedBy(s, which).Some? {
        ForgettingExactly(s, OwnedBy(s, which).value, x);
      }
    case Saving =>
    case Loading(document, _) => LoadingExactly(s, document, timed.time, x);
  }

  predicate NoneUnlisted(s: State, events: seq<Event>, x: Context) {
    events != [] ==>
      var front := events[..|events| - 1];
      && NoneUnlisted(s, front, x)
      && (events[|events| - 1].Plain? ==> !Unlists(AfterEvents(s, front, x), events[|events| - 1].timed.call))
  }

  lemma AskingExactly(s: State, setup: seq<Timed>, fails: bool, x: Context)
    requires Inv(s, x) && Exact(s) && AllPermitted(setup, x)
    ensures Exact(AfterAsking(s, setup, fails, x)) && AfterAsking(s, setup, fails, x).honest == s.honest
  {
    hide Sound, AfterAll, ValuesOf, PersistedList.NoSpace;
    if s.setupDone {
      SameKept(s.order, s.entries, AfterAnnouncing(s).entries);
    } else {
      var built := AfterAll(s.(setupDone := true), setup, x);
      BegunKeepsInv(s, x);
      CallsKeepInv(s.(setupDone := true), setup, x);
      if !fails && CONFIG_PROCESS in built.entries {
        assert EntryInv(built, CONFIG_PERSISTED, x);
        KeptOneMore(built.order, CONFIG_PERSISTED, built.entries);
      }
    }
  }

  /** In any run that replaces no persisted property by one that is not once the list is
      out, the list is exact at the end and misled no client on the way. */
  lemma {:induction false} ListUnlessUnlisted(s: State, events: seq<Event>, x: Context)
    requires Inv(s, x) && EventsPermitted(events, x) && Exact(s) && NoneUnlisted(s, events, x)
    ensures Exact(AfterEvents(s, events, x)) && AfterEvents(s, events, x).honest == s.honest
  {
    if events != [] {
      hide Exact, Unlists, After, AfterAll, EntryInv, Permitted, AfterAsking;
      var front := events[..|events| - 1];
      ListUnlessUnlisted(s, front, x);
      EventsKeepInv(s, front, x);
      assert EventPermitted(events[|events| - 1], x);
      match events[|events| - 1]
      case Plain(timed) => CallExactly(AfterEvents(s, front, x), timed, x);
      case Asked(setup, fails, _) => AskingExactly(AfterEvents(s, front, x), setup, fails, x);
    }
  }

  // ------------------------------------------------------------------------ //
  // Misleading a client                                                       //
  // ------------------------------------------------------------------------ //

  /** The published list still names a property that is not persisted any more. */
  predicate Stale(s: State, n: string) {
    s.stated.Some? && n in s.stated.value && n != "" && n in s.entries && !s.entries[n].persist
  }

  /** A call that withdraws a property the list still names, and will go on naming. */
  predicate Misleads(s: State, call: Call) {
    match call
    case Withdrawing(n, _) => Stale(s, n)
    case WithdrawingHandle(which, _) => OwnedBy(s, which).Some? && Stale(s, OwnedBy(s, which).value)
    case _ => false
  }

  predicate NoneMisleads(s: State, events: seq<Event>, x: Context) {
    events != [] ==>
      var front := events[..|events| - 1];
      && NoneMisleads(s, front, x)
      && (events[|events| - 1].Plain? ==> !Misleads(AfterEvents(s, front, x), events[|events| - 1].timed.call))
  }

  /** Exactly when a withdrawal leaves a truthful list truthful: the property was persisted
      to the last, or the list does not name it. */
  lemma ForgettingHonestly(s: State, n: string, x: Context)
    requires Inv(s, x) && Truthful(s) && n in s.entries
    ensures Truthful(AfterForgetting(s, n, x)) <==> !Stale(s, n)
  {
    hide Sound, ValuesOf, Without, PersistedList.NoSpace;
    assert EntryInv(s, n, x);
  }

  /** Exactly when a call leaves every client as little misled as before. */
  lemma CallHonestly(s: State, timed: Timed, x: Context)
    requires Inv(s, x)
    ensures After(s, timed, x).honest <==> s.honest && !Misleads(s, timed.call)
  {
    hide EntryInv, KeptNames, ValuesIn, Without, AfterEdit, Restored, Savings, Truthful;
    match timed.call
    case Withdrawing(n, _) => WithdrawnHonestly(s, n, x);
    case WithdrawingHandle(which, _) =>
      if OwnedBy(s, which).Some? {
        WithdrawnHonestly(s, OwnedBy(s, which).value, x);
      }
    case _ =>
  }

  lemma WithdrawnHonestly(s: State, n: string, x: Context)
    requires Inv(s, x)
    ensures AfterForgetting(s, n, x).honest <==> s.honest && !Stale(s, n)
  {
    hide KeptNames, ValuesIn, Without, Sound;
    assert EntryInv(s, CONFIG_PERSISTED, x);
    if n in s.entries && s.honest {
      ForgettingHonestly(s, n, x);
    }
  }

  /** In any run no client was ever misled if and only if no call withdrew a property that
      was no longer persisted while the list still named it. */
  lemma {:induction false} HonestExactly(s: State, events: seq<Event>, x: Context)
    requires Inv(s, x) && EventsPermitted(events, x)
    ensures AfterEvents(s, events, x).honest <==> s.honest && NoneMisleads(s, events, x)
  {
    if events != [] {
      hide Inv, Misleads, After, AfterAsking, Permitted;
      var front := events[..|events| - 1];
      HonestExactly(s, front, x);
      EventsKeepInv(s, front, x);
      assert EventPermitted(events[|events| - 1], x);
      match events[|events| - 1]
      case Plain(timed) => CallHonestly(AfterEvents(s, front, x), timed, x);
      case Asked(setup, fails, _) => AskingHonestly(AfterEvents(s, front, x), setup, fails, x);
    }
  }

  /** A setup runs before the list is published, and so misleads nobody. */
  lemma AskingHonestly(s: State, setup: seq<Timed>, fails: bool, x: Context)
    requires Inv(s, x) && AllPermitted(setup, x)
    ensures AfterAsking(s, setup, fails, x).honest == s.honest
  {
    hide EntryInv, AfterAll, KeptNames, ValuesIn, Truthful;
    if !s.setupDone {
      BegunKeepsInv(s, x);
      CallsKeepInv(s.(setupDone := true), setup, x);
    }
  }

  /** What a client reads in an exact list is the persisted properties. */
  lemma ExactNames(s: State, x: Context)
    requires Inv(s, x) && Exact(s) && s.stated.Some?
    ensures forall n :: n in PersistedList.Words(PersistedList.Join(s.stated.value)) <==>
                        n != "" && n in s.entries && s.entries[n].persist
  {
    hide Sound, PersistedList.NoSpace;
    PersistedList.WordsOfJoin(s.stated.value);
    forall n | n in s.entries ensures n in s.order {
      assert EntryInv(s, n, x);
    }
  }

  // ------------------------------------------------------------------------ //
  // Saving and loading                                                        //
  // ------------------------------------------------------------------------ //

  /** A call that gives the configuration other values for a property. */
  predicate Touches(call: Call, n: string) {
    || (call.Defining? && call.persist && call.vector.name == n)
    || (call.Loading? && n in call.document)
  }

  predicate AnyTouches(calls: seq<Timed>, n: string) {
    exists i :: 0 <= i < |calls| && Touches(calls[i].call, n)
  }

  /** No event loads values for the property or defines it as a persisted one. */
  predicate LeftAlone(events: seq<Event>, n: string) {
    forall i :: 0 <= i < |events| ==>
      match events[i] case Plain(timed) => !Touches(timed.call, n) case Asked(setup, _, _) => !AnyTouches(setup, n)
  }

  /** The configuration has these values for a property that is not a live persisted one. */
  predicate Remembers(s: State, n: string, values: Saved) {
    n in s.config && s.config[n] == values && (n in s.entries ==> !s.entries[n].persist)
  }

  lemma DefiningRemembers(s: State, v: Vector, policy: Policy, persist: bool, n: string, x: Context)
    requires !(persist && v.name == n) && (n in s.entries ==> !s.entries[n].persist)
    ensures var next := AfterDefining(s, v, policy, persist, x);
            next.config == s.config && (n in next.entries ==> !next.entries[n].persist)
  {
    hide KeptNames, Restored;
  }

  lemma ForgettingRemembers(s: State, m: string, n: string, values: Saved, x: Context)
    requires Remembers(s, n, values)
    ensures Remembers(AfterForgetting(s, m, x), n, values)
  {
    hide KeptNames, ValuesOf, Without;
  }

  lemma LoadingRemembers(s: State, document: map<string, Saved>, time: int, n: string, x: Context)
    requires n !in document && (n in s.entries ==> !s.entries[n].persist)
    ensures var next := AfterLoading(s, document, time, x);
            && (n in next.config <==> n in s.config) && (n in s.config ==> next.config[n] == s.config[n])
            && (n in next.entries ==> !next.entries[n].persist)
  {
    hide AfterEdit;
  }

  lemma CallRemembers(s: State, timed: Timed, n: string, values: Saved, x: Context)
    requires Remembers(s, n, values) && !Touches(timed.call, n)
    ensures Remembers(After(s, timed, x), n, values)
  {
    hide AfterEdit, AfterDefining, AfterForgetting, AfterLoading, ValuesOf;
    match timed.call
    case Defining(v, policy, persist) => DefiningRemembers(s, v, policy, persist, n, x);
    case Updating(m, edit) =>
      if m in s.entries {
        AfterEditSame(s.entries[m], edit, timed.time, x);
      }
    case Withdrawing(m, _) => ForgettingRemembers(s, m, n, values, x);
    case WithdrawingHandle(which, _) =>
      if OwnedBy(s, which).Some? {
        ForgettingRemembers(s, OwnedBy(s, which).value, n, values, x);
      }
    case Saving =>
    case Loading(document, _) => LoadingRemembers(s, document, timed.time, n, x);
  }

  lemma {:induction false} CallsRemember(s: State, calls: seq<Timed>, n: string, values: Saved, x: Context)
    requires Remembers(s, n, values) && !AnyTouches(calls, n)
    ensures Remembers(AfterAll(s, calls, x), n, values)
  {
    if calls != [] {
      hide Remembers, Touches, After;
      var front := calls[..|calls| - 1];
      assert forall i :: 0 <= i < |front| ==> front[i] == calls[i];
      CallsRemember(s, front, n, values, x);
      CallRemembers(AfterAll(s, front, x), calls[|calls| - 1], n, values, x);
    }
  }

  lemma AskingRemembers(s: State, setup: seq<Timed>, fails: bool, n: string, values: Saved, x: Context)
    requires Remembers(s, n, values) && !AnyTouches(setup, n)
    ensures Remembers(AfterAsking(s, setup, fails, x), n, values)
  {
    if !s.setupDone {
      assert Remembers(s.(setupDone := true), n, values);
      CallsRemember(s.(setupDone := true), setup, n, values, x);
    }
    hide AfterAll, ValuesOf, KeptNames;
  }

  lemma {:induction false} EventsRemember(s: State, events: seq<Event>, n: string, values: Saved, x: Context)
    requires Remembers(s, n, values) && LeftAlone(events, n)
    ensures Remembers(AfterEvents(s, events, x), n, values)
  {
    if events != [] {
      hide Remembers, Touches, After, AnyTouches, AfterAsking;
      var front := events[..|events| - 1];
      assert forall i :: 0 <= i < |front| ==> front[i] == events[i];
      EventsRemember(s, front, n, values, x);
      match events[|events| - 1]
      case Plain(timed) => CallRemembers(AfterEvents(s, front, x), timed, n, values, x);
      case Asked(setup, fails, _) => AskingRemembers(AfterEvents(s, front, x), setup, fails, n, values, x);
    }
  }

  /** A withdrawn persisted property's last values are in every document saved until it
      is loaded or defined as a persisted one again, whatever happens in between. */
  lemma WithdrawnIsSaved(s: State, n: string, events: seq<Event>, x: Context)
    requires n in s.entries && s.entries[n].persist && n != CONFIG_PERSISTED && LeftAlone(events, n)
    ensures var saved := AfterSaving(AfterEvents(AfterForgetting(s, n, x), events, x), x);
            n in saved.config && saved.config[n] == ValuesIn(s.entries[n], x)
  {
    hide AfterEvents, ValuesIn, KeptNames;
    EventsRemember(AfterForgetting(s, n, x), events, n, ValuesIn(s.entries[n], x), x);
  }

  /** A save writes what every live persisted property holds, and keeps the rest. */
  lemma LiveIsSaved(s: State, n: string, x: Context)
    ensures n in s.entries && s.entries[n].persist ==>
              n in AfterSaving(s, x).config && AfterSaving(s, x).config[n] == ValuesIn(s.entries[n], x)
    ensures !(n in s.entries && s.entries[n].persist) ==>
              (n in AfterSaving(s, x).config <==> n in s.config)
              && (n in s.config ==> AfterSaving(s, x).config[n] == s.config[n])
  {
    hide ValuesIn;
  }

  /** A document saved when a property held some elements, and a definition it fits. */
  predicate Fits(v0: Vector, saved: Vector, document: map<string, Saved>, x: Context) {
    && Persistable(v0.kind) && PersistedList.NoSpace(v0.name) && WellFormed(v0) && WellFormed(saved) && SameElements(v0, saved)
    && v0.name in document && document[v0.name] == ValuesOf(saved.elements, x.show)
  }

  lemma LoadThenDefine(s: State, v0: Vector, policy: Policy, saved: Vector,
                       document: map<string, Saved>, order: seq<string>, load: int, define: int, x: Context)
    requires Fits(v0, saved, document, x)
    ensures var after := AfterAll(s, [Timed(Loading(document, order), load), Timed(Defining(v0, policy, true), define)], x);
            && v0.name in after.entries
            && after.entries[v0.name].vector.elements
               == Restored(v0.(device := x.device), ValuesOf(saved.elements, x.show)).elements
  {
    TwoCalls(s, Timed(Loading(document, order), load), Timed(Defining(v0, policy, true), define), x);
    hide Restored, WellFormed, SameElements, AtMostOneOn, ValuesOf, AfterEdit, KeptNames, AfterAll;
  }

  lemma RestoredTwice(v: Vector, saved: Vector, remembered: Saved, show: real -> string)
    requires WellFormed(v) && WellFormed(saved) && SameElements(v, saved) && Persistable(v.kind)
    ensures Restored(Restored(v, remembered), ValuesOf(saved.elements, show)).elements
            == Restored(v, ValuesOf(saved.elements, show)).elements
  {
    RestoredKeepsDefinition(v, saved, remembered);
    assert saved.elements[0..] == saved.elements;
    RestoreForgets(Restored(v, remembered), v, saved, 0, show);
  }

  lemma DefinedAs(s: State, v0: Vector, policy: Policy, x: Context)
    requires Persistable(v0.kind) && PersistedList.NoSpace(v0.name)
    ensures var first := AfterDefining(s, v0, policy, true, x);
            && v0.name in first.entries && first.entries[v0.name].persist
            && first.entries[v0.name].vector
               == Restored(v0.(device := x.device), if v0.name in s.config then s.config[v0.name] else [])
  {
    NothingRestored(v0.(device := x.device));
    hide Restored, KeptNames;
  }

  lemma NothingRestored(v: Vector)
    ensures Restored(v, []) == v
  {
  }

  lemma LoadedInto(s: State, n: string, document: map<string, Saved>, time: int, x: Context)
    requires n in s.entries && s.entries[n].persist && n in document
    ensures n in AfterLoading(s, document, time, x).entries
    ensures AfterLoading(s, document, time, x).entries[n] == AfterEdit(s.entries[n], Restoring(document[n]), time, x)
  {
    hide AfterEdit;
  }

  lemma SameDefinition(v: Vector, device: string)
    ensures WellFormed(v) ==> WellFormed(v.(device := device))
  {
  }

  lemma DefineThenLoad(s: State, v0: Vector, policy: Policy, saved: Vector,
                       document: map<string, Saved>, order: seq<string>, load: int, define: int, x: Context)
    requires Fits(v0, saved, document, x)
    ensures var after := AfterAll(s, [Timed(Defining(v0, policy, true), define), Timed(Loading(document, order), load)], x);
            && v0.name in after.entries
            && after.entries[v0.name].vector.elements
               == Restored(v0.(device := x.device), ValuesOf(saved.elements, x.show)).elements
  {
    hide AfterDefining, AfterLoading, Restored, WellFormed, AtMostOneOn, ValuesOf, AfterEdit, AfterAll;
    TwoCalls(s, Timed(Defining(v0, policy, true), define), Timed(Loading(document, order), load), x);
    var n, v := v0.name, v0.(device := x.device);
    var remembered := if n in s.config then s.config[n] else [];
    DefinedAs(s, v0, policy, x);
    var first := AfterDefining(s, v0, policy, true, x);
    LoadedInto(first, n, document, load, x);
    RestoringRestores(first.entries[n], document[n], load, x);
    SameDefinition(v0, x.device);
    RestoredTwice(v, saved, remembered, x.show);
  }

  /** Loading a saved document before a property is defined and loading it after leave the
      same element values, whatever the configuration held, and they are those it was
      saved with exactly when it was not an exclusive vector saved with two members on. */
  lemma LoadAndDefineCommute(s: State, v0: Vector, policy: Policy, saved: Vector,
                             document: map<string, Saved>, order: seq<string>, before: int, after: int, x: Context)
    requires Fits(v0, saved, document, x)
    ensures var load, define := Loading(document, order), Defining(v0, policy, true);
            var loadedFirst := AfterAll(s, [Timed(load, before), Timed(define, after)], x);
            var definedFirst := AfterAll(s, [Timed(define, before), Timed(load, after)], x);
            && v0.name in loadedFirst.entries && v0.name in definedFirst.entries
            && loadedFirst.entries[v0.name].vector.elements == definedFirst.entries[v0.name].vector.elements
            && (loadedFirst.entries[v0.name].vector.elements == saved.elements
                <==> (Exclusive(v0) ==> AtMostOneOn(saved.elements)))
  {
    hide AfterAll, AtMostOneOn, Restored, ValuesOf;
    LoadThenDefine(s, v0, policy, saved, document, order, before, after, x);
    DefineThenLoad(s, v0, policy, saved, document, order, after, before, x);
    SameDefinition(v0, x.device);
    SaveThenRestore(v0.(device := x.device), saved, x.show);
  }

  lemma RestoringRestores(e: Entry, values: Saved, time: int, x: Context)
    ensures AfterEdit(e, Restoring(values), time, x).vector.elements == Restored(e.vector, values).elements
  {
  }

  lemma TwoCalls(s: State, first: Timed, second: Timed, x: Context)
    ensures AfterAll(s, [first, second], x) == After(After(s, first, x), second, x)
  {
    assert [first, second][..1] == [first] && [first][..0] == [];
    hide After;
    assert AfterAll(s, [first], x) == After(AfterAll(s, [], x), first, x);
  }

  /** In any run, an exclusive switch vector defined with at most one member on holds at
      most one on, the client was never told otherwise, and what a save writes of it
      restores it exactly. */
  lemma ExclusiveStays(events: seq<Event>, n: string, x: Context)
    requires EventsPermitted(events, x) && n in AfterEvents(INITIAL, events, x).entries
    requires var d := AfterEvents(INITIAL, events, x).entries[n].defined; Exclusive(d) && AtMostOneOn(d.elements)
    ensures var e := AfterEvents(INITIAL, events, x).entries[n];
            && AtMostOneOn(e.vector.elements) && AtMostOneOn(e.told.elements)
            && (Persistable(e.defined.kind) ==> Restored(e.defined, ValuesIn(e, x)).elements == e.vector.elements)
  {
    InitialInv(x);
    EventsKeepInv(INITIAL, events, x);
    var e := AfterEvents(INITIAL, events, x).entries[n];
    assert EntryInv(AfterEvents(INITIAL, events, x), n, x);
    hide Inv, AfterEvents;
    PrecedesTransitive(e.defined, e.told, e.vector);
    if Persistable(e.defined.kind) {
      SaveThenRestore(e.defined, e.vector, x.show);
    }
  }

  // ------------------------------------------------------------------------ //
  // Two runs that show where the promises end                                 //
  // ------------------------------------------------------------------------ //

  /** A device with a Save button and one persisted property; then the property defined
      again without `persist`, and withdrawn. */
  function MisleadingRun(button: Vector, p: Vector, policy: Policy, time: int): seq<Event> {
    [Asked([Timed(Defining(button, policy, false), time), Timed(Defining(p, policy, true), time)], false, time),
     Plain(Timed(Defining(p, policy, false), time)), Plain(Timed(Withdrawing(p.name, None), time))]
  }

  lemma MisleadingRunEnds(button: Vector, p: Vector, policy: Policy, time: int, x: Context)
    requires button.name == CONFIG_PROCESS && p.name != CONFIG_PROCESS && p.name != CONFIG_PERSISTED && p.name != ""
    requires Persistable(p.kind) && PersistedList.NoSpace(p.name)
    ensures var s := AfterEvents(INITIAL, MisleadingRun(button, p, policy, time), x);
            s.stated == Some([p.name]) && p.name !in s.entries && !Truthful(s) && !s.honest
  {
    var events := MisleadingRun(button, p, policy, time);
    hide Persistable, PersistedList.NoSpace, Restored, ValuesOf;
    var setup := [Timed(Defining(button, policy, false), time), Timed(Defining(p, policy, true), time)];
    var begun := INITIAL.(setupDone := true);
    TwoCalls(begun, setup[0], setup[1], x);
    var built := AfterAll(begun, setup, x);
    assert built.order == [CONFIG_PROCESS, p.name];
    ListedTwo(built, p.name);
    ThreeEvents(INITIAL, events, x);
    var asked := AfterEvent(INITIAL, events[0], x);
    var redefined := AfterEvent(asked, events[1], x);
    assert asked.stated == Some([p.name]);
    assert redefined.stated == Some([p.name]) && !redefined.entries[p.name].persist;
    hide AfterEvents, AfterAll, KeptNames;
  }

  lemma ListedTwo(s: State, n: string)
    requires s.order == [CONFIG_PROCESS, n] && CONFIG_PROCESS in s.entries && !s.entries[CONFIG_PROCESS].persist
    requires n in s.entries && s.entries[n].persist
    ensures Listed(s) == [n]
  {
    assert s.order[1..] == [n] && [n][1..] == [];
    assert KeptNames([n], s.entries) == [n] by {
      assert KeptNames([], s.entries) == [];
    }
    assert KeptNames(s.order, s.entries) == KeptNames(s.order[1..], s.entries);
  }

  lemma ThreeEvents(s: State, events: seq<Event>, x: Context)
    requires |events| == 3
    ensures AfterEvents(s, events, x) == AfterEvent(AfterEvent(AfterEvent(s, events[0], x), events[1], x), events[2], x)
  {
    hide AfterEvent;
    assert events[..2][..1] == events[..1] && events[..1][..0] == [] && events[..2][1] == events[1];
    assert AfterEvents(s, events[..1], x) == AfterEvent(AfterEvents(s, [], x), events[0], x);
    assert AfterEvents(s, events[..2], x) == AfterEvent(AfterEvents(s, events[..1], x), events[1], x);
  }

  /** A property defined before a setup that defines it again and then raises. */
  function DroppingRun(p: Vector, policy: Policy, time: int): seq<Event> {
    [Plain(Timed(Defining(p, policy, false), time)), Asked([Timed(Defining(p, policy, false), time)], true, time)]
  }

  lemma DroppingRunEnds(p: Vector, policy: Policy, time: int, x: Context)
    ensures p.name in AfterEvents(INITIAL, DroppingRun(p, policy, time)[..1], x).entries
    ensures p.name !in AfterEvents(INITIAL, DroppingRun(p, policy, time), x).entries
  {
    hide ValuesOf;
    var events := DroppingRun(p, policy, time);
    assert events[..1][..0] == [];
    var first := AfterEvent(AfterEvents(INITIAL, [], x), events[0], x);
    assert AfterEvents(INITIAL, events[..1], x) == first;
    var setup := [Timed(Defining(p, policy, false), time)];
    assert setup[..0] == [];
    assert AfterAll(first.(setupDone := true), setup, x) == After(first.(setupDone := true), setup[0], x);
    assert AfterEvents(INITIAL, events, x) == AfterEvent(first, events[1], x);
    hide AfterEvents, AfterAll, KeptNames;
  }
}
