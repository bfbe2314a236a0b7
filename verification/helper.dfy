/** The ControllerHelper object: the hands bound so far, the resolved device
    type and profile, the per-hand baselines, readiness, and the events it
    has dispatched on the document, in order. */
module Helper {
  import opened Wrappers
  import opened Registry
  import opened Events
  import opened Diff
  import opened Tick
  import opened Resolution

  /** assignController starts a ready poll for this connection. */
  predicate StartsPolling(index: int, totalInputs: int) {
    index + 1 >= totalInputs
  }

  /** With n input sources totalInputs is n - 1, so the poll already starts
      at the connection with index n - 2, one before the last one, and not
      at any earlier index. */
  lemma PollingStartsOneEarly(n: int, i: int)
    requires n >= 2 && 0 <= i < n
    ensures StartsPolling(i, n - 1) <==> i >= n - 2
  {
  }

  /** Diffing component i, after the run over the components before it has
      been written into the state and appended to a history, writes and
      appends the run over the components up to and including it. */
  lemma DiffExtendsRun<V>(ctx: Ctx<V>, hand: Hand, start: HandState<V>, comps: seq<(string, Component<V>)>,
                          i: nat, key: Key, st: State<V>, hist: seq<Event<V>>)
    requires i < |comps|
    requires !RunComponents(ctx, hand, start, comps[..i]).fault
    requires KeyOf(ctx, hand, comps[i].0) == Mapped(key)
    ensures var prior := RunComponents(ctx, hand, start, comps[..i]);
      var next := Step(Run(prior.table, hist + prior.events, false), comps[i].0, comps[i].1, hand, key, ctx.zero);
      var r := RunComponents(ctx, hand, start, comps[..i + 1]);
      && !r.fault
      && st[hand := prior.table][hand := next.table] == st[hand := r.table]
      && next.events == hist + r.events
  {
    var prior := RunComponents(ctx, hand, start, comps[..i]);
    var next := Step(prior, comps[i].0, comps[i].1, hand, key, ctx.zero);
    RunComponentsAt(ctx, hand, start, comps, i, key);
    StepAfterHistory(prior, hist, comps[i].0, comps[i].1, hand, key, ctx.zero);
    UpdateTwice(st, hand, prior.table, next.table);
  }

  class ControllerHelper<V(==)> {
    /** _controllers: the binding of each handedness. */
    var controllers: map<Hand, Binding>
    /** The order in which the bindings were first made, which is the order
        in which updateControls enumerates them. */
    var handOrder: seq<Hand>
    /** _controllerMap: the selected profile, None while null. */
    var controllerMap: Option<Profile>
    /** _useMaps. */
    const useMaps: bool
    /** The reading that the literal 0 of the axis baseline denotes. */
    const zero: V
    var state: State<V>
    var controllerType: Option<string>
    var totalInputs: int
    var controllersReady: bool
    /** Ready polls started and not cleared yet. */
    var pendingPolls: nat
    /** Every event dispatched so far. */
    var dispatched: seq<Event<V>>

    ghost predicate Valid()
      reads this
    {
      && Distinct(handOrder)
      && (forall h :: h in controllers <==> h in handOrder)
      && state.Keys <= controllers.Keys
      && controllerMap == ProfileOf(controllerType)
      && (controllersReady ==> Truthy(controllerType))
      && ReadyCount(dispatched) == if controllersReady then 1 else 0
    }

    /** What the diff engine runs with. */
    function Context(): Ctx<V>
      reads this`controllerMap
    {
      Ctx(useMaps, controllerMap, zero)
    }

    constructor(zero: V)
      ensures Valid()
      ensures controllers == map[] && handOrder == [] && controllerMap == None && useMaps
      ensures this.zero == zero && state == map[] && controllerType == None && totalInputs == 1
      ensures !controllersReady && pendingPolls == 0 && dispatched == []
    {
      controllers := map[];
      handOrder := [];
      controllerMap := None;
      useMaps := true;
      this.zero := zero;
      state := map[];
      controllerType := None;
      totalInputs := 1;
      controllersReady := false;
      pendingPolls := 0;
      dispatched := [];
    }

    /** setupControllers, given the number of input sources of the session. */
    method SetupControllers(inputCount: int)
      requires Valid()
      modifies this`totalInputs
      ensures Valid() && totalInputs == inputCount - 1
    {
      totalInputs := inputCount - 1;
    }

    /** assignController: record the hand's binding and, from the
        next-to-last expected index on, start a ready poll. */
    method AssignController(index: int, hand: Hand, model: nat, grip: nat)
      requires Valid()
      modifies this`controllers, this`handOrder, this`pendingPolls
      ensures Valid()
      ensures controllers == old(controllers)[hand := Binding(model, grip, index)]
      ensures handOrder == if hand in old(controllers) then old(handOrder) else old(handOrder) + [hand]
      ensures pendingPolls == old(pendingPolls) + if StartsPolling(index, totalInputs) then 1 else 0
    {
      if hand !in controllers {
        handOrder := handOrder + [hand];
      }
      controllers := controllers[hand := Binding(model, grip, index)];
      if index + 1 >= totalInputs {
        pendingPolls := pendingPolls + 1;
      }
    }

    /** One tick of a running ready poll: once the type is known, the ready
        event goes out, readiness is set and that poll is cleared; every
        later tick of any poll finds controllersReady set and does nothing. */
    method PollReady()
      requires Valid()
      modifies this`controllersReady, this`pendingPolls, this`dispatched
      ensures Valid()
      ensures var fires := old(pendingPolls > 0 && Truthy(controllerType) && !controllersReady);
        && controllersReady == (old(controllersReady) || fires)
        && pendingPolls == old(pendingPolls) - (if fires then 1 else 0)
        && dispatched == old(dispatched) + (if fires then [Ready(controllers, controllerType.value)] else [])
    {
      if pendingPolls > 0 && Truthy(controllerType) && !controllersReady {
        pendingPolls := pendingPolls - 1;
        controllersReady := true;
        ReadyCountAppend(dispatched, [Ready(controllers, controllerType.value)]);
        dispatched := dispatched + [Ready(controllers, controllerType.value)];
      }
    }

    /** updateControls on one snapshot of the bound hands' motion
        controllers; thrown tells whether it ended in a TypeError. */
    method UpdateControls(snap: Snapshot<V>) returns (thrown: bool)
      requires Valid()
      modifies this`controllerType, this`controllerMap, this`state, this`dispatched
      ensures Valid()
      ensures var res := Resolve(old(controllerType), old(controllerMap), controllers.Keys, snap);
        && controllerType == res.controllerType
        && controllerMap == res.controllerMap
        && (res.gate == Proceed ==>
              var tr := RunTick(Context(), old(state), handOrder, snap);
              state == tr.state && dispatched == old(dispatched) + tr.events && thrown == tr.fault)
        && (res.gate != Proceed ==> state == old(state) && dispatched == old(dispatched) && !thrown)
    {
      var proceed;
      proceed, thrown := ResolveDeviceType(snap);
      ResolveKeepsProfile(old(controllerType), old(controllerMap), controllers.Keys, snap);
      if !proceed {
        return;
      }
      thrown := UpdateHands(snap);
      RunTickStaysBound(Context(), old(state), handOrder, snap, controllers.Keys);
      RunTickDispatchesNoReady(Context(), old(state), handOrder, snap, old(dispatched));
    }

    /** The resolution block of updateControls and the early return after
        it: proceed tells whether the diff loops run. */
    method ResolveDeviceType(snap: Snapshot<V>) returns (proceed: bool, thrown: bool)
      modifies this`controllerType, this`controllerMap
      ensures var res := Resolve(old(controllerType), old(controllerMap), controllers.Keys, snap);
        && controllerType == res.controllerType
        && controllerMap == res.controllerMap
        && proceed == (res.gate == Proceed)
        && thrown == (res.gate == Throw)
    {
      proceed, thrown := false, false;
      if !Truthy(controllerType) {
        if Left in controllers && Left in snap {
          controllerType := Some(snap[Left].id);
        } else if Right in controllers && Right in snap {
          controllerType := Some(snap[Right].id);
        } else if Unhanded in controllers && Unhanded in snap {
          controllerType := Some(snap[Unhanded].id);
        }

        if AliasOnly(controllerType) {
          controllerType := None;
          return;
        }

        if controllerType.Some? && controllerType.value in ControllerMaps {
          controllerMap := Some(ControllerMaps[controllerType.value]);
        } else if controllerType.Some? && controllerType.value in ControllerMapAliases {
          // indexes the helper's own alias table, which does not exist
          thrown := true;
          return;
        }
      }
      proceed := Truthy(controllerType);
    }

    /** The loop over the bound hands, in binding order. */
    method UpdateHands(snap: Snapshot<V>) returns (thrown: bool)
      modifies this`state, this`dispatched
      ensures var tr := RunTick(Context(), old(state), handOrder, snap);
        state == tr.state && dispatched == old(dispatched) + tr.events && thrown == tr.fault
    {
      ghost var ctx := Context();
      assert dispatched == old(dispatched) + [];
      thrown := false;
      var i := 0;
      while i < |handOrder| && !thrown
        invariant 0 <= i <= |handOrder|
        invariant ctx == Context()
        invariant var tr := RunTick(ctx, old(state), handOrder[..i], snap);
          state == tr.state && dispatched == old(dispatched) + tr.events && thrown == tr.fault
        decreases |handOrder| - i
      {
        var hand := handOrder[i];
        ghost var prior := RunTick(ctx, old(state), handOrder[..i], snap);
        RunTickAt(ctx, old(state), handOrder, snap, i);
        if hand in snap {
          if hand !in state {
            state := state[hand := map[]];
            UpdateTwice(prior.state, hand, map[], RunComponents(ctx, hand, map[], snap[hand].components).table);
          } else {
            assert prior.state[hand := prior.state[hand]] == prior.state;
          }
          thrown := UpdateComponents(hand, snap[hand].components);
          AppendTwice(old(dispatched), prior.events,
            RunComponents(ctx, hand, BaseOf(prior.state, hand), snap[hand].components).events);
        }
        i := i + 1;
      }
      if thrown {
        RunTickStopsAtFault(ctx, old(state), handOrder, snap, i);
      } else {
        assert handOrder[..i] == handOrder;
      }
    }

    /** The loop over one hand's components: the name lookup, then the diff. */
    method UpdateComponents(hand: Hand, comps: seq<(string, Component<V>)>) returns (thrown: bool)
      requires hand in state
      modifies this`state, this`dispatched
      ensures var r := RunComponents(Context(), hand, old(state)[hand], comps);
        state == old(state)[hand := r.table] && dispatched == old(dispatched) + r.events && thrown == r.fault
    {
      ghost var ctx := Context();
      ghost var start := state[hand];
      assert state == old(state)[hand := start];
      assert dispatched == old(dispatched) + [];
      thrown := false;
      var i := 0;
      while i < |comps|
        invariant 0 <= i <= |comps|
        invariant ctx == Context()
        invariant var r := RunComponents(ctx, hand, start, comps[..i]);
          state == old(state)[hand := r.table] && dispatched == old(dispatched) + r.events && !r.fault
      {
        var (raw, c) := comps[i];
        var key;
        key, thrown := MapName(hand, raw);
        if thrown {
          RunComponentsThrowsAt(ctx, hand, start, comps, i);
          return;
        }
        DiffComponent(hand, key, raw, c);
        DiffExtendsRun(ctx, hand, start, comps, i, key, old(state), old(dispatched));
        i := i + 1;
      }
      assert comps[..i] == comps;
    }

    /** The lookup of the map name: the raw name when mapping is off, else
        the hand table's entry; thrown when there is no profile or the
        profile has no table for the hand. */
    method MapName(hand: Hand, raw: string) returns (key: Key, thrown: bool)
      ensures thrown <==> KeyOf(Context(), hand, raw) == TypeError
      ensures !thrown ==> KeyOf(Context(), hand, raw) == Mapped(key)
    {
      key, thrown := Some(raw), false;
      if useMaps {
        if controllerMap.None? || hand !in controllerMap.value {
          thrown := true;
          return;
        }
        key := if raw in controllerMap.value[hand] then Some(controllerMap.value[hand][raw]) else None;
      }
    }

    /** One component against the baseline of its key: create the baseline
        on first sight, bring it up to date, and dispatch the events. */
    method DiffComponent(hand: Hand, key: Key, raw: string, c: Component<V>)
      requires hand in state
      modifies this`state, this`dispatched
      ensures var next := Step(Run(old(state)[hand], old(dispatched), false), raw, c, hand, key, zero);
        state == old(state)[hand := next.table] && dispatched == next.events
    {
      var table := state[hand];
      ghost var prev := if key in table then Some(table[key]) else None;
      ghost var out := Compare(prev, raw, c, hand, key, zero);
      if key !in table {
        var baseline := Record(c.button, c.state, raw, None, None);
        if HasAxes(c.kind) {
          baseline := baseline.(xAxis := Some(zero), yAxis := Some(zero));
        }
        table := table[key := baseline];
      }
      var rec, stateChange, valueChange, axisChange := Refresh(table[key], c);
      assert rec == out.0;
      state := state[hand := table[key := rec]];
      assert table[key := rec] == old(state)[hand][key := out.0];
      Dispatch(hand, key, c, stateChange, valueChange, axisChange);
    }

    /** Compare each field of the record with the readout, taking the
        readout's value and noting what differed. */
    static method Refresh(rec: Record<V>, c: Component<V>)
      returns (updated: Record<V>, stateChange: bool, valueChange: bool, axisChange: bool)
      ensures Matches(updated, c) && updated.xrInputName == rec.xrInputName
      ensures !HasAxes(c.kind) ==> updated.xAxis == rec.xAxis && updated.yAxis == rec.yAxis
      ensures valueChange <==> rec.btnValue != c.button
      ensures stateChange <==> rec.btnState != c.state
      ensures axisChange <==> HasAxes(c.kind) && (rec.xAxis != Some(c.xAxis) || rec.yAxis != Some(c.yAxis))
    {
      updated := rec;
      valueChange, stateChange, axisChange := false, false, false;
      if updated.btnValue != c.button {
        valueChange := true;
        updated := updated.(btnValue := c.button);
      }
      if updated.btnState != c.state {
        stateChange := true;
        updated := updated.(btnState := c.state);
      }
      if HasAxes(c.kind) {
        if updated.xAxis != Some(c.xAxis) {
          axisChange := true;
          updated := updated.(xAxis := Some(c.xAxis));
        }
        if updated.yAxis != Some(c.yAxis) {
          axisChange := true;
          updated := updated.(yAxis := Some(c.yAxis));
        }
      }
    }

    /** Dispatch what changed: each specific event whose flag is set, with the
        renamed key, then the generic change event. */
    method Dispatch(hand: Hand, key: Key, c: Component<V>, stateChange: bool, valueChange: bool, axisChange: bool)
      modifies this`dispatched
      ensures dispatched == old(dispatched) + Announce(hand, key, c, stateChange, valueChange, axisChange)
    {
      if stateChange || valueChange || axisChange {
        if stateChange {
          dispatched := dispatched + [StateChange(hand, EventName(key), c.state)];
        }
        if valueChange {
          dispatched := dispatched + [ValueChange(hand, EventName(key), c.button)];
        }
        if axisChange {
          dispatched := dispatched + [AxisChange(hand, EventName(key), c.xAxis, c.yAxis)];
        }
        dispatched := dispatched + [Change];
      } else {
        assert dispatched == dispatched + [];
      }
    }
  }
}
