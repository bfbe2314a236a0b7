/** The per-tick diff engine of updateControls: resolving each raw component
    name to a state key, creating a baseline on first sight, comparing value,
    state and axes with the baseline, and the events that comparison fires.
    These functions specify the loops of ControllerHelper.UpdateControls. */
module Diff {
  import opened Wrappers
  import opened Registry
  import opened Events

  /** The WebXR component kinds. */
  datatype Kind = Trigger | Squeeze | Touchpad | Thumbstick | Button

  /** Only thumbsticks and touchpads have axes the helper looks at. */
  predicate HasAxes(k: Kind) {
    k == Thumbstick || k == Touchpad
  }

  /** One component as its motion controller reports it this tick; xAxis and
      yAxis are read only when the kind has axes. */
  datatype Component<V> = Component(kind: Kind, button: V, state: bool, xAxis: V, yAxis: V)

  /** A hand's motion controller: its device-type identifier and its
      components by raw name, in the order they are enumerated. */
  datatype MotionController<V> = MotionController(id: string, components: seq<(string, Component<V>)>)

  /** The stored baseline of one state key. An axis is None while the record
      has no such property (records created for a kind without axes). */
  datatype Record<V> = Record(btnValue: V, btnState: bool, xrInputName: string, xAxis: Option<V>, yAxis: Option<V>)

  /** One hand's entry of the helper's state: baselines by key. */
  type HandState<V> = map<Key, Record<V>>

  /** The outcome of the name lookup: a key, or the TypeError thrown when
      there is no profile or the profile has no table for the hand. */
  datatype Lookup = Mapped(key: Key) | TypeError

  /** What the diff engine needs besides the state: whether names are mapped,
      the resolved profile (None while it is null) and the reading that the
      literal 0 of the axis baseline denotes. */
  datatype Ctx<V> = Ctx(useMaps: bool, profile: Option<Profile>, zero: V)

  /** The state key for a raw name: the raw name itself when mapping is off,
      else the hand table's entry (undefined when the table lacks it). */
  function KeyOf<V>(ctx: Ctx<V>, hand: Hand, raw: string): (r: Lookup)
    // only the mapped lookup can throw: on a null profile or a missing hand table
    ensures r == TypeError <==> ctx.useMaps && (ctx.profile.None? || hand !in ctx.profile.value)
    // unmapped, the raw name is the key
    ensures !ctx.useMaps ==> r == Mapped(Some(raw))
    // and undefined comes exactly from a raw name the table does not list
    ensures ctx.useMaps && r.Mapped? ==> (r.key.None? <==> raw !in ctx.profile.value[hand])
  {
    if !ctx.useMaps then Mapped(Some(raw))
    else if ctx.profile.None? || hand !in ctx.profile.value then TypeError
    else if raw in ctx.profile.value[hand] then Mapped(Some(ctx.profile.value[hand][raw]))
    else Mapped(None)
  }

  /** With a registered profile, a left or right raw name resolves to exactly
      the registry's canonical name (undefined when it has none), and every
      lookup for the handedness "none" throws, as no profile has that table. */
  lemma KeyOfRegisteredProfile<V>(zero: V, t: string, hand: Hand, raw: string)
    requires t in ControllerMaps
    ensures var r := KeyOf(Ctx(true, Some(ControllerMaps[t]), zero), hand, raw);
      && (hand == Unhanded <==> r == TypeError)
      && (hand != Unhanded && raw in ControllerMaps[t][hand] ==> r == Mapped(Some(ControllerMaps[t][hand][raw])))
      && (hand != Unhanded && raw !in ControllerMaps[t][hand] ==> r == Mapped(None))
  {
    ProfilesAreTwoHanded();
  }

  /** With no profile (an identifier found in neither table), every lookup
      throws while mapping is on. */
  lemma KeyOfWithoutProfile<V>(zero: V, hand: Hand, raw: string)
    ensures KeyOf(Ctx(true, None, zero), hand, raw) == TypeError
  {
  }

  /** The record created on first sight: the readout, the raw name, and both
      axes at 0 for a kind with axes. */
  function Baseline<V>(raw: string, c: Component<V>, zero: V): (r: Record<V>)
    ensures r.btnValue == c.button && r.btnState == c.state && r.xrInputName == raw
    ensures HasAxes(c.kind) <==> r.xAxis.Some?
    ensures HasAxes(c.kind) <==> r.yAxis.Some?
    // the baseline already matches the readout, except for axes away from 0
    ensures Matches(r, c) <==> !HasAxes(c.kind) || (c.xAxis == zero && c.yAxis == zero)
  {
    if HasAxes(c.kind) then Record(c.button, c.state, raw, Some(zero), Some(zero))
    else Record(c.button, c.state, raw, None, None)
  }

  /** The record holds exactly the fields the readout would set. */
  predicate Matches<V(==)>(rec: Record<V>, c: Component<V>) {
    && rec.btnValue == c.button
    && rec.btnState == c.state
    && (HasAxes(c.kind) ==> rec.xAxis == Some(c.xAxis) && rec.yAxis == Some(c.yAxis))
  }

  /** Event kinds strictly increase in rank: at most one of each, in the order
      state, value, axis, generic change. */
  ghost predicate Ordered<V>(evs: seq<Event<V>>) {
    forall i, j :: 0 <= i < j < |evs| ==> Rank(evs[i]) < Rank(evs[j])
  }

  /** One component's events: nothing, or at least one specific change event
      in order followed by exactly one generic change event. */
  ghost predicate WellFormed<V>(evs: seq<Event<V>>) {
    evs == [] || (|evs| >= 2 && evs[|evs| - 1] == Change && Ordered(evs))
  }

  /** Applies one component's diff to the run so far. */
  function Step<V(==)>(prior: Run<V>, raw: string, c: Component<V>, hand: Hand, key: Key, zero: V): (r: Run<V>)
    ensures !r.fault && key in r.table && Matches(r.table[key], c)
  {
    var out := Compare(if key in prior.table then Some(prior.table[key]) else None, raw, c, hand, key, zero);
    Run(prior.table[key := out.0], prior.events + out.1, false)
  }

  /** A diff step adds the component's key, stores its readout there, keeps
      every other record and only appends to the events. */
  lemma StepTable<V>(prior: Run<V>, raw: string, c: Component<V>, hand: Hand, key: Key, zero: V)
    ensures var r := Step(prior, raw, c, hand, key, zero);
      && prior.table.Keys + {key} == r.table.Keys
      && Matches(r.table[key], c)
      && (forall k :: k in prior.table && k != key ==> r.table[k] == prior.table[k])
      && prior.events <= r.events
      && !r.fault
  {
  }

  /** The events one component fires, given which of its fields changed:
      state, value and axis events in that order, each once at most, and one
      generic change event after them when any of the three fired. Every
      event reports the renamed key; the axis event carries both axes. */
  function Announce<V>(hand: Hand, key: Key, c: Component<V>, stateChange: bool, valueChange: bool, axisChange: bool)
    : (evs: seq<Event<V>>)
    ensures evs == [] <==> !(stateChange || valueChange || axisChange)
  {
    var name := EventName(key);
    (if stateChange then [StateChange(hand, name, c.state)] else [])
    + (if valueChange then [ValueChange(hand, name, c.button)] else [])
    + (if axisChange then [AxisChange(hand, name, c.xAxis, c.yAxis)] else [])
    + (if stateChange || valueChange || axisChange then [Change] else [])
  }

  /** The events of one component are well formed, and each specific event
      is among them exactly when its flag is set. */
  lemma AnnounceShape<V>(hand: Hand, key: Key, c: Component<V>, stateChange: bool, valueChange: bool, axisChange: bool)
    ensures var evs := Announce(hand, key, c, stateChange, valueChange, axisChange);
      && WellFormed(evs)
      && (StateChange(hand, EventName(key), c.state) in evs <==> stateChange)
      && (ValueChange(hand, EventName(key), c.button) in evs <==> valueChange)
      && (AxisChange(hand, EventName(key), c.xAxis, c.yAxis) in evs <==> axisChange)
      && (forall e :: e in evs ==>
            || e == Change
            || e == StateChange(hand, EventName(key), c.state)
            || e == ValueChange(hand, EventName(key), c.button)
            || e == AxisChange(hand, EventName(key), c.xAxis, c.yAxis))
  {
  }

  /** Diffing one component against its baseline (prev, None when the key has
      no record yet): the new record and the events fired. */
  function Compare<V(==)>(prev: Option<Record<V>>, raw: string, c: Component<V>, hand: Hand, key: Key, zero: V)
    : (out: (Record<V>, seq<Event<V>>))
    // the stored record now reflects the readout
    ensures Matches(out.0, c)
    ensures out.0.xrInputName == if prev.Some? then prev.value.xrInputName else raw
    ensures !HasAxes(c.kind) ==>
      out.0.xAxis == (if prev.Some? then prev.value.xAxis else None) &&
      out.0.yAxis == (if prev.Some? then prev.value.yAxis else None)
    ensures prev.Some? && Matches(prev.value, c) ==> out.0 == prev.value
    // the events
    ensures prev.Some? ==> (out.1 == [] <==> Matches(prev.value, c))
  {
    var base := if prev.Some? then prev.value else Baseline(raw, c, zero);
    var valueChange := base.btnValue != c.button;
    var stateChange := base.btnState != c.state;
    var axisChange := HasAxes(c.kind) && (base.xAxis != Some(c.xAxis) || base.yAxis != Some(c.yAxis));
    var rec :=
      if HasAxes(c.kind) then base.(btnValue := c.button, btnState := c.state, xAxis := Some(c.xAxis), yAxis := Some(c.yAxis))
      else base.(btnValue := c.button, btnState := c.state);
    (rec, Announce(hand, key, c, stateChange, valueChange, axisChange))
  }

  /** Which events a diff fires: against a stored record, the state, value
      and axis events fire exactly for the fields that differ; on first sight
      only the axis event can fire, iff an axis reads other than 0. */
  lemma CompareEvents<V>(prev: Option<Record<V>>, raw: string, c: Component<V>, hand: Hand, key: Key, zero: V)
    ensures var out := Compare(prev, raw, c, hand, key, zero);
      && (prev.Some? ==>
            out.1 == Announce(hand, key, c, prev.value.btnState != c.state, prev.value.btnValue != c.button,
                              HasAxes(c.kind) && (prev.value.xAxis != Some(c.xAxis) || prev.value.yAxis != Some(c.yAxis))))
      && (prev.Some? ==>
            && (StateChange(hand, EventName(key), c.state) in out.1 <==> prev.value.btnState != c.state)
            && (ValueChange(hand, EventName(key), c.button) in out.1 <==> prev.value.btnValue != c.button)
            && (AxisChange(hand, EventName(key), c.xAxis, c.yAxis) in out.1 <==>
                  HasAxes(c.kind) && (prev.value.xAxis != Some(c.xAxis) || prev.value.yAxis != Some(c.yAxis))))
      && (prev.None? ==>
            && (out.1 == [] <==> !HasAxes(c.kind) || (c.xAxis == zero && c.yAxis == zero))
            && out.1 == Announce(hand, key, c, false, false, HasAxes(c.kind) && (c.xAxis != zero || c.yAxis != zero)))
  {
  }

  /** On first sight at most the axis event and the generic change event go
      out, and only when an axis reads other than 0. */
  lemma FirstSightEvents<V>(hand: Hand, key: Key, c: Component<V>, zero: V)
    ensures
      Announce(hand, key, c, false, false, HasAxes(c.kind) && (c.xAxis != zero || c.yAxis != zero))
      == if HasAxes(c.kind) && (c.xAxis != zero || c.yAxis != zero)
         then [AxisChange(hand, EventName(key), c.xAxis, c.yAxis), Change]
         else []
  {
  }

  /** The result of running the components of one hand: the hand's table,
      the events dispatched, and whether a TypeError ended the run. */
  datatype Run<V> = Run(table: HandState<V>, events: seq<Event<V>>, fault: bool)

  /** The inner loop of updateControls over one hand's components, in order;
      a lookup that throws ends the run with what was done before it. */
  function RunComponents<V(==)>(ctx: Ctx<V>, hand: Hand, hs: HandState<V>, comps: seq<(string, Component<V>)>)
    : (r: Run<V>)
    // with names unmapped no lookup throws
    ensures r.fault ==> ctx.useMaps
    // no record is ever removed
    ensures hs.Keys <= r.table.Keys
    decreases |comps|
  {
    if comps == [] then Run(hs, [], false)
    else
      var init := comps[..|comps| - 1];
      var prior := RunComponents(ctx, hand, hs, init);
      if prior.fault then prior
      else
        var (raw, c) := comps[|comps| - 1];
        match KeyOf(ctx, hand, raw)
        case TypeError => prior.(fault := true)
        case Mapped(key) => Step(prior, raw, c, hand, key, ctx.zero)
  }

  /** Once a prefix of the components has thrown, the rest changes nothing:
      the run stops at the throw. */
  lemma {:induction false} RunComponentsStopsAtFault<V>(
    ctx: Ctx<V>, hand: Hand, hs: HandState<V>, comps: seq<(string, Component<V>)>, n: nat)
    requires n <= |comps|
    requires RunComponents(ctx, hand, hs, comps[..n]).fault
    ensures RunComponents(ctx, hand, hs, comps) == RunComponents(ctx, hand, hs, comps[..n])
    decreases |comps| - n
  {
    if n == |comps| {
      assert comps[..n] == comps;
    } else {
      var init := comps[..|comps| - 1];
      assert init[..n] == comps[..n];
      RunComponentsStopsAtFault(ctx, hand, hs, init, n);
    }
  }

  /** A run throws exactly when one of its lookups throws. */
  lemma {:induction false} RunComponentsFaults<V>(
    ctx: Ctx<V>, hand: Hand, hs: HandState<V>, comps: seq<(string, Component<V>)>)
    ensures RunComponents(ctx, hand, hs, comps).fault <==>
      exists i :: 0 <= i < |comps| && KeyOf(ctx, hand, comps[i].0) == TypeError
    decreases |comps|
  {
    if comps != [] {
      var n := |comps| - 1;
      var init := comps[..n];
      RunComponentsFaults(ctx, hand, hs, init);
      if RunComponents(ctx, hand, hs, init).fault {
        var i :| 0 <= i < n && KeyOf(ctx, hand, init[i].0) == TypeError;
        assert init[i] == comps[i];
      } else if KeyOf(ctx, hand, comps[n].0) != TypeError {
        forall i | 0 <= i < |comps|
          ensures KeyOf(ctx, hand, comps[i].0) != TypeError
        {
          if i < n {
            assert init[i] == comps[i];
          }
        }
      }
    }
  }

  /** Every key a run adds to the hand's table is the key of one of its
      components; nothing else is created. */
  lemma {:induction false} RunComponentsNewKeys<V>(
    ctx: Ctx<V>, hand: Hand, hs: HandState<V>, comps: seq<(string, Component<V>)>)
    ensures var r := RunComponents(ctx, hand, hs, comps);
      forall k :: k in r.table && k !in hs ==>
        exists i :: 0 <= i < |comps| && KeyOf(ctx, hand, comps[i].0) == Mapped(k)
    decreases |comps|
  {
    if comps != [] {
      var n := |comps| - 1;
      var init := comps[..n];
      RunComponentsNewKeys(ctx, hand, hs, init);
      var prior := RunComponents(ctx, hand, hs, init);
      var r := RunComponents(ctx, hand, hs, comps);
      forall k | k in r.table && k !in hs
        ensures exists i :: 0 <= i < |comps| && KeyOf(ctx, hand, comps[i].0) == Mapped(k)
      {
        if k in prior.table {
          var i :| 0 <= i < n && KeyOf(ctx, hand, init[i].0) == Mapped(k);
          assert init[i] == comps[i];
        } else {
          assert KeyOf(ctx, hand, comps[n].0) == Mapped(k);
        }
      }
    }
  }

  /** No two components of the list share a state key. */
  ghost predicate DistinctKeys<V>(ctx: Ctx<V>, hand: Hand, comps: seq<(string, Component<V>)>) {
    forall i, j :: 0 <= i < j < |comps| ==> KeyOf(ctx, hand, comps[i].0) != KeyOf(ctx, hand, comps[j].0)
  }

  /** Every component's key has a record that matches its readout. */
  ghost predicate Stores<V>(ctx: Ctx<V>, hand: Hand, table: HandState<V>, comps: seq<(string, Component<V>)>) {
    forall i :: 0 <= i < |comps| ==>
      && KeyOf(ctx, hand, comps[i].0).Mapped?
      && KeyOf(ctx, hand, comps[i].0).key in table
      && Matches(table[KeyOf(ctx, hand, comps[i].0).key], comps[i].1)
  }

  /** With a registered profile, components of a left or right hand with
      distinct raw names that the hand's table lists never share a key, since
      no hand table maps two raw names to one canonical name. */
  lemma RegisteredKeysDistinct<V>(t: string, hand: Hand, zero: V, comps: seq<(string, Component<V>)>)
    requires t in ControllerMaps && hand != Unhanded
    requires forall i, j :: 0 <= i < j < |comps| ==> comps[i].0 != comps[j].0
    requires forall i :: 0 <= i < |comps| ==> comps[i].0 in ControllerMaps[t][hand]
    ensures DistinctKeys(Ctx(true, Some(ControllerMaps[t]), zero), hand, comps)
  {
    HandTablesAreInjective();
    ProfilesAreTwoHanded();
  }

  /** Diffing the last component keeps the records of the earlier ones when
      no two components share a key. */
  lemma StoresStep<V>(ctx: Ctx<V>, hand: Hand, prior: Run<V>, comps: seq<(string, Component<V>)>)
    requires |comps| > 0
    requires Stores(ctx, hand, prior.table, comps[..|comps| - 1])
    requires DistinctKeys(ctx, hand, comps)
    requires KeyOf(ctx, hand, comps[|comps| - 1].0).Mapped?
    ensures
      var last := comps[|comps| - 1];
      Stores(ctx, hand, Step(prior, last.0, last.1, hand, KeyOf(ctx, hand, last.0).key, ctx.zero).table, comps)
  {
    var n := |comps| - 1;
    var init := comps[..n];
    var lk := KeyOf(ctx, hand, comps[n].0);
    var r := Step(prior, comps[n].0, comps[n].1, hand, lk.key, ctx.zero);
    forall i | 0 <= i < |comps|
      ensures KeyOf(ctx, hand, comps[i].0).Mapped?
      ensures KeyOf(ctx, hand, comps[i].0).key in r.table
      ensures Matches(r.table[KeyOf(ctx, hand, comps[i].0).key], comps[i].1)
    {
      if i < n {
        var ki := KeyOf(ctx, hand, init[i].0);
        assert init[i] == comps[i];
        assert ki.Mapped? && ki.key in prior.table && Matches(prior.table[ki.key], init[i].1);
        assert ki.key != lk.key;
      }
    }
  }

  /** Dropping the last component keeps the keys distinct. */
  lemma DistinctKeysInit<V>(ctx: Ctx<V>, hand: Hand, comps: seq<(string, Component<V>)>)
    requires |comps| > 0 && DistinctKeys(ctx, hand, comps)
    ensures DistinctKeys(ctx, hand, comps[..|comps| - 1])
  {
  }

  /** After a run that did not throw, over components with distinct keys,
      every component's record holds its current readout. */
  lemma {:induction false} RunComponentsStores<V>(
    ctx: Ctx<V>, hand: Hand, hs: HandState<V>, comps: seq<(string, Component<V>)>)
    requires !RunComponents(ctx, hand, hs, comps).fault
    requires DistinctKeys(ctx, hand, comps)
    ensures Stores(ctx, hand, RunComponents(ctx, hand, hs, comps).table, comps)
    decreases |comps|
  {
    if comps != [] {
      var init := comps[..|comps| - 1];
      var prior := RunComponents(ctx, hand, hs, init);
      DistinctKeysInit(ctx, hand, comps);
      RunComponentsStores(ctx, hand, hs, init);
      StoresStep(ctx, hand, prior, comps);
    }
  }

  /** Running components against a table that already stores each of their
      readouts fires nothing and leaves the table as it is. */
  lemma {:induction false} RunComponentsQuietOn<V>(
    ctx: Ctx<V>, hand: Hand, table: HandState<V>, comps: seq<(string, Component<V>)>, n: nat)
    requires n <= |comps|
    requires Stores(ctx, hand, table, comps)
    ensures RunComponents(ctx, hand, table, comps[..n]) == Run(table, [], false)
  {
    if n > 0 {
      RunComponentsQuietOn(ctx, hand, table, comps, n - 1);
      var pre := comps[..n];
      assert pre[..n - 1] == comps[..n - 1];
      assert pre[n - 1] == comps[n - 1];
      var key := KeyOf(ctx, hand, comps[n - 1].0).key;
      assert table[key := table[key]] == table;
    }
  }

  /** Re-submitting the readout just processed, when no two components share
      a key, fires no event and changes no record. */
  lemma RunComponentsRepeatIsQuiet<V>(
    ctx: Ctx<V>, hand: Hand, hs: HandState<V>, comps: seq<(string, Component<V>)>)
    requires !RunComponents(ctx, hand, hs, comps).fault
    requires DistinctKeys(ctx, hand, comps)
    ensures var t := RunComponents(ctx, hand, hs, comps).table;
      RunComponents(ctx, hand, t, comps) == Run(t, [], false)
  {
    var t := RunComponents(ctx, hand, hs, comps).table;
    RunComponentsStores(ctx, hand, hs, comps);
    RunComponentsQuietOn(ctx, hand, t, comps, |comps|);
    assert comps[..|comps|] == comps;
  }

  /** Diffing a component without axes (a trigger, squeeze or button) whose
      value moved against its record while its state did not: the record
      takes the new value, and one value event and the generic change event
      go out. */
  lemma StepValueMoved<V>(prior: Run<V>, raw: string, c: Component<V>, hand: Hand, key: Key, zero: V)
    requires key in prior.table
    requires !HasAxes(c.kind) && prior.table[key].btnState == c.state && prior.table[key].btnValue != c.button
    ensures Step(prior, raw, c, hand, key, zero)
      == Run(prior.table[key := prior.table[key].(btnValue := c.button)],
             prior.events + [ValueChange(hand, EventName(key), c.button), Change], false)
  {
  }

  /** Diffing a component without axes whose key has no record yet: its
      baseline is stored and nothing fires. */
  lemma StepFirstSightWithoutAxes<V>(prior: Run<V>, raw: string, c: Component<V>, hand: Hand, key: Key, zero: V)
    requires key !in prior.table && !HasAxes(c.kind)
    ensures Step(prior, raw, c, hand, key, zero)
      == Run(prior.table[key := Record(c.button, c.state, raw, None, None)], prior.events, false)
  {
    assert prior.events + [] == prior.events;
  }

  /** Appending a component whose lookup succeeds to a run that did not
      throw diffs that component last. */
  lemma RunComponentsSnoc<V>(ctx: Ctx<V>, hand: Hand, t: HandState<V>, comps: seq<(string, Component<V>)>,
                             raw: string, c: Component<V>, key: Key)
    requires !RunComponents(ctx, hand, t, comps).fault
    requires KeyOf(ctx, hand, raw) == Mapped(key)
    ensures RunComponents(ctx, hand, t, comps + [(raw, c)])
      == Step(RunComponents(ctx, hand, t, comps), raw, c, hand, key, ctx.zero)
  {
    assert (comps + [(raw, c)])[..|comps|] == comps;
  }

  /** The run over the components up to and including the i-th, when that
      one's lookup throws, is the whole run, and it has thrown. */
  lemma RunComponentsThrowsAt<V>(ctx: Ctx<V>, hand: Hand, t: HandState<V>, comps: seq<(string, Component<V>)>, i: nat)
    requires i < |comps|
    requires !RunComponents(ctx, hand, t, comps[..i]).fault
    requires KeyOf(ctx, hand, comps[i].0) == TypeError
    ensures RunComponents(ctx, hand, t, comps) == RunComponents(ctx, hand, t, comps[..i]).(fault := true)
  {
    assert comps[..i + 1][..i] == comps[..i];
    RunComponentsStopsAtFault(ctx, hand, t, comps, i + 1);
  }

  /** The run up to and including the i-th component, when that one's lookup
      succeeds, is the run before it followed by its diff step. */
  lemma RunComponentsAt<V>(ctx: Ctx<V>, hand: Hand, t: HandState<V>, comps: seq<(string, Component<V>)>, i: nat, key: Key)
    requires i < |comps|
    requires !RunComponents(ctx, hand, t, comps[..i]).fault
    requires KeyOf(ctx, hand, comps[i].0) == Mapped(key)
    ensures RunComponents(ctx, hand, t, comps[..i + 1])
      == Step(RunComponents(ctx, hand, t, comps[..i]), comps[i].0, comps[i].1, hand, key, ctx.zero)
  {
    assert comps[..i + 1] == comps[..i] + [comps[i]];
    RunComponentsSnoc(ctx, hand, t, comps[..i], comps[i].0, comps[i].1, key);
  }

  /** A diff step taken after a longer history appends the same events to
      it and leaves the same table. */
  lemma StepAfterHistory<V>(prior: Run<V>, hist: seq<Event<V>>, raw: string, c: Component<V>, hand: Hand, key: Key, zero: V)
    ensures var next := Step(prior, raw, c, hand, key, zero);
      Step(Run(prior.table, hist + prior.events, false), raw, c, hand, key, zero)
      == Run(next.table, hist + next.events, false)
  {
    var prev := if key in prior.table then Some(prior.table[key]) else None;
    AppendTwice(hist, prior.events, Compare(prev, raw, c, hand, key, zero).1);
  }

  /** A run over two components whose lookups succeed is two diff steps. */
  lemma RunComponentsTwo<V>(ctx: Ctx<V>, hand: Hand, t: HandState<V>,
                            x: (string, Component<V>), y: (string, Component<V>), kx: Key, ky: Key)
    requires KeyOf(ctx, hand, x.0) == Mapped(kx) && KeyOf(ctx, hand, y.0) == Mapped(ky)
    ensures RunComponents(ctx, hand, t, [x, y])
      == Step(Step(Run(t, [], false), x.0, x.1, hand, kx, ctx.zero), y.0, y.1, hand, ky, ctx.zero)
  {
    assert [x][..0] == [];
    assert RunComponents(ctx, hand, t, [x]) == Step(Run(t, [], false), x.0, x.1, hand, kx, ctx.zero);
    assert [x, y][..1] == [x];
  }

  /** Two button components whose raw names the hand's table does not list,
      both reading `false`, with values a and b. */
  function UnlistedPair<V>(raw1: string, raw2: string, zero: V, a: V, b: V): seq<(string, Component<V>)> {
    [(raw1, Component(Button, a, false, zero, zero)), (raw2, Component(Button, b, false, zero, zero))]
  }

  /** The diff steps of the pair's first tick: the first component creates
      the undefined key's record, the second overwrites its value. */
  lemma UnlistedPairFirstSteps<V>(hand: Hand, raw1: string, raw2: string, zero: V, a: V, b: V)
    requires a != b
    ensures
      var s0: Run<V> := Run(map[], [], false);
      var s1 := Step(s0, raw1, Component(Button, a, false, zero, zero), hand, None, zero);
      Step(s1, raw2, Component(Button, b, false, zero, zero), hand, None, zero)
      == Run(map[None := Record(b, false, raw1, None, None)], [ValueChange(hand, None, b), Change], false)
  {
    var s0: Run<V> := Run(map[], [], false);
    var c1 := Component(Button, a, false, zero, zero);
    var c2 := Component(Button, b, false, zero, zero);
    var t1: HandState<V> := map[None := Record(a, false, raw1, None, None)];
    var s1 := Step(s0, raw1, c1, hand, None, zero);
    assert s1 == Run(t1, [], false) by {
      StepFirstSightWithoutAxes(s0, raw1, c1, hand, None, zero);
    }
    StepValueMoved(s1, raw2, c2, hand, None, zero);
    assert t1[None := Record(b, false, raw1, None, None)] == map[None := Record(b, false, raw1, None, None)];
  }

  /** The diff steps of a later tick: each component differs from the record
      the other one left, so both value events fire. */
  lemma UnlistedPairNextSteps<V>(hand: Hand, raw1: string, raw2: string, zero: V, a: V, b: V)
    requires a != b
    ensures
      var t := map[None := Record(b, false, raw1, None, None)];
      var s1 := Step(Run(t, [], false), raw1, Component(Button, a, false, zero, zero), hand, None, zero);
      Step(s1, raw2, Component(Button, b, false, zero, zero), hand, None, zero)
      == Run(t, [ValueChange(hand, None, a), Change, ValueChange(hand, None, b), Change], false)
  {
    var c1 := Component(Button, a, false, zero, zero);
    var c2 := Component(Button, b, false, zero, zero);
    var t: HandState<V> := map[None := Record(b, false, raw1, None, None)];
    var t1 := map[None := Record(a, false, raw1, None, None)];
    var s0 := Run(t, [], false);
    var s1 := Step(s0, raw1, c1, hand, None, zero);
    assert s1 == Run(t1, [ValueChange(hand, None, a), Change], false) by {
      StepValueMoved(s0, raw1, c1, hand, None, zero);
      assert t[None := Record(a, false, raw1, None, None)] == t1;
    }
    StepValueMoved(s1, raw2, c2, hand, None, zero);
    assert t1[None := Record(b, false, raw1, None, None)] == t;
    assert [ValueChange(hand, None, a), Change] + [ValueChange(hand, None, b), Change]
      == [ValueChange(hand, None, a), Change, ValueChange(hand, None, b), Change];
  }

  /** First tick of the pair: the undefined key is created from the first
      component, then the second one overwrites its value. */
  lemma UnlistedPairFirstTick<V>(p: Profile, hand: Hand, raw1: string, raw2: string, zero: V, a: V, b: V)
    requires hand in p && raw1 !in p[hand] && raw2 !in p[hand]
    requires a != b
    ensures RunComponents(Ctx(true, Some(p), zero), hand, map[], UnlistedPair(raw1, raw2, zero, a, b))
      == Run(map[None := Record(b, false, raw1, None, None)], [ValueChange(hand, None, b), Change], false)
  {
    RunComponentsTwo(Ctx(true, Some(p), zero), hand, map[], (raw1, Component(Button, a, false, zero, zero)),
                     (raw2, Component(Button, b, false, zero, zero)), None, None);
    UnlistedPairFirstSteps(hand, raw1, raw2, zero, a, b);
  }

  /** Later ticks of the pair: both value events fire again. */
  lemma UnlistedPairNextTick<V>(p: Profile, hand: Hand, raw1: string, raw2: string, zero: V, a: V, b: V)
    requires hand in p && raw1 !in p[hand] && raw2 !in p[hand]
    requires a != b
    ensures
      var t := map[None := Record(b, false, raw1, None, None)];
      RunComponents(Ctx(true, Some(p), zero), hand, t, UnlistedPair(raw1, raw2, zero, a, b))
      == Run(t, [ValueChange(hand, None, a), Change, ValueChange(hand, None, b), Change], false)
  {
    RunComponentsTwo(Ctx(true, Some(p), zero), hand, map[None := Record(b, false, raw1, None, None)],
                     (raw1, Component(Button, a, false, zero, zero)),
                     (raw2, Component(Button, b, false, zero, zero)), None, None);
    UnlistedPairNextSteps(hand, raw1, raw2, zero, a, b);
  }

  /** Two raw names that a hand's table does not list share the undefined
      key: the second overwrites the first's baseline, so re-submitting the
      same two readouts fires again on every tick. */
  lemma SharedUndefinedKeyRefires<V>(p: Profile, hand: Hand, raw1: string, raw2: string, zero: V, a: V, b: V)
    requires hand in p && raw1 !in p[hand] && raw2 !in p[hand]
    requires a != b
    ensures
      var ctx := Ctx(true, Some(p), zero);
      var comps := UnlistedPair(raw1, raw2, zero, a, b);
      var first := RunComponents(ctx, hand, map[], comps);
      && !first.fault
      && RunComponents(ctx, hand, first.table, comps).events
         == [ValueChange(hand, None, a), Change, ValueChange(hand, None, b), Change]
  {
    UnlistedPairFirstTick(p, hand, raw1, raw2, zero, a, b);
    UnlistedPairNextTick(p, hand, raw1, raw2, zero, a, b);
  }
}
