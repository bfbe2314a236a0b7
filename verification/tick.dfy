/** One pass of updateControls over the bound hands, after the device type
    is resolved: each hand with a motion controller gets its table (created
    empty on first sight) and its components diffed in enumeration order. */
module Tick {
  import opened Wrappers
  import opened Registry
  import opened Events
  import opened Diff

  /** The helper's `state`: one table of baselines per hand. */
  type State<V> = map<Hand, HandState<V>>

  /** A snapshot of the motion controllers this tick; a hand that is absent
      has a null motionController. */
  type Snapshot<V> = map<Hand, MotionController<V>>

  /** The result of a tick: the new state, the events dispatched and whether
      a lookup threw. */
  datatype TickRun<V> = TickRun(state: State<V>, events: seq<Event<V>>, fault: bool)

  /** The hand's table, or the empty table created on its first visit. */
  function BaseOf<V>(st: State<V>, h: Hand): (r: HandState<V>)
    ensures h in st ==> r == st[h]
    ensures h !in st ==> r == map[]
  {
    if h in st then st[h] else map[]
  }

  /** The outer loop over the bound hands, in binding order: a hand without
      a motion controller is skipped, and a throw ends the tick after the
      thrower's table has been created. */
  function RunTick<V(==)>(ctx: Ctx<V>, st: State<V>, hands: seq<Hand>, snap: Snapshot<V>): (r: TickRun<V>)
    // with names unmapped a tick never throws
    ensures r.fault ==> ctx.useMaps
    decreases |hands|
  {
    if hands == [] then TickRun(st, [], false)
    else
      var prior := RunTick(ctx, st, hands[..|hands| - 1], snap);
      var h := hands[|hands| - 1];
      if prior.fault || h !in snap then prior
      else
        var run := RunComponents(ctx, h, BaseOf(prior.state, h), snap[h].components);
        TickRun(prior.state[h := run.table], prior.events + run.events, run.fault)
  }

  /** Once a prefix of the hands has thrown, the rest of the tick does not
      run. */
  lemma {:induction false} RunTickStopsAtFault<V>(ctx: Ctx<V>, st: State<V>, hands: seq<Hand>, snap: Snapshot<V>, n: nat)
    requires n <= |hands|
    requires RunTick(ctx, st, hands[..n], snap).fault
    ensures RunTick(ctx, st, hands, snap) == RunTick(ctx, st, hands[..n], snap)
    decreases |hands| - n
  {
    if n == |hands| {
      assert hands[..n] == hands;
    } else {
      var init := hands[..|hands| - 1];
      assert init[..n] == hands[..n];
      RunTickStopsAtFault(ctx, st, init, snap, n);
    }
  }

  /** The tick over the first i + 1 hands is the tick over the first i
      followed by the visit of hand i. */
  lemma RunTickAt<V>(ctx: Ctx<V>, st: State<V>, hands: seq<Hand>, snap: Snapshot<V>, i: nat)
    requires i < |hands|
    ensures var prior := RunTick(ctx, st, hands[..i], snap);
      var h := hands[i];
      RunTick(ctx, st, hands[..i + 1], snap)
      == if prior.fault || h !in snap then prior
         else
           var run := RunComponents(ctx, h, BaseOf(prior.state, h), snap[h].components);
           TickRun(prior.state[h := run.table], prior.events + run.events, run.fault)
  {
    assert hands[..i + 1][..i] == hands[..i];
  }

  /** No element occurs twice. */
  predicate Distinct<T(==)>(s: seq<T>) {
    forall i, j :: 0 <= i < j < |s| ==> s[i] != s[j]
  }

  /** A tick keeps every hand's table and adds tables only for hands of the
      list that have a motion controller. */
  lemma {:induction false} RunTickKeys<V>(ctx: Ctx<V>, st: State<V>, hands: seq<Hand>, snap: Snapshot<V>)
    ensures var r := RunTick(ctx, st, hands, snap);
      && st.Keys <= r.state.Keys
      && forall h :: h in r.state && h !in st ==> h in hands && h in snap
    decreases |hands|
  {
    if hands != [] {
      var init := hands[..|hands| - 1];
      RunTickKeys(ctx, st, init, snap);
      forall h | h in init
        ensures h in hands
      {
        var i :| 0 <= i < |init| && init[i] == h;
        assert hands[i] == h;
      }
    }
  }

  /** A tick over the bound hands creates tables only for bound hands. */
  lemma RunTickStaysBound<V>(ctx: Ctx<V>, st: State<V>, hands: seq<Hand>, snap: Snapshot<V>, bound: set<Hand>)
    requires forall h :: h in hands ==> h in bound
    requires st.Keys <= bound
    ensures RunTick(ctx, st, hands, snap).state.Keys <= bound
  {
    RunTickKeys(ctx, st, hands, snap);
  }

  /** A hand outside the tick's list, or without a motion controller, keeps
      its table. */
  lemma {:induction false} RunTickSkips<V>(ctx: Ctx<V>, st: State<V>, hands: seq<Hand>, snap: Snapshot<V>, h: Hand)
    requires h !in hands || h !in snap
    ensures var r := RunTick(ctx, st, hands, snap);
      (h in r.state <==> h in st) && (h in st ==> r.state[h] == st[h])
    decreases |hands|
  {
    if hands != [] {
      RunTickSkips(ctx, st, hands[..|hands| - 1], snap, h);
    }
  }

  /** The diff never dispatches the ready event. */
  lemma AnnounceNoReady<V>(hand: Hand, key: Key, c: Component<V>, s: bool, v: bool, a: bool)
    ensures ReadyCount(Announce(hand, key, c, s, v, a)) == 0
  {
    var evs := Announce(hand, key, c, s, v, a);
    forall i | 0 <= i < |evs|
      ensures !evs[i].Ready?
    {
      assert Rank(evs[i]) <= Rank(evs[|evs| - 1]);
    }
    ReadyCountNone(evs);
  }

  /** No ready event in one component's diff. */
  lemma CompareNoReady<V>(prev: Option<Record<V>>, raw: string, c: Component<V>, hand: Hand, key: Key, zero: V)
    ensures ReadyCount(Compare(prev, raw, c, hand, key, zero).1) == 0
  {
    var base := if prev.Some? then prev.value else Baseline(raw, c, zero);
    AnnounceNoReady(hand, key, c, base.btnState != c.state, base.btnValue != c.button,
      HasAxes(c.kind) && (base.xAxis != Some(c.xAxis) || base.yAxis != Some(c.yAxis)));
  }

  /** No ready event in one hand's run. */
  lemma {:induction false} RunComponentsNoReady<V>(
    ctx: Ctx<V>, hand: Hand, hs: HandState<V>, comps: seq<(string, Component<V>)>)
    ensures ReadyCount(RunComponents(ctx, hand, hs, comps).events) == 0
    decreases |comps|
  {
    if comps != [] {
      var init := comps[..|comps| - 1];
      var prior := RunComponents(ctx, hand, hs, init);
      RunComponentsNoReady(ctx, hand, hs, init);
      var (raw, c) := comps[|comps| - 1];
      if !prior.fault && KeyOf(ctx, hand, raw).Mapped? {
        var key := KeyOf(ctx, hand, raw).key;
        var prev := if key in prior.table then Some(prior.table[key]) else None;
        CompareNoReady(prev, raw, c, hand, key, ctx.zero);
        ReadyCountAppend(prior.events, Compare(prev, raw, c, hand, key, ctx.zero).1);
      }
    }
  }

  /** No ready event in a tick. */
  lemma {:induction false} RunTickNoReady<V>(ctx: Ctx<V>, st: State<V>, hands: seq<Hand>, snap: Snapshot<V>)
    ensures ReadyCount(RunTick(ctx, st, hands, snap).events) == 0
    decreases |hands|
  {
    if hands != [] {
      var init := hands[..|hands| - 1];
      var prior := RunTick(ctx, st, init, snap);
      RunTickNoReady(ctx, st, init, snap);
      var h := hands[|hands| - 1];
      if !prior.fault && h in snap {
        var comps := snap[h].components;
        RunComponentsNoReady(ctx, h, BaseOf(prior.state, h), comps);
        ReadyCountAppend(prior.events, RunComponents(ctx, h, BaseOf(prior.state, h), comps).events);
      }
    }
  }

  /** The events a tick appends leave the number of ready events
      dispatched so far unchanged. */
  lemma RunTickDispatchesNoReady<V>(ctx: Ctx<V>, st: State<V>, hands: seq<Hand>, snap: Snapshot<V>, past: seq<Event<V>>)
    ensures ReadyCount(past + RunTick(ctx, st, hands, snap).events) == ReadyCount(past)
  {
    RunTickNoReady(ctx, st, hands, snap);
    ReadyCountAppend(past, RunTick(ctx, st, hands, snap).events);
  }

  /** When a tick over distinct hands does not throw, each hand with a motion
      controller ends with exactly the table its own run produced from the
      table it started with, and that run did not throw. */
  lemma {:induction false} RunTickHandTable<V>(ctx: Ctx<V>, st: State<V>, hands: seq<Hand>, snap: Snapshot<V>, h: Hand)
    requires Distinct(hands) && h in hands && h in snap
    requires !RunTick(ctx, st, hands, snap).fault
    ensures var run := RunComponents(ctx, h, BaseOf(st, h), snap[h].components);
      && !run.fault
      && h in RunTick(ctx, st, hands, snap).state
      && RunTick(ctx, st, hands, snap).state[h] == run.table
    decreases |hands|
  {
    var init := hands[..|hands| - 1];
    var last := hands[|hands| - 1];
    var prior := RunTick(ctx, st, init, snap);
    assert !prior.fault;
    if last == h {
      forall i | 0 <= i < |init|
        ensures init[i] != h
      {
        assert init[i] == hands[i];
      }
      RunTickSkips(ctx, st, init, snap, h);
      assert BaseOf(prior.state, h) == BaseOf(st, h);
    } else {
      assert h in init by {
        var i :| 0 <= i < |hands| && hands[i] == h;
        assert init[i] == h;
      }
      assert Distinct(init) by {
        forall i, j | 0 <= i < j < |init|
          ensures init[i] != init[j]
        {
          assert init[i] == hands[i] && init[j] == hands[j];
        }
      }
      RunTickHandTable(ctx, st, init, snap, h);
    }
  }

  /** Every hand of the list that has a motion controller already holds a
      table on which its run is quiet. */
  ghost predicate QuietFor<V>(ctx: Ctx<V>, s: State<V>, hands: seq<Hand>, snap: Snapshot<V>) {
    forall i :: 0 <= i < |hands| && hands[i] in snap ==>
      && hands[i] in s
      && RunComponents(ctx, hands[i], s[hands[i]], snap[hands[i]].components) == Run(s[hands[i]], [], false)
  }

  /** A tick over hands that are all quiet on the state fires nothing and
      changes nothing. */
  lemma {:induction false} RunTickQuietOn<V>(ctx: Ctx<V>, s: State<V>, hands: seq<Hand>, snap: Snapshot<V>, n: nat)
    requires n <= |hands|
    requires QuietFor(ctx, s, hands, snap)
    ensures RunTick(ctx, s, hands[..n], snap) == TickRun(s, [], false)
  {
    if n > 0 {
      RunTickQuietOn(ctx, s, hands, snap, n - 1);
      var pre := hands[..n];
      assert pre[..n - 1] == hands[..n - 1];
      var h := pre[n - 1];
      assert h == hands[n - 1];
      if h in snap {
        assert s[h := s[h]] == s;
      }
    }
  }

  /** Re-submitting the snapshot just processed, when the tick did not throw,
      the hands are distinct and no two components of a hand share a key,
      fires no event and changes no record. */
  lemma RunTickRepeatIsQuiet<V>(ctx: Ctx<V>, st: State<V>, hands: seq<Hand>, snap: Snapshot<V>)
    requires Distinct(hands)
    requires !RunTick(ctx, st, hands, snap).fault
    requires forall h :: h in snap ==> DistinctKeys(ctx, h, snap[h].components)
    ensures var s := RunTick(ctx, st, hands, snap).state;
      RunTick(ctx, s, hands, snap) == TickRun(s, [], false)
  {
    var s := RunTick(ctx, st, hands, snap).state;
    forall i | 0 <= i < |hands| && hands[i] in snap
      ensures hands[i] in s
      ensures RunComponents(ctx, hands[i], s[hands[i]], snap[hands[i]].components) == Run(s[hands[i]], [], false)
    {
      var h := hands[i];
      RunTickHandTable(ctx, st, hands, snap, h);
      RunComponentsRepeatIsQuiet(ctx, h, BaseOf(st, h), snap[h].components);
    }
    RunTickQuietOn(ctx, s, hands, snap, |hands|);
    assert hands[..|hands|] == hands;
  }
}
