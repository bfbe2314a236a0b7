/** Device-type resolution at the top of updateControls: while the helper's
    controllerType is falsy, probe the bound hands for a motion controller,
    take its identifier, reject alias-only identifiers, and select the
    profile that the diff engine maps names with. */
module Resolution {
  import opened Wrappers
  import opened Registry
  import opened Diff
  import opened Tick

  /** JavaScript truthiness of controllerType: null and "" are falsy. */
  predicate Truthy(t: Option<string>): (b: bool)
    ensures t.None? ==> !b
    ensures t == Some("") ==> !b
    ensures t.Some? && |t.value| > 0 ==> b
  {
    t.Some? && t.value != ""
  }

  /** The order in which hands are probed: left, right, then none. */
  function Priority(h: Hand): nat {
    match h
    case Left => 0
    case Right => 1
    case Unhanded => 2
  }

  /** The first bound hand, in probing order, whose motion controller is not
      null; None when there is none. */
  function ProbedHand<V>(bound: set<Hand>, snap: Snapshot<V>): (h: Option<Hand>)
    ensures h.None? <==> forall g :: g in bound ==> g !in snap
    ensures h.Some? ==> h.value in bound && h.value in snap
    ensures h.Some? ==> forall g :: g in bound && g in snap ==> Priority(h.value) <= Priority(g)
  {
    assert forall g :: g in bound ==> g == Left || g == Right || g == Unhanded;
    if Left in bound && Left in snap then Some(Left)
    else if Right in bound && Right in snap then Some(Right)
    else if Unhanded in bound && Unhanded in snap then Some(Unhanded)
    else None
  }

  /** The identifier of that hand's motion controller. */
  function Probe<V>(bound: set<Hand>, snap: Snapshot<V>): (id: Option<string>)
    ensures id.None? <==> forall g :: g in bound ==> g !in snap
    ensures id.Some? ==>
      exists h :: h in bound && h in snap && snap[h].id == id.value &&
        (forall g :: g in bound && g in snap ==> Priority(h) <= Priority(g))
  {
    match ProbedHand(bound, snap)
    case Some(h) => Some(snap[h].id)
    case None => None
  }

  /** How updateControls carries on after resolution: into the diff loops,
      returning early, or throwing in the branch that reads the helper's
      missing alias table. */
  datatype Gate = Proceed | Stop | Throw

  /** The controllerType and profile after resolution, and the gate. */
  datatype Resolved = Resolved(controllerType: Option<string>, controllerMap: Option<Profile>, gate: Gate)

  /** The identifier the checks look at: the probed one, or the old value
      when no hand reports a motion controller. */
  function Candidate<V>(ct: Option<string>, bound: set<Hand>, snap: Snapshot<V>): (t: Option<string>)
    // the old value survives only when no bound hand reports a motion controller
    ensures (forall g :: g in bound ==> g !in snap) ==> t == ct
    ensures !(forall g :: g in bound ==> g !in snap) ==> t == Probe(bound, snap) && t.Some?
  {
    match Probe(bound, snap)
    case Some(id) => Some(id)
    case None => ct
  }

  /** The guard of updateControls: an identifier that is an alias and not a
      direct profile (a null one is neither). */
  predicate AliasOnly(t: Option<string>): (b: bool)
    // exactly the registered aliases are rejected ...
    ensures b <==> t.Some? && t.value in ControllerMapAliases
    // ... although each of them names a registered profile
    ensures b ==> ControllerMapAliases[t.value] in ControllerMaps
  {
    AliasesPointAtProfiles();
    t.Some? && t.value !in ControllerMaps && t.value in ControllerMapAliases
  }

  /** The profile registered for a device type, None for null or an
      identifier that is not a direct profile. */
  function ProfileOf(t: Option<string>): Option<Profile> {
    if t.Some? && t.value in ControllerMaps then Some(ControllerMaps[t.value]) else None
  }

  /** The resolution block and the early return after it. */
  function Resolve<V>(ct: Option<string>, cmap: Option<Profile>, bound: set<Hand>, snap: Snapshot<V>): (r: Resolved)
    // once controllerType is truthy, resolution never runs again
    ensures Truthy(ct) ==> r == Resolved(ct, cmap, Proceed)
    // the alias branch of the profile selection cannot be reached
    ensures r.gate != Throw
    // an alias-only identifier resets controllerType and returns
    ensures !Truthy(ct) && AliasOnly(Candidate(ct, bound, snap)) ==> r == Resolved(None, cmap, Stop)
    // a direct profile is selected exactly
    ensures !Truthy(ct) && Candidate(ct, bound, snap).Some? && Candidate(ct, bound, snap).value in ControllerMaps ==>
      r == Resolved(Candidate(ct, bound, snap), Some(ControllerMaps[Candidate(ct, bound, snap).value]), Proceed)
    // any other identifier is kept, without a profile, and passes when truthy
    ensures (!Truthy(ct) && !AliasOnly(Candidate(ct, bound, snap)) &&
             (Candidate(ct, bound, snap).None? || Candidate(ct, bound, snap).value !in ControllerMaps)) ==>
      r == Resolved(Candidate(ct, bound, snap), cmap,
                    if Truthy(Candidate(ct, bound, snap)) then Proceed else Stop)
  {
    if Truthy(ct) then Resolved(ct, cmap, Proceed)
    else
      var t := Candidate(ct, bound, snap);
      if AliasOnly(t) then Resolved(None, cmap, Stop)
      else if t.Some? && t.value in ControllerMaps then
        Resolved(t, Some(ControllerMaps[t.value]), if Truthy(t) then Proceed else Stop)
      else if t.Some? && t.value in ControllerMapAliases then Resolved(t, cmap, Throw)
      else Resolved(t, cmap, if Truthy(t) then Proceed else Stop)
  }

  /** Resolution keeps the profile the one registered for the device type,
      and never changes a type that is already truthy. */
  lemma ResolveKeepsProfile<V>(ct: Option<string>, cmap: Option<Profile>, bound: set<Hand>, snap: Snapshot<V>)
    requires cmap == ProfileOf(ct)
    ensures var r := Resolve(ct, cmap, bound, snap);
      && r.controllerMap == ProfileOf(r.controllerType)
      && (Truthy(ct) ==> r.controllerType == ct)
      && (r.gate == Proceed <==> Truthy(r.controllerType))
  {
  }

  /** Every alias in the registry is rejected: the identifiers the alias
      table was written for never get a profile. */
  lemma AliasIdentifiersNeverResolve<V>(id: string, cmap: Option<Profile>, bound: set<Hand>, snap: Snapshot<V>)
    requires Probe(bound, snap) == Some(id) && id in ControllerMapAliases
    ensures Resolve(None, cmap, bound, snap) == Resolved(None, cmap, Stop)
  {
    AliasesPointAtProfiles();
  }

  /** An identifier in neither table passes the guard with no profile, so
      with mapping on every lookup of the diff throws. */
  lemma UnknownIdentifierThrowsLater<V>(id: string, bound: set<Hand>, snap: Snapshot<V>, hand: Hand, raw: string, zero: V)
    requires Probe(bound, snap) == Some(id) && id != ""
    requires id !in ControllerMaps && id !in ControllerMapAliases
    ensures var r := Resolve(None, None, bound, snap);
      && r == Resolved(Some(id), None, Proceed)
      && KeyOf(Ctx(true, r.controllerMap, zero), hand, raw) == TypeError
  {
  }
}
