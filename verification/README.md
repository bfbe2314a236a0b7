# webxr-controller-helper in Dafny

A model of `ControllerHelper`, the object that turns the WebXR gamepad
components of a VR session into named, per-hand button events on the page.

The helper keeps a registry of controller families (`controllerMaps`). Each
family has a table per hand that maps the raw WebXR component name
(`xr-standard-trigger`, `a-button`, …) to a canonical name (`trigger`,
`btnPrimary`, …). It also has an alias table (`controllerMapAliases`) that is
meant to send one device type to another.

Once per frame, `updateControls` does two things:

1. **Resolution.** While the device type is unknown, it probes the bound
   hands in the order left, right, none and takes the first motion
   controller's identifier. It rejects identifiers that are only aliases and
   selects the profile.
2. **Diff.** It diffs every component of every bound hand against a
   per-hand, per-canonical-name baseline. It fires a state, value or axis
   event for each field that moved, then one generic change event.

`assignController` records each hand as it connects. From the input source
with index `totalInputs - 1` on (the next-to-last source, since
`totalInputs` is the number of sources minus one), each connection starts a
poll that announces readiness once.

## Module layout

| file | module | contents |
|---|---|---|
| `wrappers.dfy` | `Wrappers` | `Option` |
| `registry.dfy` | `Registry` | handedness, the four profiles, the alias table, and facts about them |
| `events.dfy` | `Events` | state keys, the event datatype, the `*Thumbstick` renaming, and counting ready events |
| `diff.dfy` | `Diff` | the name lookup, baselines, one component's comparison and events, and the run over one hand's components |
| `tick.dfy` | `Tick` | the run over all bound hands in one frame |
| `resolution.dfy` | `Resolution` | device-type resolution and the guard before the diff |
| `helper.dfy` | `Helper` | the `ControllerHelper` class: fields updated in place, and methods with the source's loops proved against the functions above |

### Modelling choices

- **Readings.** Button values and axis readings are a type parameter `V`
  that supports only equality; the helper only ever compares them with
  `!==`. The literal `0` used as the axis baseline is the class constant
  `zero`. A component's `state` is a boolean.
- **Hands.** The handedness `none` is `Unhanded`.
- **State keys.** A state key is an `Option<string>`: `None` is the
  `undefined` that the table lookup yields for a raw name the hand's table
  does not list. That key is then used like any other.
- **Snapshots.** What the grips' `children[0].motionController` hold in one
  frame is a map from hand to motion controller. A hand that is absent has a
  null motion controller. Components are listed in enumeration order.
- **TypeError.** The TypeError that the lookup at line 184 throws (no
  profile, or a profile without a table for the hand) is a `thrown`/`fault`
  result. Baselines created and events dispatched before the throw remain.
- **Events.** The events are an accumulated sequence, `dispatched`.
- **Class and functions.** `ControllerHelper` is a class whose methods
  assign its fields. The loops of `updateControls` are methods with loop
  invariants. Each is proved equal to the functions `Resolve`, `RunTick`,
  `RunComponents` and `Compare`, and the properties are proved about those
  functions.
- **Device type.** `controllerType` is an `Option<string>`, and
  JavaScript's falsiness of `null` and `""` is `Truthy`.

The code as written differs from its evident intent in a few places. The
model follows the code; the lemmas that show each difference are in the
table.

- **The guard at line 158 is inverted.** It rejects every alias and lets
  through an identifier found in neither table. Such an identifier has no
  profile, so every lookup of the diff then throws.
- **Line 167 is dead code.** It reads a `controllerMapAliases` field the
  helper does not have. Because of the guard it can never run, so the alias
  table is never used.
- **The poll starts one connection early.** `setupControllers` stores the
  number of input sources minus one in `totalInputs`, and `index + 1 >=
  totalInputs` already holds at the second-to-last index.
- **Raw names missing from the hand's table share the key `undefined`.** A
  later one updates the value, state and axes of the record the first one
  created, which keeps the first one's `xrInputName`. When their readouts
  differ, their events therefore fire again on every frame, even with
  nothing pressed; equal readouts stay quiet.

## Model

| member | source | states |
|---|---|---|
| Registry.ProfileIdentifiers | src/index.js:4-65 | the profiles are exactly oculus-touch, htc-vive, microsoft-mixed-reality and valve-index |
| Registry.AliasIdentifiers | src/index.js:67-72 | the aliases are exactly samsung-odyssey, htc-vive-cosmos, oculus-touch-v2 and htc-vive-focus-plus |
| Registry.AliasesPointAtProfiles | src/index.js:4-72 | every alias target is a direct profile that is not itself an alias (one level of indirection), and no alias is a direct profile |
| Registry.ProfilesAreTwoHanded | src/index.js:4-65 | every profile has a left and a right table and no table for "none" |
| Registry.OculusTouchInjective | src/index.js:5-21 | no two raw names of an oculus-touch hand table share a canonical name |
| Registry.HtcViveInjective | src/index.js:22-33 | no two raw names of an htc-vive hand table share a canonical name |
| Registry.MicrosoftMixedRealityInjective | src/index.js:34-47 | no two raw names of a microsoft-mixed-reality hand table share a canonical name |
| Registry.ValveIndexInjective | src/index.js:48-64 | no two raw names of a valve-index hand table share a canonical name |
| Registry.HandTablesAreInjective | src/index.js:4-65 | within every hand table of every profile, canonical names are unique |
| Events.EventName | src/index.js:226-229 | exactly the three composite names lose their "Thumbstick" suffix; every other key, undefined included, is reported unchanged |
| Events.EventNameIdempotent | src/index.js:240-243 | renaming an already renamed name changes nothing |
| Events.ReadyCountAppend | src/index.js:137 | the number of ready events in a history adds up over concatenation |
| Diff.KeyOf | src/index.js:183-184 | the lookup throws exactly when mapping is on and the profile is null or has no table for the hand; unmapped, the raw name is the key; mapped, the key is undefined exactly when the hand's table does not list the raw name |
| Diff.Baseline | src/index.js:186-197 | the record created on first sight copies value and state, records the raw name, has axes exactly for thumbstick and touchpad, and already matches the readout unless an axis reads other than 0 |
| Diff.Step | src/index.js:186-268 | one component's diff never throws and leaves a record under the component's key that holds its readout |
| Diff.RunComponents | src/index.js:179-270 | with names unmapped a hand's run never throws, and no record is ever removed |
| Diff.RegisteredKeysDistinct | src/index.js:4-65 | with a registered profile, left or right components with distinct raw names listed in the hand's table have distinct keys, so the repeat-is-quiet lemmas apply to them |
| Diff.KeyOfRegisteredProfile | src/index.js:183-184 | with a registered profile, left and right names map to exactly the registry's canonical name or to undefined, and every lookup for "none" throws |
| Diff.KeyOfWithoutProfile | src/index.js:184 | with mapping on and a null profile, every lookup throws |
| Diff.StepTable | src/index.js:186-222 | a diff step stores the readout under the unrenamed key, adds only that key, keeps every other record and only appends events |
| Diff.Announce | src/index.js:224-268 | a component fires no event exactly when none of state, value and axis changed |
| Diff.AnnounceShape | src/index.js:224-268 | a component's events come in the order state, value, axis, each at most once, followed by one generic change exactly when any fired; each specific event fires iff its flag is set; every event is the generic change or carries this hand, the renamed key and the current readout (the axis event carries both axes) |
| Diff.Compare | src/index.js:186-222 | the updated record holds the readout (axes only for thumbstick and touchpad), keeps the first raw name, is unchanged when the readout matches it, and a stored record fires nothing iff it matches |
| Diff.CompareEvents | src/index.js:186-268 | against a stored record the events are Announce's for the flags "state differs", "value differs" and "an axis of a thumbstick or touchpad differs", so each specific event fires iff its field differs; on first sight only an axis event can fire, iff an axis is not 0 |
| Diff.FirstSightEvents | src/index.js:194-197 | on first sight the events are an axis event and a change event when an axis is not 0, and nothing otherwise |
| Diff.StepValueMoved | src/index.js:204-207 | a component without axes (trigger, squeeze, button) whose value moved and state did not updates only btnValue and fires one value event and one change event |
| Diff.StepFirstSightWithoutAxes | src/index.js:186-192 | a component without axes seen for the first time stores its readout and raw name and fires nothing |
| Diff.RunComponentsStopsAtFault | src/index.js:180-184 | once a lookup throws, the rest of the hand's components do nothing |
| Diff.RunComponentsFaults | src/index.js:180-184 | a hand's run throws exactly when one of its component lookups throws |
| Diff.RunComponentsNewKeys | src/index.js:186-187 | the only keys a run creates are the keys of its components |
| Diff.RunComponentsStores | src/index.js:180-222 | after a run that did not throw, over components with distinct keys, every component's record holds its current readout |
| Diff.RunComponentsQuietOn | src/index.js:200-224 | components whose records already hold their readouts fire nothing and change nothing |
| Diff.RunComponentsRepeatIsQuiet | src/index.js:180-270 | re-submitting the readout just processed fires nothing and changes no record |
| Diff.RunComponentsSnoc | src/index.js:180 | the components are diffed in enumeration order |
| Diff.RunComponentsThrowsAt | src/index.js:184 | a throwing lookup ends the run with the work done before it |
| Diff.RunComponentsAt | src/index.js:180-270 | each loop iteration is one diff step on the run so far |
| Diff.StepAfterHistory | src/index.js:230-268 | a diff step appends the same events whatever was dispatched before |
| Diff.RunComponentsTwo | src/index.js:180 | two components are two diff steps in order |
| Diff.UnlistedPairFirstSteps | src/index.js:184-211 | two unlisted names with different values: the second overwrites the first's undefined-key baseline and fires a value event |
| Diff.UnlistedPairNextSteps | src/index.js:184-211 | on a later frame both unlisted names fire value events again |
| Diff.UnlistedPairFirstTick | src/index.js:180-211 | the first frame of two unlisted names creates one undefined-key record |
| Diff.UnlistedPairNextTick | src/index.js:180-211 | every later frame with the same readouts fires both value events again |
| Diff.SharedUndefinedKeyRefires | src/index.js:184-198 | raw names missing from the hand's table share the undefined key, so an unchanged readout keeps firing |
| Tick.RunTick | src/index.js:173-271 | with names unmapped a frame never throws |
| Tick.BaseOf | src/index.js:177 | a hand's existing table is used, and a hand without one starts from an empty table |
| Tick.RunTickStopsAtFault | src/index.js:173-184 | once a hand's lookup throws, the remaining hands are not visited |
| Tick.RunTickAt | src/index.js:173-179 | each hand visit is the hand's component run on its table, created empty on first visit |
| Tick.RunTickKeys | src/index.js:175-177 | a frame keeps every hand's table and creates tables only for listed hands with a motion controller |
| Tick.RunTickStaysBound | src/index.js:173-177 | a frame over the bound hands creates tables only for bound hands |
| Tick.RunTickSkips | src/index.js:175 | a hand with a null motion controller, or not bound, keeps its table unchanged |
| Tick.AnnounceNoReady | src/index.js:224-268 | a component's events never include the ready event |
| Tick.CompareNoReady | src/index.js:186-268 | diffing one component never dispatches the ready event |
| Tick.RunComponentsNoReady | src/index.js:180-270 | a hand's run never dispatches the ready event |
| Tick.RunTickNoReady | src/index.js:173-271 | a frame never dispatches the ready event |
| Tick.RunTickDispatchesNoReady | src/index.js:173-271 | a frame leaves the number of ready events dispatched so far unchanged |
| Tick.RunTickHandTable | src/index.js:173-270 | with distinct hands and no throw, each hand with a motion controller ends with the table its own run produced |
| Tick.RunTickQuietOn | src/index.js:173-270 | hands whose records already hold their readouts make the frame fire nothing and change nothing |
| Tick.RunTickRepeatIsQuiet | src/index.js:173-271 | re-submitting the frame just processed fires nothing and changes no record |
| Resolution.ProbedHand | src/index.js:150-156 | no hand is chosen iff no bound hand has a motion controller; otherwise the chosen one is bound, has one, and comes first in the order left, right, none |
| Resolution.Truthy | src/index.js:149 | null and the empty identifier are falsy; every non-empty identifier is truthy |
| Resolution.Probe | src/index.js:150-156 | no identifier is taken iff no bound hand has a motion controller; otherwise it is the identifier of a bound hand's motion controller that comes first in the order left, right, none |
| Resolution.Candidate | src/index.js:149-156 | the old controllerType survives only when no bound hand has a motion controller; otherwise the probed identifier replaces it |
| Resolution.AliasOnly | src/index.js:158 | the guard rejects exactly the registered aliases, each of which names a registered profile |
| Resolution.Resolve | src/index.js:149-171 | a truthy type is never re-resolved; the alias branch never throws; an alias-only identifier resets the type to null and stops; a direct profile is selected exactly; any other identifier is kept without a profile and proceeds iff truthy |
| Resolution.ResolveKeepsProfile | src/index.js:149-171 | resolution keeps the profile equal to the registered profile of the type, never changes a truthy type, and proceeds exactly when the type is truthy |
| Resolution.AliasIdentifiersNeverResolve | src/index.js:158-167 | every alias identifier is rejected: the type returns to null and no profile is selected |
| Resolution.UnknownIdentifierThrowsLater | src/index.js:158-184 | an identifier in neither table passes the guard with no profile, and every lookup of the diff then throws |
| Helper.PollingStartsOneEarly | src/index.js:131 | with n input sources (totalInputs = n - 1, line 85), the poll starts exactly at indices n - 2 and above |
| Helper.ControllerHelper.constructor | src/index.js:74-81 | the helper's initial state: no bindings, null profile and type, mapping on, totalInputs 1, not ready, nothing dispatched |
| Helper.ControllerHelper.SetupControllers | src/index.js:83-85 | totalInputs becomes the number of input sources minus one |
| Helper.ControllerHelper.AssignController | src/index.js:124-131 | the hand's binding is recorded (a new hand joins the enumeration order), and a poll is started iff index + 1 >= totalInputs |
| Helper.ControllerHelper.PollReady | src/index.js:133-144 | the ready event fires only when the type is truthy and not yet ready, sets readiness and clears the poll; the invariant keeps the ready count at exactly one once ready, so it fires at most once |
| Helper.ControllerHelper.UpdateControls | src/index.js:148-272 | the new type and profile are those of Resolve, and when it proceeds the new state and appended events are those of RunTick over the bound hands in binding order; otherwise nothing else changes; the class invariant is kept |
| Helper.ControllerHelper.ResolveDeviceType | src/index.js:149-171 | the imperative resolution block computes exactly Resolve |
| Helper.ControllerHelper.UpdateHands | src/index.js:173-178 | the loop over the bound hands computes exactly RunTick |
| Helper.ControllerHelper.UpdateComponents | src/index.js:179-184 | the loop over one hand's components computes exactly RunComponents |
| Helper.ControllerHelper.MapName | src/index.js:183-184 | the map name is KeyOf's key, and the lookup throws exactly when KeyOf is a TypeError |
| Helper.ControllerHelper.DiffComponent | src/index.js:186-268 | one component's in-place update and dispatch is exactly one diff step |
| Helper.ControllerHelper.Refresh | src/index.js:200-222 | the record takes the readout, and each flag is set iff its field differed |
| Helper.ControllerHelper.Dispatch | src/index.js:224-268 | the events appended are Announce's |

## Left out

- Three.js visuals are not modelled: `buildControllerPointer`, the controller model factory, and grip and pointer creation in `setupControllers`. They are rendering work in libraries outside this model.
- The WebXR session and the `connected`/`disconnected` listeners are not modelled. A connection is an explicit call to `AssignController`. The disconnect handler only removes a visual child.
- Helper.ControllerHelper.SetupControllers: takes the number of input sources directly. Its `useMaps` argument is ignored by the source too, so `useMaps` is always true.
- Timers are not modelled: `setInterval`/`clearInterval` become a count of pending polls and one poll step, `PollReady`. The 300 ms period is not modelled.
- `document.dispatchEvent` becomes appending to `dispatched`.
- `console.error` at line 159 is logging only and is not modelled.
- Numeric properties of readings are not modelled; readings are compared only for equality.
- Records are values in a map, so the model has no reference identity for them.
- The ready event carries a copy of the bindings at the time it fires, where the source passes the live `_controllers` object.
- The difference between `undefined` and `null` for a missing motion controller is not modelled. Line 150 uses `!== null` and line 175 uses `== null`; a hand without a motion controller is simply absent from the snapshot.
- A grip without `children[0]` (a TypeError in the source) is not modelled.
- Raw or canonical names that collide with `Object.prototype` members are not modelled. The tables are plain maps.
