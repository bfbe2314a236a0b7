/** The device registry: for each known device family, per hand, the table
    from raw WebXR component names to canonical names, and the table of
    device identifiers that are redirected to another family's tables. */
module Registry {

  /** Handedness of an input source; Unhanded is the WebXR handedness "none"
      (a single controller that is neither left nor right). */
  datatype Hand = Left | Right | Unhanded

  /** Raw component name -> canonical name, for one hand. */
  type HandTable = map<string, string>

  /** One device family's tables, by hand. */
  type Profile = map<Hand, HandTable>

  const OculusTouch: Profile := map[
    Left := map[
      "xr-standard-trigger" := "trigger",
      "xr-standard-squeeze" := "squeeze",
      "xr-standard-thumbstick" := "thumbstick",
      "x-button" := "btnPrimary",
      "y-button" := "btnSecondary",
      "thumbrest" := "btnSpecial"],
    Right := map[
      "xr-standard-trigger" := "trigger",
      "xr-standard-squeeze" := "squeeze",
      "xr-standard-thumbstick" := "thumbstick",
      "a-button" := "btnPrimary",
      "b-button" := "btnSecondary",
      "thumbrest" := "btnSpecial"]]

  const HtcVive: Profile := map[
    Left := map[
      "xr-standard-trigger" := "trigger",
      "xr-standard-squeeze" := "btnSecondary",
      "xr-standard-touchpad" := "btnPrimaryThumbstick"],
    Right := map[
      "xr-standard-trigger" := "trigger",
      "xr-standard-squeeze" := "squeeze",
      "xr-standard-touchpad" := "btnPrimaryThumbstick"]]

  const MicrosoftMixedReality: Profile := map[
    Left := map[
      "xr-standard-trigger" := "btnPrimary",
      "xr-standard-squeeze" := "squeeze",
      "xr-standard-touchpad" := "touchpad",
      "xr-standard-thumbstick" := "thumbstick"],
    Right := map[
      "xr-standard-trigger" := "btnPrimary",
      "xr-standard-squeeze" := "squeeze",
      "xr-standard-touchpad" := "touchpad",
      "xr-standard-thumbstick" := "thumbstick"]]

  const ValveIndex: Profile := map[
    Left := map[
      "xr-standard-squeeze" := "squeeze",
      "xr-standard-touchpad" := "touchpad",
      "xr-standard-thumbstick" := "thumbstick",
      "xr-standard-trigger" := "btnSecondary",
      "a-button" := "btnPrimary"],
    Right := map[
      "xr-standard-squeeze" := "squeeze",
      "xr-standard-touchpad" := "touchpad",
      "xr-standard-thumbstick" := "thumbstick",
      "xr-standard-trigger" := "btnSecondary",
      "a-button" := "btnPrimary"]]

  /** Device-type identifier -> the family's tables. */
  const ControllerMaps: map<string, Profile> := map[
    "oculus-touch" := OculusTouch,
    "htc-vive" := HtcVive,
    "microsoft-mixed-reality" := MicrosoftMixedReality,
    "valve-index" := ValveIndex]

  /** Device-type identifier -> the identifier whose tables it shares. */
  const ControllerMapAliases: map<string, string> := map[
    "samsung-odyssey" := "microsoft-mixed-reality",
    "htc-vive-cosmos" := "oculus-touch",
    "oculus-touch-v2" := "oculus-touch",
    "htc-vive-focus-plus" := "htc-vive"]

  /** No two raw names of one hand's table share a canonical name. */
  predicate Injective(t: HandTable) {
    forall r1, r2 :: r1 in t && r2 in t && r1 != r2 ==> t[r1] != t[r2]
  }

  /** The identifiers that have their own tables. */
  lemma ProfileIdentifiers()
    ensures ControllerMaps.Keys == {"oculus-touch", "htc-vive", "microsoft-mixed-reality", "valve-index"}
  {
  }

  /** The identifiers that are redirected. */
  lemma AliasIdentifiers()
    ensures ControllerMapAliases.Keys == {"samsung-odyssey", "htc-vive-cosmos", "oculus-touch-v2", "htc-vive-focus-plus"}
  {
  }

  /** Every alias names a direct profile, and that profile is not itself an
      alias: exactly one level of indirection. No alias is a direct profile. */
  lemma AliasesPointAtProfiles()
    ensures forall a :: a in ControllerMapAliases ==>
      ControllerMapAliases[a] in ControllerMaps && ControllerMapAliases[a] !in ControllerMapAliases
    ensures forall a :: a in ControllerMapAliases ==> a !in ControllerMaps
  {
    ProfileIdentifiers();
    AliasIdentifiers();
  }

  /** Every direct profile has a left and a right table and nothing else;
      in particular there is no table for the handedness "none". */
  lemma ProfilesAreTwoHanded()
    ensures forall t :: t in ControllerMaps ==> ControllerMaps[t].Keys == {Left, Right}
  {
    ProfileIdentifiers();
  }

  lemma OculusTouchInjective()
    ensures Injective(OculusTouch[Left]) && Injective(OculusTouch[Right])
  {
  }

  lemma HtcViveInjective()
    ensures Injective(HtcVive[Left]) && Injective(HtcVive[Right])
  {
  }

  lemma MicrosoftMixedRealityInjective()
    ensures Injective(MicrosoftMixedReality[Left]) && Injective(MicrosoftMixedReality[Right])
  {
  }

  lemma ValveIndexInjective()
    ensures Injective(ValveIndex[Left]) && Injective(ValveIndex[Right])
  {
  }

  /** Within every hand table, canonical names are unique. */
  lemma HandTablesAreInjective()
    ensures forall t, h :: t in ControllerMaps && h in ControllerMaps[t] ==> Injective(ControllerMaps[t][h])
  {
    forall t, h | t in ControllerMaps && h in ControllerMaps[t]
      ensures Injective(ControllerMaps[t][h])
    {
      ProfileIdentifiers();
      ProfilesAreTwoHanded();
      if t == "oculus-touch" {
        OculusTouchInjective();
      } else if t == "htc-vive" {
        HtcViveInjective();
      } else if t == "microsoft-mixed-reality" {
        MicrosoftMixedRealityInjective();
      } else {
        ValveIndexInjective();
      }
    }
  }
}
