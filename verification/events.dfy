/** What the helper announces to the page: per-component change events, the
    generic change event and the one-time ready event, and the renaming of
    composite thumbstick names that events (but not the stored state) use. */
module Events {
  import opened Wrappers
  import opened Registry

  /** A key of the per-hand state. None is JavaScript's undefined, which the
      table lookup yields for a raw name the hand's table does not list. */
  type Key = Option<string>

  /** Canonical names that carry a thumbstick qualifier. */
  const Composites: set<string> := {"btnPrimaryThumbstick", "btnSecondaryThumbstick", "btnSpecialThumbstick"}

  /** The name an event reports for a state key: a composite name loses its
      "Thumbstick" suffix, every other key (undefined included) is kept. */
  function EventName(key: Key): (name: Key)
    ensures name != key <==> key.Some? && key.value in Composites
    ensures name != key ==> name.Some? && name.value + "Thumbstick" == key.value
  {
    if key == Some("btnPrimaryThumbstick") then Some("btnPrimary")
    else if key == Some("btnSecondaryThumbstick") then Some("btnSecondary")
    else if key == Some("btnSpecialThumbstick") then Some("btnSpecial")
    else key
  }

  /** Renaming an already renamed name changes nothing. */
  lemma EventNameIdempotent(key: Key)
    ensures EventName(EventName(key)) == EventName(key)
  {
  }

  /** What is recorded for a connected hand: handles of the controller and
      grip objects (owned by the host) and the input-source index. */
  datatype Binding = Binding(model: nat, grip: nat, index: int)

  /** The events dispatched on the document, V being the type of button and
      axis readings. */
  datatype Event<V> =
    | StateChange(hand: Hand, name: Key, state: bool)          // controllerHelperStateChange
    | ValueChange(hand: Hand, name: Key, value: V)             // controllerHelperValueChange
    | AxisChange(hand: Hand, name: Key, xAxis: V, yAxis: V)    // controllerHelperAxisChange
    | Change                                                   // controllerHelperChange
    | Ready(hands: map<Hand, Binding>, deviceType: string)     // controllerHelperReady

  /** Position of an event kind in the order one component's events go out. */
  function Rank<V>(e: Event<V>): nat {
    match e
    case StateChange(_, _, _) => 0
    case ValueChange(_, _, _) => 1
    case AxisChange(_, _, _, _) => 2
    case Change => 3
    case Ready(_, _) => 4
  }

  /** Number of ready events in a dispatch history. */
  function ReadyCount<V>(evs: seq<Event<V>>): nat {
    if evs == [] then 0
    else ReadyCount(evs[..|evs| - 1]) + (if evs[|evs| - 1].Ready? then 1 else 0)
  }

  /** Appending to a history in two steps appends their concatenation. */
  lemma AppendTwice<T>(a: seq<T>, b: seq<T>, c: seq<T>)
    ensures (a + b) + c == a + (b + c)
  {
  }

  /** Updating a map at the same key twice keeps the second value. */
  lemma UpdateTwice<K, T>(m: map<K, T>, k: K, a: T, b: T)
    ensures m[k := a][k := b] == m[k := b]
  {
  }

  /** Counting ready events distributes over concatenation. */
  lemma {:induction false} ReadyCountAppend<V>(a: seq<Event<V>>, b: seq<Event<V>>)
    ensures ReadyCount(a + b) == ReadyCount(a) + ReadyCount(b)
    decreases |b|
  {
    if b == [] {
      assert a + b == a;
    } else {
      var b' := b[..|b| - 1];
      assert (a + b)[..|a + b| - 1] == a + b';
      ReadyCountAppend(a, b');
    }
  }

  /** A history with no ready event counts none. */
  lemma {:induction false} ReadyCountNone<V>(evs: seq<Event<V>>)
    requires forall i :: 0 <= i < |evs| ==> !evs[i].Ready?
    ensures ReadyCount(evs) == 0
    decreases |evs|
  {
    if evs != [] {
      ReadyCountNone(evs[..|evs| - 1]);
    }
  }
}
