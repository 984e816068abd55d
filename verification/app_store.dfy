/**
 * The renderer's counter/theme store (packages/renderer/src/store/useAppStore.ts):
 * a state of a count and a theme, and four actions. Each action merges a
 * partial state, so the field it does not name is kept.
 */
module AppStore {
  datatype Theme = Light | Dark

  datatype State = State(count: int, theme: Theme)

  datatype StoreAction = Increment | Decrement | ToggleTheme | Reset

  /** The store's initial state. */
  const Initial: State := State(0, Light)

  function Other(t: Theme): (u: Theme)
    ensures u != t
  {
    if t == Light then Dark else Light
  }

  /** `set(...)` for one action. */
  function Apply(s: State, a: StoreAction): (r: State)
    ensures a == Increment ==> r.count == s.count + 1 && r.theme == s.theme
    ensures a == Decrement ==> r.count == s.count - 1 && r.theme == s.theme
    ensures a == ToggleTheme ==> r.count == s.count && r.theme != s.theme
    ensures a == Reset ==> r.count == 0 && r.theme == s.theme
  {
    match a
    case Increment => s.(count := s.count + 1)
    case Decrement => s.(count := s.count - 1)
    case ToggleTheme => s.(theme := Other(s.theme))
    case Reset => s.(count := 0)
  }

  /** A sequence of actions from a starting state. */
  function ApplyAll(s: State, acts: seq<StoreAction>): State
    decreases |acts|
  {
    if |acts| == 0 then s else ApplyAll(Apply(s, acts[0]), acts[1..])
  }

  /** Toggling twice gives the state back. */
  lemma ToggleTwice(s: State)
    ensures Apply(Apply(s, ToggleTheme), ToggleTheme) == s
  {
  }

  /** Increment and decrement undo each other, in either order. */
  lemma IncrementDecrement(s: State)
    ensures Apply(Apply(s, Increment), Decrement) == s
    ensures Apply(Apply(s, Decrement), Increment) == s
  {
  }

  /** There is no lower bound: decrementing from the initial state goes negative. */
  lemma DecrementBelowZero()
    ensures Apply(Initial, Decrement).count == -1
  {
  }

  /** Without a reset, the count moves by the number of increments minus the number of decrements. */
  lemma {:induction false} NetCount(s: State, acts: seq<StoreAction>)
    requires forall i :: 0 <= i < |acts| ==> acts[i] != Reset
    ensures ApplyAll(s, acts).count == s.count + Net(acts)
    decreases |acts|
  {
    if |acts| > 0 {
      NetCount(Apply(s, acts[0]), acts[1..]);
    }
  }

  /** The increments minus the decrements of a sequence of actions. */
  function Net(acts: seq<StoreAction>): int
    decreases |acts|
  {
    if |acts| == 0 then 0
    else (match acts[0] case Increment => 1 case Decrement => -1 case _ => 0) + Net(acts[1..])
  }

  /** The theme only changes by toggling: an even number of toggles keeps it, an odd number flips it. */
  lemma {:induction false} ThemeParity(s: State, acts: seq<StoreAction>)
    ensures ApplyAll(s, acts).theme == (if Toggles(acts) % 2 == 0 then s.theme else Other(s.theme))
    decreases |acts|
  {
    if |acts| > 0 {
      ThemeParity(Apply(s, acts[0]), acts[1..]);
    }
  }

  function Toggles(acts: seq<StoreAction>): nat
    decreases |acts|
  {
    if |acts| == 0 then 0 else (if acts[0] == ToggleTheme then 1 else 0) + Toggles(acts[1..])
  }

  /** A reset only touches the count. */
  lemma ResetKeepsTheme(s: State)
    ensures Apply(s, Reset) == State(0, s.theme)
  {
  }
}
