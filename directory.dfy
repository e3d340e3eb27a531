/**
 * The state directory: each declared state owns one controller action, or a
 * (possibly nested) list of them, and an action is resolved back to the
 * first declared state that owns it.
 */
module Directory {
  import opened Options
  import opened Assoc

  /** The value of a `$states` entry: an action name, or an array of further values. */
  datatype ActionOwner = Leaf(action: string) | Nested(members: seq<ActionOwner>)

  /** A `$states` array: state name to the action(s) it owns, in declaration order. */
  type States = seq<(string, ActionOwner)>

  /**
   * Every nested array is non-empty. The recursive search diverges when it
   * reaches an empty nested array (it then restarts on the whole `$states`),
   * so the search is only defined on such values.
   */
  predicate WellNested(v: ActionOwner)
    decreases v
  {
    match v
    case Leaf(_) => true
    case Nested(ms) => |ms| > 0 && forall i | 0 <= i < |ms| :: WellNested(ms[i])
  }

  predicate AllWellNested(states: States)
  {
    forall i | 0 <= i < |states| :: WellNested(states[i].1)
  }

  /** Reference meaning: `a` occurs as an action anywhere inside `v`. */
  ghost predicate Owns(v: ActionOwner, a: string)
    decreases v
  {
    match v
    case Leaf(x) => x == a
    case Nested(ms) => exists i | 0 <= i < |ms| :: Owns(ms[i], a)
  }

  /**
   * One test of the search loop: `$action === $value`, or `$value` is an
   * array whose own search finds `$action`.
   */
  function Matches(v: ActionOwner, a: string): (r: bool)
    requires WellNested(v)
    ensures r <==> Owns(v, a)
    decreases v, 1, 0
  {
    match v
    case Leaf(x) => a == x
    case Nested(ms) => FindMember(ms, a, 0).Some?
  }

  /**
   * The search loop over a nested array from position `i` on: the position
   * of the first member that matches, or `None`.
   */
  function FindMember(ms: seq<ActionOwner>, a: string, i: nat): (r: Option<nat>)
    requires i <= |ms|
    requires forall j | 0 <= j < |ms| :: WellNested(ms[j])
    ensures r.Some? ==> i <= r.value < |ms| && Owns(ms[r.value], a)
    ensures r.Some? ==> forall j | i <= j < r.value :: !Owns(ms[j], a)
    ensures r.None? <==> forall j | i <= j < |ms| :: !Owns(ms[j], a)
    decreases Nested(ms), 0, |ms| - i
  {
    if i == |ms| then None
    else if Matches(ms[i], a) then Some(i)
    else FindMember(ms, a, i + 1)
  }

  /** The values of a `$states` array, in declaration order. */
  function Values(states: States): (vs: seq<ActionOwner>)
    ensures |vs| == |states|
    ensures forall i | 0 <= i < |states| :: vs[i] == states[i].1
  {
    if states == [] then [] else [states[0].1] + Values(states[1..])
  }

  /**
   * `_actionToState($action)`: the first declared state, in declaration
   * order, whose value is `action` or a nested array containing it at any
   * depth; `None` (PHP `null`) when no state owns `action`.
   */
  function ActionToState(a: string, states: States): (r: Option<string>)
    requires AllWellNested(states)
    ensures r.Some? ==> exists i | 0 <= i < |states| ::
      states[i].0 == r.value && Owns(states[i].1, a) && forall j | 0 <= j < i :: !Owns(states[j].1, a)
    ensures r.None? <==> forall i | 0 <= i < |states| :: !Owns(states[i].1, a)
  {
    var vs := Values(states);
    match FindMember(vs, a, 0)
    case Some(k) => Some(states[k].0)
    case None => None
  }

  /**
   * The redirect target of a state: `array('action' => ...)` whose action is
   * null, or a single action or nested array.
   */
  datatype Url = Url(action: Option<ActionOwner>)

  /**
   * `_toUrl($input)`: a state's value is turned into a URL naming its first
   * member (`current()` on a freshly built array), or the value itself when
   * it is a single action.
   */
  function ToUrl(input: Option<ActionOwner>): (u: Url)
    requires input.Some? ==> WellNested(input.value)
    ensures input.None? <==> u.action.None?
    ensures input.Some? && input.value.Leaf? ==> u.action == input
    ensures input.Some? && input.value.Nested? ==> u.action == Some(input.value.members[0])
    ensures input.Some? && u.action.Some? && u.action.value.Leaf? ==> Owns(input.value, u.action.value.action)
  {
    match input
    case None => Url(None)
    case Some(Leaf(x)) => Url(Some(Leaf(x)))
    case Some(Nested(ms)) => Url(Some(ms[0]))
  }

  /** A value looked up in well-formed `$states` is well formed. */
  lemma LookupWellNested(states: States, k: string)
    requires AllWellNested(states)
    ensures Lookup(states, k).Some? ==> WellNested(Lookup(states, k).value)
  {
    LookupFindsEntry(states, k);
  }

  /** `_toUrl($states[$k])`: where a redirect to state `k` leads. */
  function StateUrl(states: States, k: string): (u: Url)
    requires AllWellNested(states)
    ensures Lookup(states, k).None? <==> u.action.None?
    ensures Lookup(states, k).Some? && Lookup(states, k).value.Leaf? ==> u.action == Lookup(states, k)
    ensures Lookup(states, k).Some? ==> WellNested(Lookup(states, k).value)
    ensures Lookup(states, k).Some? && Lookup(states, k).value.Nested? ==>
      u.action == Some(Lookup(states, k).value.members[0])
    ensures u.action.Some? && u.action.value.Leaf? ==> Owns(Lookup(states, k).value, u.action.value.action)
  {
    LookupWellNested(states, k);
    ToUrl(Lookup(states, k))
  }
}
