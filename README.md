# Yantra finite-state machine, modelled in Dafny

Yantra is a CakePHP component (`YantraComponent`) that drives a web workflow
as a finite-state machine. It is configured with the declared `states` (state
name to the controller action, or nested array of actions, that belongs to
it), the `transitions` (event name to an `origin => destination` array), an
optional `default` state, a session `namespace` (`"StateMachine"` by default)
and an `auto` flag. The current state lives in the session under
`<namespace>.current_state`; a transition writes `<namespace>.destination_state`
just before it commits. At start-up the component resolves the action being
dispatched to its state and denies access (a flash message and a redirect to
the current state's first action) when the machine cannot move there.

The model:

- `options.dfy`, `assoc.dfy`: PHP `null` as `Option`; PHP's ordered arrays as
  association lists (`Keys` is `array_keys`, `Lookup` is `$a[$k]` with
  `isset`, `ArrayKey` is PHP's cast of a `null` key to `""`).
- `directory.dfy`: a state's value as `ActionOwner = Leaf(action) |
  Nested(members)`; the recursive search of `_actionToState`, proved against
  a declarative "occurs anywhere inside" predicate (`Owns`); `_toUrl`.
- `table.dfy`: the reachability table that `transitions()` builds, defined as
  a specification (`ReachabilityOf`) and related to the declared rules by
  lemmas (membership both ways, one entry per declaring event, in event
  order, duplicates kept).
- `yantra.dfy`: the component as a class. Its configuration, the session map,
  the session's write journal and the list of effects (warnings, flash
  messages, redirects) are fields; `Transition`, `Event`, `SetState` and
  `Startup` update them in place and state the whole new state.
- `scenarios.dfy`: the checkout configuration of the component's test case.
  `ScenarioFacts` collects what three replayed tests rely on, and
  `CheckoutFacts` proves the checkout configuration has all of it.
  `StartupOnFailedTransition` replays the start-up test whose session writes
  fail (its mock answers only a one-argument `write`), `EventWithAutoRedirect`
  the auto-redirect test and `UndeclaredEvent` the test of an event that is
  not declared; each result follows from the component's contracts alone.
  `CheckoutTestCase` runs the three on the checkout configuration itself.

The session is a `map<string, string>` keyed by the full dotted path. What a
write answers is the field `sessionWritable`; a write that fails leaves the map
as it was; every write call is appended to `writeLog`, which is how the
contracts state "no write on this path" and "marker first, then current state".

## Model

| member | source | states |
|---|---|---|
| `Directory.Matches` | controllers/components/yantra.php:257 | one test of the search (`$action === $value`, or a nested array whose search succeeds) holds exactly when the action occurs anywhere inside the value |
| `Directory.FindMember` | controllers/components/yantra.php:255-262 | the search loop over a nested array returns the first position whose member owns the action, and `None` exactly when no member from there on owns it |
| `Directory.ActionToState` | controllers/components/yantra.php:250-263 | returns the first declared state, in declaration order, whose value owns the action at any depth, and `None` (null) exactly when no state owns it |
| `Directory.ToUrl` | controllers/components/yantra.php:275-278 | a single action becomes the URL's action, an array yields its first member; a null input yields a null action; a single action named by the URL is owned by the state |
| `Directory.StateUrl` | controllers/components/yantra.php:196 | the redirect to a declared state names a non-null action: the state's own action when it has one, else the first member of its array, which that state owns; an undeclared state gives a null action |
| `Machine.Component.constructor` | controllers/components/yantra.php:91-97 | every recognised setting is stored as given, with `namespace` `"StateMachine"` and `auto` false by default; nothing is written or emitted |
| `Machine.Component.Events` | controllers/components/yantra.php:203-205 | one entry per declared event, in declaration order, and an event is listed exactly when `$this->transitions[$e]` is set |
| `Machine.Component.Transitions` | controllers/components/yantra.php:166-176 | the nested loops build exactly the reachability table `ReachabilityOf` of the declared rules |
| `TransitionTable.ReachabilityMembership` | controllers/components/yantra.php:166-176 | `d` is listed under origin `o` exactly when some event declares `o => d`, and `o` has an entry exactly when some event declares origin `o` |
| `TransitionTable.ReachabilityRow` | controllers/components/yantra.php:166-176 | when the events declaring origin `o` give, in order, the destinations `ds` (at least one), the table built by `transitions()` lists exactly `ds` under `o` |
| `TransitionTable.ReachabilityByEvent` | controllers/components/yantra.php:169-173 | the list under `o` has one destination per event declaring origin `o`, that event's own destination, in event declaration order, so its length is the number of such events and duplicates are kept |
| `Machine.Component.Write` | controllers/components/yantra.php:221 | a session write is journalled, returns the session's answer, and stores the value under the key only when it succeeds |
| `Machine.ReadState` | controllers/components/yantra.php:224-228 | the read form of `state()` (`Component.State`) returns something other than `default` only when a value is stored under the current-state key, and then that value; it is null only when nothing is stored and there is no default |
| `Machine.ReadStateAfterWrite` | controllers/components/yantra.php:217-228 | after a write under the current-state key the read form returns that value, whatever the default; a write under any other key, such as the destination marker, leaves it unchanged |
| `Machine.ReachesIffDeclared` | controllers/components/yantra.php:156 | the `isset($transitions[$from]) && in_array($to, ...)` guard holds exactly when some event declares the pair `from => to` (a null `from` is the key `""`) |
| `Machine.Component.Declared` | controllers/components/yantra.php:190-192 | a destination set at `$this->transitions[$event][$state]` belongs to a declared event and passes the guard of `transition` for that state |
| `TransitionTable.DeclaredIsReachable` | controllers/components/yantra.php:166-176 | a destination declared by an event for origin `o` is listed under `o` in the table `transitions()` builds |
| `Machine.KeysDistinct` | controllers/components/yantra.php:158 | the destination marker key and the current-state key of a namespace differ |
| `Machine.CommitReadsBack` | controllers/components/yantra.php:157-159 | after the marker and current-state writes the state reads back as the destination, the marker holds it too, and no other session key changes |
| `Machine.Component.SetState` | controllers/components/yantra.php:217-229 | `state($s)` writes `s` under the current-state key, returns the write's success, and once it succeeds `state()` reads back `s` (the read form returns the stored value, else `default`) |
| `Machine.Component.Transition` | controllers/components/yantra.php:151-164 | a self-transition returns true and writes nothing; any other transition writes only when it `Moves` (`to` is in `transitions()[from]` and the stored state is `from`), then writes the marker and the current state in that order and returns the write's success; otherwise it returns false; a success leaves `to` as the current state |
| `Machine.Component.Event` | controllers/components/yantra.php:187-201 | with nothing declared for the event in the current state it returns false with no write and no effect; otherwise it returns what the transition to the declared destination returns, with that transition's writes, and with `auto` set it records one redirect to the destination's first action whether or not the transition succeeded |
| `Machine.Component.Admit` | controllers/components/yantra.php:128-136 | the access check attempts the transition from the current state to the action's state, and records exactly one flash and one redirect to the current state's first action when it fails; no effect means the current state is the target, and a null target from a set state is always denied |
| `Machine.Component.Startup` | controllers/components/yantra.php:109-138 | with no states it records the warning and changes nothing else; otherwise it sets a missing default to the first declared state, and for a dispatched action attempts the transition from the current state to the action's state, recording exactly one flash and one redirect to the current state's first action when it fails; no effect means the current state is the action's state, and an unresolvable action is always denied |
| `Scenarios.CheckoutNestedAction` | tests/cases/components/yantra.test.php:15-19 | an action listed inside the nested array of "signing in" resolves to "signing in" |
| `Scenarios.CheckoutBillingAction` | tests/cases/components/yantra.test.php:15-24 | the billing action resolves to the billing state, not to the nested "signing in" before it |
| `Scenarios.CheckoutUnknownAction` | tests/cases/components/yantra.test.php:15-24 | an action no state owns resolves to null |
| `Scenarios.CheckoutBillingRow` | tests/cases/components/yantra.test.php:26-44 | two events lead from billing to paying, so `transitions()["billing"]` lists paying twice |
| `Scenarios.CheckoutFacts` | tests/cases/components/yantra.test.php:15-44 | the checkout configuration is well formed, moves from "signing in" to "billing" on "sign in", declares nothing for "invalid event", and redirects to `sign_in` and `billing` for those two states |
| `Scenarios.StartupOnFailedTransition` | tests/cases/components/yantra.test.php:96-107 | dispatching the billing action on a fresh session whose writes fail attempts the marker and current-state writes, then records the denial flash and one redirect to `sign_in` |
| `Scenarios.EventWithAutoRedirect` | tests/cases/components/yantra.test.php:153-162 | firing "sign in" from "signing in" with `auto` set succeeds, leaves billing as the current state and records one redirect to `billing` |
| `Scenarios.UndeclaredEvent` | tests/cases/components/yantra.test.php:164-171 | firing an undeclared event returns false with no write and no effect, even with `auto` set |
| `Scenarios.CheckoutSigningInRow` | tests/cases/components/yantra.test.php:26-31 | only the "sign in" event leaves "signing in", so its list is exactly billing |

## Left out

- CakePHP plumbing: `Object`, `$components`, the controller reference and `initialize`'s copying of arbitrary settings onto the object; the constructor takes the five recognised settings instead.
- The session component beyond `check`/`read`/`write` on the two keys: dotted paths are flat map keys, and whether writes succeed is one fixed answer (`sessionWritable`).
- `trigger_error`, `Session->setFlash` and `controller->redirect` are recorded in `effects`, never performed. CakePHP's `redirect` normally ends the request; the model continues as the code text does, so `Event` still returns the transition's result.
- `__()` translation is the identity on the denial message.
- `states()` is an identity accessor; the model reads the `states` field directly.
- `$this->events` (line 110) and `$this->state = $this->default` (line 122) set fields that nothing reads: start-up writes nothing to the session for a fresh subject, and reads fall back to `default`.
- Machine.Component.SetState: always writes; the source treats a falsy state name (`""`, `"0"`) passed to `state()` as a read instead.
- Machine.Component.Transition: membership of `to` in `transitions()[from]` is strict; PHP's loose `in_array` would also let a null `to` match a declared `""` destination and numeric strings match by value. A declared destination `""` is a falsy name, so line 159's `$this->state("")` reads instead of writing: the source then writes only the marker and returns the current state; the model writes and commits `""` (this also reaches `Event`).
- Machine.Component.Transition: every write gets the same answer (`sessionWritable`), so the model cannot represent a marker write that succeeds followed by a current-state write that fails; the all-or-nothing session update in its contract comes from that abstraction, not from the source.
- Directory.ActionToState: requires every nested action array to be non-empty. The source loops for ever on an empty one only when its search reaches it (an earlier match returns normally). Because the constructor and `Valid()` carry this requirement, the whole component excludes such configurations, although `transition`, `event` and `state` handle them, and `_toUrl(array())` yields `'action' => false`.
- Directory.ToUrl: `current()` is taken as the first element, as it is for an array just read from the configuration.
- Values other than strings (integer keys, numeric state names that PHP turns into integer keys) are not modelled.
