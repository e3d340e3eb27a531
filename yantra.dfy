/**
 * The finite-state-machine component. Its configuration (`states`,
 * `transitions`, `default`, `namespace`, `auto`) and the session that holds
 * the current state are fields that its methods update in place; redirects,
 * flash messages and warnings are recorded in `effects` rather than performed.
 */
module Machine {
  import opened Options
  import opened Assoc
  import opened Directory
  import opened TransitionTable

  const DefaultNamespace := "StateMachine"
  const NoStatesWarning := "You must specify at least one state for the Yantra state machine"
  const DeniedMessage := "You cannot access that page at this point in the process"
  const DeniedElement := "flash/error"
  const DeniedKey := "Yantra"

  /** What the component asks its surroundings to do. */
  datatype Effect =
    | Warning(message: string)                                // trigger_error(..., E_USER_WARNING)
    | Flash(message: string, element: string, key: string)    // Session->setFlash
    | Redirect(url: Url)                                      // controller->redirect

  /** The session key holding the current state. */
  function CurrentKey(ns: string): string
  {
    ns + ".current_state"
  }

  /** The session key written just before a transition commits. */
  function DestinationKey(ns: string): string
  {
    ns + ".destination_state"
  }

  lemma KeysDistinct(ns: string)
    ensures CurrentKey(ns) != DestinationKey(ns)
  {
  }

  /** `state()` without an argument: the stored current state if there is one, else the default. */
  function ReadState(session: map<string, string>, ns: string, default: Option<string>): (r: Option<string>)
    ensures r.None? ==> CurrentKey(ns) !in session && default.None?
    ensures r != default ==> CurrentKey(ns) in session && r == Some(session[CurrentKey(ns)])
  {
    if CurrentKey(ns) in session then Some(session[CurrentKey(ns)]) else default
  }

  /**
   * A write under the current-state key is what the read form returns next,
   * whatever the default; a write under any other key (the marker) leaves it as it was.
   */
  lemma ReadStateAfterWrite(session: map<string, string>, ns: string, default: Option<string>, k: string, v: string)
    ensures ReadState(session[k := v], ns, default) == if k == CurrentKey(ns) then Some(v) else ReadState(session, ns, default)
  {
  }

  /** The session after a committed transition to `to`: marker first, then current state. */
  function Commit(session: map<string, string>, ns: string, to: string): map<string, string>
  {
    session[DestinationKey(ns) := to][CurrentKey(ns) := to]
  }

  /** The two writes of a transition to `to`, in the order they are made. */
  function CommitWrites(ns: string, to: string): seq<(string, string)>
  {
    [(DestinationKey(ns), to), (CurrentKey(ns), to)]
  }

  /**
   * A committed transition reads back as its destination, whatever the
   * default, and changes no session key but the two it writes.
   */
  lemma CommitReadsBack(session: map<string, string>, ns: string, default: Option<string>, to: string)
    ensures ReadState(Commit(session, ns, to), ns, default) == Some(to)
    ensures Commit(session, ns, to)[DestinationKey(ns)] == to
    ensures Commit(session, ns, to).Keys == session.Keys + {CurrentKey(ns), DestinationKey(ns)}
    ensures forall k | k in session && k != CurrentKey(ns) && k != DestinationKey(ns) ::
      Commit(session, ns, to)[k] == session[k]
  {
  }

  /** `to` is listed under `from` in the derived table (`isset` and `in_array`). */
  ghost predicate Reaches(rules: Rules, from: Option<string>, to: Option<string>)
  {
    var table := ReachabilityOf(rules);
    to.Some? && ArrayKey(from) in table && to.value in table[ArrayKey(from)]
  }

  /** The guard in declarative terms: some event declares the pair `from => to`. */
  lemma ReachesIffDeclared(rules: Rules, from: Option<string>, to: Option<string>)
    ensures Reaches(rules, from, to) <==>
      to.Some? && exists e, j | 0 <= e < |rules| && 0 <= j < |rules[e].1| :: rules[e].1[j] == (ArrayKey(from), to.value)
  {
    if to.Some? {
      ReachabilityMembership(rules, ArrayKey(from), to.value);
    }
  }

  class Component {
    var states: States
    var transitions: Rules
    var default: Option<string>
    var namespace: string
    var auto: bool

    /** The session: its contents, the answer it gives to every write, and the writes made so far. */
    var session: map<string, string>
    var sessionWritable: bool
    var writeLog: seq<(string, string)>

    var effects: seq<Effect>

    /** The configuration arrays are PHP arrays, and no nested action array is empty. */
    ghost predicate Valid()
      reads this
    {
      UniqueKeys(states) && AllWellNested(states) && WellFormedRules(transitions)
    }

    /** `initialize` with an explicit record of the recognised settings. */
    constructor (states: States, transitions: Rules, default: Option<string> := None,
                 namespace: string := DefaultNamespace, auto: bool := false,
                 session: map<string, string> := map[], sessionWritable: bool := true)
      requires UniqueKeys(states) && AllWellNested(states) && WellFormedRules(transitions)
      ensures Valid()
      ensures this.states == states && this.transitions == transitions && this.default == default
      ensures this.namespace == namespace && this.auto == auto
      ensures this.session == session && this.sessionWritable == sessionWritable
      ensures writeLog == [] && effects == []
    {
      this.states := states;
      this.transitions := transitions;
      this.default := default;
      this.namespace := namespace;
      this.auto := auto;
      this.session := session;
      this.sessionWritable := sessionWritable;
      writeLog := [];
      effects := [];
    }

    /** `Session->write($key, $value)`: a failed write leaves the session as it was. */
    method Write(key: string, value: string) returns (ok: bool)
      modifies this`session, this`writeLog
      ensures ok == sessionWritable
      ensures writeLog == old(writeLog) + [(key, value)]
      ensures session == if sessionWritable then old(session)[key := value] else old(session)
    {
      writeLog := writeLog + [(key, value)];
      if sessionWritable {
        session := session[key := value];
      }
      ok := sessionWritable;
    }

    /** `state()`: the current state. */
    function State(): Option<string>
      reads this
    {
      ReadState(session, namespace, default)
    }

    /** `state($s)`: stores `s` as the current state and returns the write's success. */
    method SetState(s: string) returns (ok: bool)
      modifies this`session, this`writeLog
      ensures ok == sessionWritable
      ensures writeLog == old(writeLog) + [(CurrentKey(namespace), s)]
      ensures session == if ok then old(session)[CurrentKey(namespace) := s] else old(session)
      ensures ok ==> State() == Some(s)
    {
      ok := Write(CurrentKey(namespace), s);
    }

    /** `events()`: the declared events, in declaration order. */
    function Events(): (es: seq<string>)
      reads this
      ensures |es| == |transitions|
      ensures forall i | 0 <= i < |transitions| :: es[i] == transitions[i].0
      ensures forall e :: e in es <==> Lookup(transitions, e).Some?
    {
      LookupDefinedIffAll(transitions);
      Keys(transitions)
    }

    /** `transitions()`: origin to destinations, built by appending event by event. */
    method Transitions() returns (table: map<string, seq<string>>)
      ensures table == ReachabilityOf(transitions)
    {
      table := map[];
      var i := 0;
      while i < |transitions|
        invariant 0 <= i <= |transitions|
        invariant table == TableOf(Flatten(transitions[..i]))
      {
        var row := transitions[i].1;
        var j := 0;
        assert Flatten(transitions[..i]) + row[..0] == Flatten(transitions[..i]);
        while j < |row|
          invariant 0 <= j <= |row|
          invariant table == TableOf(Flatten(transitions[..i]) + row[..j])
        {
          var (origin, destination) := row[j];
          TableOfSnoc(Flatten(transitions[..i]) + row[..j], row[j]);
          assert Flatten(transitions[..i]) + row[..j + 1] == Flatten(transitions[..i]) + row[..j] + [row[j]];
          table := table[origin := (if origin in table then table[origin] else []) + [destination]];
          j := j + 1;
        }
        FlattenSnoc(transitions, i);
        assert row[..j] == row;
        i := i + 1;
      }
      assert transitions[..i] == transitions;
    }

    /**
     * The guard of a transition that is not a self-transition: `to` is
     * reachable from `from` and `from` is the stored current state.
     */
    ghost predicate Moves(from: Option<string>, to: Option<string>)
      reads this
    {
      from != to && Reaches(transitions, from, to) && State() == from
    }

    /**
     * `transition($from, $to)`: a self-transition succeeds and writes
     * nothing; any other writes, and can succeed, only when it `Moves`, and
     * then writes the destination marker and the current state and returns
     * the write's success.
     */
    method Transition(from: Option<string>, to: Option<string>) returns (ok: bool)
      modifies this`session, this`writeLog
      ensures ok == (from == to || (old(Moves(from, to)) && sessionWritable))
      ensures writeLog == old(writeLog) + (if old(Moves(from, to)) then CommitWrites(namespace, to.value) else [])
      ensures session == if old(Moves(from, to)) && sessionWritable then Commit(old(session), namespace, to.value) else old(session)
      ensures ok && from != to ==> State() == to
    {
      if from == to {
        return true;
      }
      var table := Transitions();
      var key := ArrayKey(from);
      if key in table && to.Some? && to.value in table[key] {
        if State() == from {
          var marked := Write(DestinationKey(namespace), to.value);
          ok := SetState(to.value);
          KeysDistinct(namespace);
          CommitReadsBack(old(session), namespace, default, to.value);
          return;
        }
      }
      return false;
    }

    /** `$this->transitions[$event][$state]`, or `None` where it is not set. */
    function Declared(e: string, st: Option<string>): (r: Option<string>)
      reads this
      ensures r.Some? ==> Lookup(transitions, e).Some? && Reaches(transitions, st, r)
    {
      DeclaredIsReachable(transitions, e, ArrayKey(st));
      match Lookup(transitions, e)
      case None => None
      case Some(row) => Lookup(row, ArrayKey(st))
    }

    /**
     * `event($e)`: fires the transition that `e` declares for the current
     * state and returns its result; with `auto` set it also redirects to the
     * destination, whether or not the transition succeeded. An event with
     * nothing declared for the current state returns false and does nothing.
     */
    method Event(e: string) returns (ok: bool)
      requires Valid()
      modifies this`session, this`writeLog, this`effects
      ensures old(Declared(e, State())).None? ==>
        !ok && session == old(session) && writeLog == old(writeLog) && effects == old(effects)
      ensures old(Declared(e, State())).Some? ==>
        var st, to := old(State()), old(Declared(e, State()));
        var moves := st != to && Reaches(transitions, st, to);
        && ok == (st == to || (moves && sessionWritable))
        && writeLog == old(writeLog) + (if moves then CommitWrites(namespace, to.value) else [])
        && session == (if moves && sessionWritable then Commit(old(session), namespace, to.value) else old(session))
        && effects == old(effects) + (if auto then [Redirect(StateUrl(states, to.value))] else [])
    {
      var st := State();
      var to := Declared(e, st);
      if to.None? {
        return false;
      }
      ok := Transition(st, to);
      if auto {
        effects := effects + [Redirect(StateUrl(states, to.value))];
      }
    }

    /**
     * The access check of `startup` for a dispatched action whose state is
     * `target`: a failed transition from `current` records the denial flash
     * and a redirect to the first action of `current`.
     */
    method Admit(current: Option<string>, target: Option<string>)
      requires AllWellNested(states)
      requires current == State()
      modifies this`session, this`writeLog, this`effects
      ensures var moves := current != target && Reaches(transitions, current, target);
        && writeLog == old(writeLog) + (if moves then CommitWrites(namespace, target.value) else [])
        && session == (if moves && sessionWritable then Commit(old(session), namespace, target.value) else old(session))
        && effects == old(effects) + (if current == target || (moves && sessionWritable) then []
                                      else [Flash(DeniedMessage, DeniedElement, DeniedKey),
                                            Redirect(StateUrl(states, ArrayKey(current)))])
      ensures effects == old(effects) ==> State() == target
      ensures target.None? && current.Some? ==> |effects| == |old(effects)| + 2
    {
      var ok := Transition(current, target);
      if !ok {
        effects := effects + [Flash(DeniedMessage, DeniedElement, DeniedKey),
                              Redirect(StateUrl(states, ArrayKey(current)))];
      }
    }

    /**
     * `startup`: warns when no state is declared; otherwise fills in the
     * default state and, when an action is being dispatched, tries to move
     * to the state owning it, and denies access (a flash and a redirect to
     * the current state's first action) when that transition fails.
     */
    method Startup(action: Option<string>)
      requires Valid()
      modifies this`default, this`session, this`writeLog, this`effects
      ensures Valid()
      ensures states == [] ==>
        default == old(default) && session == old(session) && writeLog == old(writeLog) &&
        effects == old(effects) + [Warning(NoStatesWarning)]
      ensures states != [] ==>
        default == if old(default).Some? then old(default) else Some(states[0].0)
      ensures states != [] && action.None? ==>
        session == old(session) && writeLog == old(writeLog) && effects == old(effects)
      ensures states != [] && action.Some? ==>
        var cur := ReadState(old(session), namespace, default);
        var target := ActionToState(action.value, states);
        var moves := cur != target && Reaches(transitions, cur, target);
        && writeLog == old(writeLog) + (if moves then CommitWrites(namespace, target.value) else [])
        && session == (if moves && sessionWritable then Commit(old(session), namespace, target.value) else old(session))
        && effects == old(effects) + (if cur == target || (moves && sessionWritable) then []
                                      else [Flash(DeniedMessage, DeniedElement, DeniedKey),
                                            Redirect(StateUrl(states, ArrayKey(cur)))])
      ensures states != [] && action.Some? && effects == old(effects) ==>
        State() == ActionToState(action.value, states)
      ensures states != [] && action.Some? && ActionToState(action.value, states).None? ==>
        |effects| == |old(effects)| + 2
    {
      if states == [] {
        effects := effects + [Warning(NoStatesWarning)];
        return;
      }
      if default.None? {
        var names := Keys(states);
        default := Some(names[0]);
      }
      // `$this->state = $this->default` sets a field that nothing reads; the
      // session is not written, and reads fall back to `default`.
      var current := State();
      if action.Some? {
        Admit(current, ActionToState(action.value, states));
      }
    }
  }
}
