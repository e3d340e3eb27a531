/**
 * The configuration of the component's test case (a checkout flow), and
 * what the model says about it.
 */
module Scenarios {
  import opened Options
  import opened Assoc
  import opened Directory
  import opened TransitionTable
  import opened Machine

  function CheckoutStates(): States
  {
    [ ("signing in", Nested([Leaf("sign_in"), Leaf("new_user")])),
      ("billing", Leaf("billing")),
      ("paying", Leaf("payment")),
      ("reviewing", Leaf("summary")),
      ("processing", Leaf("fulfill")) ]
  }

  function CheckoutRules(): Rules
  {
    [ ("sign in", [("signing in", "billing"), ("paying", "billing"), ("reviewing", "billing")]),
      ("bill & ship", [("billing", "paying")]),
      ("pay", [("billing", "paying")]),
      ("review", [("paying", "reviewing")]),
      ("process", [("reviewing", "processing")]) ]
  }

  lemma CheckoutStatesWellFormed(ss: States)
    requires ss == CheckoutStates()
    ensures UniqueKeys(ss) && AllWellNested(ss)
  {
  }

  lemma CheckoutRulesWellFormed(r: Rules)
    requires r == CheckoutRules()
    ensures WellFormedRules(r)
  {
  }

  lemma NotInSigningIn(ss: States, a: string)
    requires ss == CheckoutStates()
    requires a != "sign_in" && a != "new_user"
    ensures !Owns(ss[0].1, a)
  {
    var ms := ss[0].1.members;
    assert forall i | 0 <= i < |ms| :: ms[i] == Leaf("sign_in") || ms[i] == Leaf("new_user");
  }

  /** An action nested inside a state's array resolves to that state. */
  lemma CheckoutNestedAction(ss: States)
    requires ss == CheckoutStates()
    ensures AllWellNested(ss) && ActionToState("new_user", ss) == Some("signing in")
  {
    CheckoutStatesWellFormed(ss);
    assert Owns(ss[0].1.members[1], "new_user");
  }

  /** The billing action is owned by the billing state, not by the nested "signing in". */
  lemma CheckoutBillingAction(ss: States)
    requires ss == CheckoutStates()
    ensures AllWellNested(ss) && ActionToState("billing", ss) == Some("billing")
  {
    CheckoutStatesWellFormed(ss);
    NotInSigningIn(ss, "billing");
    assert Owns(ss[1].1, "billing");
  }

  /** An action that no state owns resolves to nothing. */
  lemma CheckoutUnknownAction(ss: States)
    requires ss == CheckoutStates()
    ensures AllWellNested(ss) && ActionToState("checkout", ss) == None
  {
    CheckoutStatesWellFormed(ss);
    NotInSigningIn(ss, "checkout");
    assert forall i | 1 <= i < |ss| :: ss[i].1.Leaf? && ss[i].1.action != "checkout";
  }

  /** Two events lead from billing to paying, so the destination is listed twice. */
  lemma CheckoutBillingRow(r: Rules)
    requires r == CheckoutRules()
    ensures "billing" in ReachabilityOf(r) && ReachabilityOf(r)["billing"] == ["paying", "paying"]
  {
    assert EventDestinations(r, "billing") == [("bill & ship", "paying"), ("pay", "paying")] by {
      assert Lookup(r[0].1, "billing") == None;
      assert Lookup(r[1].1, "billing") == Some("paying");
      assert Lookup(r[2].1, "billing") == Some("paying");
      assert Lookup(r[3].1, "billing") == None;
      assert Lookup(r[4].1, "billing") == None;
    }
    CheckoutRulesWellFormed(r);
    ReachabilityRow(r, "billing", ["paying", "paying"]);
  }

  /** Only the "sign in" event leaves "signing in". */
  lemma CheckoutSigningInRow(r: Rules)
    requires r == CheckoutRules()
    ensures "signing in" in ReachabilityOf(r) && ReachabilityOf(r)["signing in"] == ["billing"]
  {
    assert EventDestinations(r, "signing in") == [("sign in", "billing")] by {
      assert Lookup(r[0].1, "signing in") == Some("billing");
      assert Lookup(r[1].1, "signing in") == None;
      assert Lookup(r[2].1, "signing in") == None;
      assert Lookup(r[3].1, "signing in") == None;
      assert Lookup(r[4].1, "signing in") == None;
    }
    CheckoutRulesWellFormed(r);
    ReachabilityRow(r, "signing in", ["billing"]);
  }

  /**
   * What the start-up and event scenarios below rely on; the checkout
   * configuration has all of it (CheckoutFacts), so the scenarios hold for it.
   */
  ghost predicate ScenarioFacts(ss: States, r: Rules)
  {
    && UniqueKeys(ss) && AllWellNested(ss) && WellFormedRules(r)
    && |ss| > 0 && ss[0].0 == "signing in"
    && ActionToState("billing", ss) == Some("billing")
    && Reaches(r, Some("signing in"), Some("billing"))
    && Lookup(r, "sign in") == Some(r[0].1) && Lookup(r[0].1, "signing in") == Some("billing")
    && Lookup(r, "invalid event") == None
    && StateUrl(ss, "signing in") == Url(Some(Leaf("sign_in")))
    && StateUrl(ss, "billing") == Url(Some(Leaf("billing")))
  }

  lemma CheckoutUrls(ss: States)
    requires ss == CheckoutStates()
    ensures AllWellNested(ss)
    ensures StateUrl(ss, "signing in") == Url(Some(Leaf("sign_in")))
    ensures StateUrl(ss, "billing") == Url(Some(Leaf("billing")))
  {
    CheckoutStatesWellFormed(ss);
  }

  lemma CheckoutEventRows(r: Rules)
    requires r == CheckoutRules()
    ensures Lookup(r, "sign in") == Some(r[0].1) && Lookup(r[0].1, "signing in") == Some("billing")
    ensures Lookup(r, "invalid event") == None
  {
  }

  lemma CheckoutFacts(ss: States, r: Rules)
    requires ss == CheckoutStates() && r == CheckoutRules()
    ensures ScenarioFacts(ss, r)
  {
    CheckoutStatesWellFormed(ss);
    CheckoutRulesWellFormed(r);
    CheckoutBillingAction(ss);
    CheckoutSigningInRow(r);
    CheckoutUrls(ss);
    CheckoutEventRows(r);
    assert |ss| > 0 && ss[0].0 == "signing in";
  }

  /**
   * Dispatching the billing action on a fresh session whose writes fail:
   * the move out of the default state "signing in" is attempted, fails,
   * and the user is sent back to the first action of "signing in".
   */
  method StartupOnFailedTransition(ss: States, r: Rules) returns (effects: seq<Effect>, writes: seq<(string, string)>)
    requires ScenarioFacts(ss, r)
    ensures effects == [Flash(DeniedMessage, DeniedElement, DeniedKey), Redirect(Url(Some(Leaf("sign_in"))))]
    ensures writes == CommitWrites(DefaultNamespace, "billing")
  {
    var c := new Component(ss, r, sessionWritable := false);
    c.Startup(Some("billing"));
    assert c.default == Some("signing in");
    effects, writes := c.effects, c.writeLog;
  }

  /** Firing "sign in" from "signing in" with `auto` set moves to billing and redirects there. */
  method EventWithAutoRedirect(ss: States, r: Rules) returns (ok: bool, state: Option<string>, effects: seq<Effect>)
    requires ScenarioFacts(ss, r)
    ensures ok && state == Some("billing")
    ensures effects == [Redirect(Url(Some(Leaf("billing"))))]
  {
    var c := new Component(ss, r, Some("signing in"), auto := true);
    ok := c.Event("sign in");
    state, effects := c.State(), c.effects;
  }

  /** An event with nothing declared for the current state fails and does nothing, even with `auto` set. */
  method UndeclaredEvent(ss: States, r: Rules) returns (ok: bool, effects: seq<Effect>, writes: seq<(string, string)>)
    requires ScenarioFacts(ss, r)
    ensures !ok && effects == [] && writes == []
  {
    var c := new Component(ss, r, Some("signing in"), auto := true);
    ok := c.Event("invalid event");
    effects, writes := c.effects, c.writeLog;
  }

  /** The three replayed tests, run on the checkout configuration itself. */
  method CheckoutTestCase()
  {
    var ss, r := CheckoutStates(), CheckoutRules();
    CheckoutFacts(ss, r);
    var denied, attempted := StartupOnFailedTransition(ss, r);
    var moved, state, redirected := EventWithAutoRedirect(ss, r);
    var undeclared, none, unwritten := UndeclaredEvent(ss, r);
  }
}
