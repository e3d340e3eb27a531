/**
 * The transition table: events declared as `event => {origin => destination}`
 * and the reachability table derived from them, origin to the list of
 * destinations, flattened across all events.
 */
module TransitionTable {
  import opened Options
  import opened Assoc

  /** A `$transitions` array: event name to its origin-to-destination array. */
  type Rules = seq<(string, seq<(string, string)>)>

  /** PHP arrays: unique event names, and unique origins within each event. */
  ghost predicate WellFormedRules(rules: Rules)
  {
    UniqueKeys(rules) && forall e | 0 <= e < |rules| :: UniqueKeys(rules[e].1)
  }

  /** Every declared (origin, destination) pair, event by event, then origin by origin. */
  function Flatten(rules: Rules): (ps: seq<(string, string)>)
  {
    if rules == [] then [] else rules[0].1 + Flatten(rules[1..])
  }

  /** The destinations of the pairs whose origin is `o`, in order, duplicates kept. */
  function DestinationsFrom(ps: seq<(string, string)>, o: string): seq<string>
  {
    if ps == [] then []
    else (if ps[0].0 == o then [ps[0].1] else []) + DestinationsFrom(ps[1..], o)
  }

  ghost function OriginsOf(ps: seq<(string, string)>): set<string>
  {
    set p | p in ps :: p.0
  }

  /** The table that appending each pair's destination to its origin's list produces. */
  ghost function TableOf(ps: seq<(string, string)>): map<string, seq<string>>
  {
    map o | o in OriginsOf(ps) :: DestinationsFrom(ps, o)
  }

  /** What `transitions()` returns for a `$transitions` array. */
  ghost function ReachabilityOf(rules: Rules): map<string, seq<string>>
  {
    TableOf(Flatten(rules))
  }

  /**
   * Reference definition: the (event, destination) pairs of the events that
   * declare origin `o`, in event declaration order.
   */
  function EventDestinations(rules: Rules, o: string): seq<(string, string)>
  {
    if rules == [] then []
    else
      (match Lookup(rules[0].1, o)
       case Some(d) => [(rules[0].0, d)]
       case None => [])
      + EventDestinations(rules[1..], o)
  }

  lemma {:induction false} DestinationsConcat(a: seq<(string, string)>, b: seq<(string, string)>, o: string)
    ensures DestinationsFrom(a + b, o) == DestinationsFrom(a, o) + DestinationsFrom(b, o)
  {
    if a != [] {
      assert (a + b)[1..] == a[1..] + b;
      DestinationsConcat(a[1..], b, o);
    } else {
      assert a + b == b;
    }
  }

  lemma {:induction false} DestinationsMember(ps: seq<(string, string)>, o: string, d: string)
    ensures d in DestinationsFrom(ps, o) <==> (o, d) in ps
  {
    if ps != [] {
      DestinationsMember(ps[1..], o, d);
      assert ps == [ps[0]] + ps[1..];
    }
  }

  lemma {:induction false} FlattenSnoc(rules: Rules, i: nat)
    requires i < |rules|
    ensures Flatten(rules[..i + 1]) == Flatten(rules[..i]) + rules[i].1
  {
    if i == 0 {
      assert rules[..1][1..] == [];
    } else {
      assert rules[..i + 1][1..] == rules[1..][..i];
      assert rules[..i][1..] == rules[1..][..i - 1];
      FlattenSnoc(rules[1..], i - 1);
    }
  }

  lemma {:induction false} FlattenMember(rules: Rules, p: (string, string))
    ensures p in Flatten(rules) <==>
      exists e, j | 0 <= e < |rules| && 0 <= j < |rules[e].1| :: rules[e].1[j] == p
  {
    if rules != [] {
      FlattenMember(rules[1..], p);
      if p in rules[0].1 {
        var j :| 0 <= j < |rules[0].1| && rules[0].1[j] == p;
        assert rules[0].1[j] == p;
      }
      if exists e, j | 0 <= e < |rules| && 0 <= j < |rules[e].1| :: rules[e].1[j] == p {
        var e, j :| 0 <= e < |rules| && 0 <= j < |rules[e].1| && rules[e].1[j] == p;
        if e > 0 {
          assert rules[1..][e - 1].1[j] == p;
        }
      }
    }
  }

  /** Appending one pair to the pairs seen so far extends exactly its origin's list. */
  lemma TableOfSnoc(ps: seq<(string, string)>, p: (string, string))
    ensures TableOf(ps + [p]) ==
      TableOf(ps)[p.0 := (if p.0 in TableOf(ps) then TableOf(ps)[p.0] else []) + [p.1]]
  {
    var t, t' := TableOf(ps), TableOf(ps + [p]);
    var prior := if p.0 in t then t[p.0] else [];
    var u := t[p.0 := prior + [p.1]];
    assert OriginsOf(ps + [p]) == OriginsOf(ps) + {p.0};
    assert t'.Keys == u.Keys;
    forall o | o in t'.Keys
      ensures t'[o] == u[o]
    {
      DestinationsConcat(ps, [p], o);
      assert DestinationsFrom([p], o) == if p.0 == o then [p.1] else [];
      if o == p.0 && p.0 !in OriginsOf(ps) {
        NoDestinations(ps, o);
      }
    }
    assert t' == u;
  }

  lemma NoDestinations(ps: seq<(string, string)>, o: string)
    requires o !in OriginsOf(ps)
    ensures DestinationsFrom(ps, o) == []
  {
    if DestinationsFrom(ps, o) != [] {
      var d := DestinationsFrom(ps, o)[0];
      DestinationsMember(ps, o, d);
    }
  }

  /**
   * `transitions()` lists `d` under origin `o` exactly when some event
   * declares `o => d`, and has an entry for `o` exactly when some event
   * declares origin `o`.
   */
  lemma ReachabilityMembership(rules: Rules, o: string, d: string)
    ensures (o in ReachabilityOf(rules) && d in ReachabilityOf(rules)[o]) <==>
      exists e, j | 0 <= e < |rules| && 0 <= j < |rules[e].1| :: rules[e].1[j] == (o, d)
    ensures o in ReachabilityOf(rules) <==>
      exists e, j | 0 <= e < |rules| && 0 <= j < |rules[e].1| :: rules[e].1[j].0 == o
  {
    var ps := Flatten(rules);
    DestinationsMember(ps, o, d);
    FlattenMember(rules, (o, d));
    if o in OriginsOf(ps) {
      var p :| p in ps && p.0 == o;
      FlattenMember(rules, p);
    }
    if exists e, j | 0 <= e < |rules| && 0 <= j < |rules[e].1| :: rules[e].1[j].0 == o {
      var e, j :| 0 <= e < |rules| && 0 <= j < |rules[e].1| && rules[e].1[j].0 == o;
      FlattenMember(rules, rules[e].1[j]);
    }
  }

  /** In an origin map with unique keys, origin `o` contributes at most its one destination. */
  /** A destination an event declares for origin `o` is listed under `o` in the table. */
  lemma DeclaredIsReachable(rules: Rules, e: string, o: string)
    ensures Lookup(rules, e).Some? && Lookup(Lookup(rules, e).value, o).Some? ==>
      o in ReachabilityOf(rules) && Lookup(Lookup(rules, e).value, o).value in ReachabilityOf(rules)[o]
  {
    if Lookup(rules, e).Some? && Lookup(Lookup(rules, e).value, o).Some? {
      var row := Lookup(rules, e).value;
      var d := Lookup(row, o).value;
      LookupFindsEntry(rules, e);
      LookupFindsEntry(row, o);
      var i :| 0 <= i < |rules| && rules[i] == (e, row);
      var j :| 0 <= j < |row| && row[j] == (o, d);
      assert rules[i].1[j] == (o, d);
      ReachabilityMembership(rules, o, d);
    }
  }

  lemma {:induction false} DestinationsOfRow(row: seq<(string, string)>, o: string)
    requires UniqueKeys(row)
    ensures DestinationsFrom(row, o) == (match Lookup(row, o) case Some(d) => [d] case None => [])
  {
    if row != [] {
      DestinationsOfRow(row[1..], o);
      if row[0].0 == o {
        LookupFindsEntry(row[1..], o);
        assert forall i | 0 <= i < |row[1..]| :: row[1..][i].0 != o by {
          forall i | 0 <= i < |row[1..]| ensures row[1..][i].0 != o {
            assert row[1..][i] == row[i + 1];
          }
        }
      }
    }
  }

  /**
   * `transitions()[o]` holds one destination per event declaring origin `o`,
   * that event's destination, in event declaration order; so its length is
   * the number of such events, and duplicates are kept.
   */
  lemma {:induction false} ReachabilityByEvent(rules: Rules, o: string)
    requires WellFormedRules(rules)
    ensures o in ReachabilityOf(rules) <==> |EventDestinations(rules, o)| > 0
    ensures o in ReachabilityOf(rules) ==>
      |ReachabilityOf(rules)[o]| == |EventDestinations(rules, o)| &&
      forall k | 0 <= k < |EventDestinations(rules, o)| ::
        ReachabilityOf(rules)[o][k] == EventDestinations(rules, o)[k].1
  {
    FlattenDestinations(rules, o);
    var ds := DestinationsFrom(Flatten(rules), o);
    if o in OriginsOf(Flatten(rules)) {
      var p :| p in Flatten(rules) && p.0 == o;
      DestinationsMember(Flatten(rules), o, p.1);
    } else if |ds| > 0 {
      DestinationsMember(Flatten(rules), o, ds[0]);
    }
  }

  lemma {:induction false} FlattenDestinations(rules: Rules, o: string)
    requires WellFormedRules(rules)
    ensures |DestinationsFrom(Flatten(rules), o)| == |EventDestinations(rules, o)|
    ensures forall k | 0 <= k < |EventDestinations(rules, o)| ::
      DestinationsFrom(Flatten(rules), o)[k] == EventDestinations(rules, o)[k].1
  {
    if rules != [] {
      assert WellFormedRules(rules[1..]) by {
        forall e | 0 <= e < |rules[1..]| ensures UniqueKeys(rules[1..][e].1) {
          assert rules[1..][e] == rules[e + 1];
        }
      }
      FlattenDestinations(rules[1..], o);
      DestinationsConcat(rules[0].1, Flatten(rules[1..]), o);
      DestinationsOfRow(rules[0].1, o);
    }
  }

  /** The row of origin `o` is read off the events that declare it. */
  lemma ReachabilityRow(rules: Rules, o: string, ds: seq<string>)
    requires WellFormedRules(rules)
    requires |EventDestinations(rules, o)| == |ds| > 0
    requires forall k | 0 <= k < |ds| :: EventDestinations(rules, o)[k].1 == ds[k]
    ensures o in ReachabilityOf(rules) && ReachabilityOf(rules)[o] == ds
  {
    ReachabilityByEvent(rules, o);
  }
}
