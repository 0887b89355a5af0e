/**
 * Transition rules and the first-match-wins evaluation every rule table shares.
 * A rule maps its argument (the owning machine, possibly with data) to a target
 * state or to `None`, "no transition".
 */
module Rules {
  import opened Wrappers

  /** The result of evaluating `rules` on `arg` in order, stopping at the first non-null result. */
  function FirstMatch<A, S>(rules: seq<A -> Option<S>>, arg: A): Option<S>
    decreases |rules|
  {
    if |rules| == 0 then None
    else if rules[0](arg).Some? then rules[0](arg)
    else FirstMatch(rules[1..], arg)
  }

  /** Rule `k` is the first whose result on `arg` is non-null. */
  ghost predicate IsFirstMatch<A, S>(rules: seq<A -> Option<S>>, arg: A, k: int)
  {
    && 0 <= k < |rules|
    && rules[k](arg).Some?
    && forall j :: 0 <= j < k ==> rules[j](arg).None?
  }

  /** The first non-null rule decides the result, whatever the later rules yield. */
  lemma {:induction false} FirstMatchIsFirst<A, S>(rules: seq<A -> Option<S>>, arg: A, k: int)
    requires IsFirstMatch(rules, arg, k)
    ensures FirstMatch(rules, arg) == rules[k](arg)
    decreases |rules|
  {
    if k > 0 {
      assert rules[0](arg).None?;
      assert IsFirstMatch(rules[1..], arg, k - 1) by {
        forall j | 0 <= j < k - 1 ensures rules[1..][j](arg).None? {
          assert rules[1..][j] == rules[j + 1];
        }
      }
      FirstMatchIsFirst(rules[1..], arg, k - 1);
    }
  }

  /** A non-null result is produced by some rule, and every rule before it yields null. */
  lemma {:induction false} FirstMatchHasWitness<A, S>(rules: seq<A -> Option<S>>, arg: A)
    requires FirstMatch(rules, arg).Some?
    ensures exists k :: IsFirstMatch(rules, arg, k) && rules[k](arg) == FirstMatch(rules, arg)
    decreases |rules|
  {
    if rules[0](arg).Some? {
      assert IsFirstMatch(rules, arg, 0);
    } else {
      FirstMatchHasWitness(rules[1..], arg);
      var k :| IsFirstMatch(rules[1..], arg, k) && rules[1..][k](arg) == FirstMatch(rules[1..], arg);
      assert rules[1..][k] == rules[k + 1];
      forall j | 0 <= j < k + 1 ensures rules[j](arg).None? {
        if j > 0 { assert rules[1..][j - 1] == rules[j]; }
      }
      assert IsFirstMatch(rules, arg, k + 1);
    }
  }

  /** The result is null exactly when every rule yields null; an empty list yields null. */
  lemma {:induction false} FirstMatchNone<A, S>(rules: seq<A -> Option<S>>, arg: A)
    ensures FirstMatch(rules, arg).None? <==> forall k :: 0 <= k < |rules| ==> rules[k](arg).None?
    decreases |rules|
  {
    if |rules| > 0 {
      FirstMatchNone(rules[1..], arg);
      assert forall k :: 0 < k < |rules| ==> rules[1..][k - 1] == rules[k];
    }
  }

  /** Appending a rule (what `Add` does) changes the result only when no earlier rule matched. */
  lemma {:induction false} FirstMatchAppend<A, S>(rules: seq<A -> Option<S>>, rule: A -> Option<S>, arg: A)
    ensures FirstMatch(rules + [rule], arg)
         == if FirstMatch(rules, arg).Some? then FirstMatch(rules, arg) else rule(arg)
    decreases |rules|
  {
    if |rules| > 0 {
      assert (rules + [rule])[0] == rules[0];
      assert (rules + [rule])[1..] == rules[1..] + [rule];
      FirstMatchAppend(rules[1..], rule, arg);
    }
  }

  /**
   * Two lists whose rules agree position by position on their arguments give the
   * same result: what a rule is built from does not matter, only what it yields.
   */
  lemma {:induction false} FirstMatchPointwise<A, B, S>(rules: seq<A -> Option<S>>, arg: A,
                                                         others: seq<B -> Option<S>>, otherArg: B)
    requires |rules| == |others|
    requires forall k :: 0 <= k < |rules| ==> rules[k](arg) == others[k](otherArg)
    ensures FirstMatch(rules, arg) == FirstMatch(others, otherArg)
    decreases |rules|
  {
    if |rules| > 0 {
      forall k | 0 <= k < |rules| - 1 ensures rules[1..][k](arg) == others[1..][k](otherArg) {
        assert rules[1..][k] == rules[k + 1] && others[1..][k] == others[k + 1];
      }
      FirstMatchPointwise(rules[1..], arg, others[1..], otherArg);
    }
  }

  /**
   * The evaluation loop the tables run: rules in insertion order, returning at
   * the first non-null result. `evaluated` counts the rules that were invoked.
   */
  method Evaluate<A, S>(rules: seq<A -> Option<S>>, arg: A) returns (r: Option<S>, ghost evaluated: nat)
    ensures r == FirstMatch(rules, arg)
    ensures evaluated <= |rules|
    ensures r.Some? ==> IsFirstMatch(rules, arg, evaluated - 1) && r == rules[evaluated - 1](arg)
    ensures r.None? ==> evaluated == |rules| && forall k :: 0 <= k < |rules| ==> rules[k](arg).None?
  {
    var i := 0;
    while i < |rules|
      invariant 0 <= i <= |rules|
      invariant forall j :: 0 <= j < i ==> rules[j](arg).None?
      invariant FirstMatch(rules, arg) == FirstMatch(rules[i..], arg)
    {
      var result := rules[i](arg);
      if result.Some? {
        assert IsFirstMatch(rules, arg, i);
        return result, i + 1;
      }
      assert rules[i..][1..] == rules[i + 1..];
      i := i + 1;
    }
    return None, i;
  }

  /** A rule that yields `target` exactly when `condition` holds of its argument, and null otherwise. */
  function Conditional<A(!new), S>(condition: A -> bool, target: S): (r: A -> Option<S>)
    ensures forall a :: r(a).Some? <==> condition(a)
    ensures forall a :: r(a).Some? ==> r(a).value == target
  {
    a => if condition(a) then Some(target) else None
  }

  /** A rule that yields `target` whatever its argument. */
  function Always<A(!new), S>(target: S): (r: A -> Option<S>)
    ensures forall a :: r(a) == Some(target)
  {
    _ => Some(target)
  }

  /** In a list that starts with an unconditional rule, that rule's target always wins. */
  lemma AlwaysFirstWins<A(!new), S>(target: S, rest: seq<A -> Option<S>>, arg: A)
    ensures FirstMatch([Always(target)] + rest, arg) == Some(target)
  {
    assert ([Always<A, S>(target)] + rest)[0] == Always(target);
  }
}
