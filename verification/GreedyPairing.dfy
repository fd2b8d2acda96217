/**
The pairing behind message normalization, without the payloads: each giver in turn takes the
first taker that accepts it and that no earlier giver took.
*/
module GreedyPairing {
  import opened Wrappers

  datatype Role = Giver | Taker | Bystander

  type Acceptance = (nat, nat) -> bool

  predicate Candidate(roles: seq<Role>, accepts: Acceptance, taken: map<nat, nat>, giver: nat, taker: nat) {
    taker < |roles| && roles[taker].Taker? && taker !in taken && accepts(giver, taker)
  }

  function FirstCandidate(roles: seq<Role>, accepts: Acceptance, taken: map<nat, nat>, giver: nat, from: nat)
    : (r: Option<nat>)
    requires from <= |roles|
    ensures r.Some? ==> from <= r.value && Candidate(roles, accepts, taken, giver, r.value)
    ensures forall t | from <= t < (if r.Some? then r.value else |roles|) :: !Candidate(roles, accepts, taken, giver, t)
    decreases |roles| - from
  {
    if from == |roles| then None
    else if Candidate(roles, accepts, taken, giver, from) then Some(from)
    else FirstCandidate(roles, accepts, taken, giver, from + 1)
  }

  /** The pairs made by the first `n` rows: from each taken taker to its giver. */
  function Pairs(roles: seq<Role>, accepts: Acceptance, n: nat): map<nat, nat>
    requires n <= |roles|
  {
    if n == 0 then map[]
    else
      var before := Pairs(roles, accepts, n - 1);
      if !roles[n - 1].Giver? then before
      else
        var taker := FirstCandidate(roles, accepts, before, n - 1, 0);
        if taker.Some? then before[taker.value := n - 1] else before
  }

  predicate Injective(m: map<nat, nat>) {
    forall s, t | s in m && t in m && s != t :: m[s] != m[t]
  }

  lemma ValuesAfter(pairs: map<nat, nat>, taker: nat, giver: nat)
    requires taker !in pairs
    ensures pairs[taker := giver].Values == pairs.Values + {giver}
  {
    forall v | v in pairs.Values ensures v in pairs[taker := giver].Values {
      var t :| t in pairs && pairs[t] == v;
      assert pairs[taker := giver][t] == v;
    }
    assert pairs[taker := giver][taker] == giver;
  }

  /** Pairs join an accepting taker with a giver, below `n`. */
  lemma {:induction false} PairsAreProper(roles: seq<Role>, accepts: Acceptance, n: nat)
    requires n <= |roles|
    ensures forall t | t in Pairs(roles, accepts, n) ::
      && t < |roles| && roles[t].Taker?
      && Pairs(roles, accepts, n)[t] < n && roles[Pairs(roles, accepts, n)[t]].Giver?
      && accepts(Pairs(roles, accepts, n)[t], t)
  {
    if n > 0 {
      PairsAreProper(roles, accepts, n - 1);
    }
  }

  lemma {:induction false} PairsGrow(roles: seq<Role>, accepts: Acceptance, m: nat, n: nat)
    requires m <= n <= |roles|
    ensures forall t | t in Pairs(roles, accepts, m) ::
      t in Pairs(roles, accepts, n) && Pairs(roles, accepts, n)[t] == Pairs(roles, accepts, m)[t]
    ensures forall t | t in Pairs(roles, accepts, n) && t !in Pairs(roles, accepts, m) :: Pairs(roles, accepts, n)[t] >= m
  {
    if m < n {
      PairsGrow(roles, accepts, m, n - 1);
    }
  }

  lemma InjectiveAfter(m: map<nat, nat>, taker: nat, giver: nat)
    requires Injective(m) && |m.Values| == |m|
    requires taker !in m && forall t | t in m :: m[t] < giver
    ensures Injective(m[taker := giver]) && |m[taker := giver].Values| == |m[taker := giver]|
  {
    ValuesAfter(m, taker, giver);
    assert giver !in m.Values;
  }

  /** Each giver is paired at most once, so the pairing is injective both ways. */
  lemma {:induction false} PairingIsInjective(roles: seq<Role>, accepts: Acceptance, n: nat)
    requires n <= |roles|
    ensures Injective(Pairs(roles, accepts, n))
    ensures |Pairs(roles, accepts, n).Values| == |Pairs(roles, accepts, n)|
  {
    if n > 0 {
      var before := Pairs(roles, accepts, n - 1);
      PairingIsInjective(roles, accepts, n - 1);
      PairsAreProper(roles, accepts, n - 1);
      var taker := FirstCandidate(roles, accepts, before, n - 1, 0);
      if taker.Some? {
        InjectiveAfter(before, taker.value, n - 1);
      }
    }
  }

  /**
  The greedy rule: a taker that would accept a giver was either taken by an earlier giver, or the
  giver took it or a taker before it.
  */
  lemma PairingIsGreedy(roles: seq<Role>, accepts: Acceptance, giver: nat, taker: nat)
    requires giver < |roles| && taker < |roles| && roles[giver].Giver? && roles[taker].Taker?
    requires accepts(giver, taker)
    ensures var pairs := Pairs(roles, accepts, |roles|);
      || (taker in pairs && pairs[taker] < giver)
      || exists t :: t in pairs && pairs[t] == giver && t <= taker
  {
    var before := Pairs(roles, accepts, giver);
    PairsGrow(roles, accepts, giver, |roles|);
    PairsGrow(roles, accepts, giver + 1, |roles|);
    PairsAreProper(roles, accepts, giver);
    if taker !in before {
      var chosen := FirstCandidate(roles, accepts, before, giver, 0);
      assert Candidate(roles, accepts, before, giver, taker);
      assert chosen.value in Pairs(roles, accepts, giver + 1);
    }
  }
}
