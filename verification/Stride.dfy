/** Stride scheduling in proc.c: the group with the smallest pass runs next and its pass
    grows by its stride, so groups get the CPU in proportion to their tickets. */
module Stride {
  import opened SchedTypes

  // -------------------------------------------------------------------
  // Choosing a group
  // -------------------------------------------------------------------

  /** A group the scheduler's loop can choose: active, with a pass below MAXINT. */
  predicate Eligible(g: Group) {
    g.Active() && g.pass < MAXINT
  }

  /** k is the first eligible group of smallest pass, or 0 when none is eligible. */
  ghost predicate IsPick(gs: seq<Group>, k: nat) {
    && k < |gs|
    && (forall i :: 0 <= i < |gs| && Eligible(gs[i]) ==>
          Eligible(gs[k]) && gs[k].pass <= gs[i].pass && (i < k ==> gs[k].pass < gs[i].pass))
    && (!Eligible(gs[k]) ==> k == 0)
  }

  lemma PickUnique(gs: seq<Group>, k: nat, l: nat)
    requires IsPick(gs, k) && IsPick(gs, l)
    ensures k == l
  {
    if Eligible(gs[k]) {
      assert gs[l].pass <= gs[k].pass && gs[k].pass <= gs[l].pass;
    }
  }

  // -------------------------------------------------------------------
  // Fairness
  // -------------------------------------------------------------------

  /** One round of the scheduler with a non-empty group: it ran a process for a tick, or
      found none RUNNABLE. */
  datatype Round = Ran(k: nat) | Idle(k: nat)

  /** The pass of the chosen group grows; no group comes, goes or changes its stride. */
  ghost predicate NextRound(gs: seq<Group>, r: Round, gs': seq<Group>) {
    && |gs'| == |gs| && IsPick(gs, r.k)
    && (forall i :: 0 <= i < |gs| ==> gs'[i].sid == gs[i].sid && gs'[i].stride == gs[i].stride && gs'[i].tickets == gs[i].tickets)
    && (forall i :: 0 <= i < |gs| ==>
          gs'[i].pass == if i == r.k then Plus(gs[i].pass, if r.Ran? then gs[i].stride else 1) else gs[i].pass)
  }

  ghost predicate IsRun(states: seq<seq<Group>>, rounds: seq<Round>) {
    && |states| == |rounds| + 1
    && forall i :: 0 <= i < |rounds| ==> NextRound(states[i], rounds[i], states[i + 1])
  }

  /** The scheduler's loop sees some group. */
  ghost predicate SomeEligible(gs: seq<Group>) {
    exists i :: 0 <= i < |gs| && Eligible(gs[i])
  }

  ghost predicate Spread(gs: seq<Group>, bound: nat) {
    forall i, j :: 0 <= i < |gs| && 0 <= j < |gs| && gs[i].Active() && gs[j].Active() ==> gs[i].pass <= gs[j].pass + bound
  }

  ghost predicate StridesWithin(gs: seq<Group>, bound: nat) {
    forall i :: 0 <= i < |gs| && gs[i].Active() ==> 1 <= gs[i].stride <= bound
  }

  /** What a round does to group i, when no sum wraps. */
  ghost predicate Moved(gs: seq<Group>, r: Round, gs': seq<Group>, i: nat)
    requires |gs'| == |gs| && i < |gs|
  {
    && gs'[i].stride == gs[i].stride && gs'[i].sid == gs[i].sid
    && gs'[i].pass == gs[i].pass + if r == Ran(i) then gs[i].stride as int else if r == Idle(i) then 1 else 0
  }

  lemma PickedIsLowest(gs: seq<Group>, k: nat)
    requires IsPick(gs, k) && SomeEligible(gs)
    ensures gs[k].Active() && forall i :: 0 <= i < |gs| && gs[i].Active() ==> gs[k].pass <= gs[i].pass
  {
  }

  lemma RoundMoves(gs: seq<Group>, r: Round, gs': seq<Group>, bound: nat, i: nat)
    requires NextRound(gs, r, gs') && SomeEligible(gs) && StridesWithin(gs, bound) && bound < MAXINT && i < |gs|
    ensures |gs'| == |gs| && Moved(gs, r, gs', i)
  {
  }

  lemma SpreadStep(gs: seq<Group>, r: Round, gs': seq<Group>, bound: nat)
    requires NextRound(gs, r, gs') && SomeEligible(gs) && Spread(gs, bound) && StridesWithin(gs, bound) && bound < MAXINT
    ensures |gs'| == |gs| && Spread(gs', bound) && StridesWithin(gs', bound)
    ensures forall i :: 0 <= i < |gs| ==> Moved(gs, r, gs', i)
  {
    PickedIsLowest(gs, r.k);
    forall i | 0 <= i < |gs|
      ensures Moved(gs, r, gs', i)
    {
      RoundMoves(gs, r, gs', bound, i);
    }
    assert r.k < |gs|;
    hide NextRound;
    hide IsPick;
  }

  /** The spread of passes never exceeds the larger of the initial spread and the largest
      stride, in runs of any length. */
  lemma {:induction false} RunSpread(states: seq<seq<Group>>, rounds: seq<Round>, bound: nat, n: nat)
    requires IsRun(states, rounds) && n <= |rounds| && bound < MAXINT
    requires Spread(states[0], bound) && StridesWithin(states[0], bound)
    requires forall i :: 0 <= i < |rounds| ==> SomeEligible(states[i])
    ensures Spread(states[n], bound) && StridesWithin(states[n], bound)
    ensures |states[n]| == |states[0]|
    ensures forall k :: 0 <= k < |states[0]| ==>
              states[n][k].stride == states[0][k].stride && states[n][k].sid == states[0][k].sid
  {
    hide NextRound;
    hide SomeEligible;
    hide Spread;
    hide StridesWithin;
    if n > 0 {
      RunSpread(states, rounds, bound, n - 1);
      assert NextRound(states[n - 1], rounds[n - 1], states[n - 1 + 1]);
      SpreadStep(states[n - 1], rounds[n - 1], states[n], bound);
      forall k | 0 <= k < |states[0]|
        ensures states[n][k].stride == states[0][k].stride && states[n][k].sid == states[0][k].sid
      {
        assert Moved(states[n - 1], rounds[n - 1], states[n], k);
      }
    }
  }

  /** Ticks that group k got in the first n rounds. */
  ghost function Ticks(rounds: seq<Round>, k: nat, n: nat): nat
    requires n <= |rounds|
  {
    if n == 0 then 0 else Ticks(rounds, k, n - 1) + if rounds[n - 1] == Ran(k) then 1 else 0
  }

  /** Always runnable: whenever chosen, the group runs. */
  ghost predicate NeverIdle(rounds: seq<Round>, k: nat) {
    Idle(k) !in rounds
  }

  lemma {:induction false} PassCountsTicks(states: seq<seq<Group>>, rounds: seq<Round>, bound: nat, k: nat, n: nat)
    requires IsRun(states, rounds) && n <= |rounds| && bound < MAXINT
    requires Spread(states[0], bound) && StridesWithin(states[0], bound)
    requires forall i :: 0 <= i < |rounds| ==> SomeEligible(states[i])
    requires k < |states[0]| && NeverIdle(rounds, k)
    ensures |states[n]| == |states[0]|
    ensures states[n][k].pass == states[0][k].pass + Ticks(rounds, k, n) * states[0][k].stride
  {
    hide NextRound;
    hide SomeEligible;
    hide Spread;
    hide StridesWithin;
    RunSpread(states, rounds, bound, n);
    if n > 0 {
      PassCountsTicks(states, rounds, bound, k, n - 1);
      RunSpread(states, rounds, bound, n - 1);
      assert NextRound(states[n - 1], rounds[n - 1], states[n - 1 + 1]);
      SpreadStep(states[n - 1], rounds[n - 1], states[n], bound);
      assert Moved(states[n - 1], rounds[n - 1], states[n], k);
      assert rounds[n - 1] in rounds;
      OneMore(Ticks(rounds, k, n - 1), states[0][k].stride);
    }
  }

  /** Rounds of the first n in which group k was found with nobody to run. */
  ghost function Idles(rounds: seq<Round>, k: nat, n: nat): nat
    requires n <= |rounds|
  {
    if n == 0 then 0 else Idles(rounds, k, n - 1) + if rounds[n - 1] == Idle(k) then 1 else 0
  }

  /** Over any run a pass grows by the stride for every tick and by one for every idle round, in 32 bits. */
  lemma {:induction false} PassAccounts(states: seq<seq<Group>>, rounds: seq<Round>, k: nat, n: nat)
    requires IsRun(states, rounds) && n <= |rounds| && k < |states[0]|
    ensures |states[n]| == |states[0]| && states[n][k].stride == states[0][k].stride
    ensures states[n][k].pass == (states[0][k].pass + Ticks(rounds, k, n) * states[0][k].stride + Idles(rounds, k, n)) % 0x1_0000_0000
  {
    hide NextRound;
    if n > 0 {
      PassAccounts(states, rounds, k, n - 1);
      assert NextRound(states[n - 1], rounds[n - 1], states[n - 1 + 1]);
      PassStep(states[n - 1], rounds[n - 1], states[n], k);
      OneMore(Ticks(rounds, k, n - 1), states[0][k].stride);
      var x := states[0][k].pass + Ticks(rounds, k, n - 1) * states[0][k].stride + Idles(rounds, k, n - 1);
      SumWraps(x, if rounds[n - 1] == Ran(k) then states[0][k].stride as nat else if rounds[n - 1] == Idle(k) then 1 else 0);
    }
  }

  lemma PassStep(gs: seq<Group>, r: Round, gs': seq<Group>, k: nat)
    requires NextRound(gs, r, gs') && k < |gs|
    ensures |gs'| == |gs| && gs'[k].stride == gs[k].stride
    ensures gs'[k].pass == (gs[k].pass + if r == Ran(k) then gs[k].stride as int else if r == Idle(k) then 1 else 0) % 0x1_0000_0000
  {
    hide IsPick;
  }

  lemma SumWraps(x: nat, y: nat)
    ensures (x % 0x1_0000_0000 + y) % 0x1_0000_0000 == (x + y) % 0x1_0000_0000
  {
    assert x == x / 0x1_0000_0000 * 0x1_0000_0000 + x % 0x1_0000_0000;
    MultipleAside(x / 0x1_0000_0000, x % 0x1_0000_0000 + y);
  }

  lemma {:induction false} MultipleAside(q: nat, z: nat)
    ensures (q * 0x1_0000_0000 + z) % 0x1_0000_0000 == z % 0x1_0000_0000
  {
    if q > 0 {
      MultipleAside(q - 1, z);
      assert (q * 0x1_0000_0000 + z) % 0x1_0000_0000 == ((q - 1) * 0x1_0000_0000 + z + 0x1_0000_0000) % 0x1_0000_0000;
    }
  }

  lemma OneMore(t: nat, s: nat)
    ensures (t + 1) * s == t * s + s
  {
  }

  /** Proportional share: over a run of any length two always-runnable groups get ticks in
      inverse proportion to their strides, to within a constant. */
  lemma Fairness(states: seq<seq<Group>>, rounds: seq<Round>, bound: nat, i: nat, j: nat)
    requires IsRun(states, rounds) && bound < MAXINT
    requires Spread(states[0], bound) && StridesWithin(states[0], bound)
    requires forall n :: 0 <= n < |rounds| ==> SomeEligible(states[n])
    requires i < |states[0]| && j < |states[0]| && states[0][i].Active() && states[0][j].Active()
    requires NeverIdle(rounds, i) && NeverIdle(rounds, j)
    ensures Ticks(rounds, i, |rounds|) * states[0][i].stride - Ticks(rounds, j, |rounds|) * states[0][j].stride <= 2 * bound
  {
    var n := |rounds|;
    RunSpread(states, rounds, bound, n);
    PassCountsTicks(states, rounds, bound, i, n);
    PassCountsTicks(states, rounds, bound, j, n);
  }

  ghost predicate AtMost(gs: seq<Group>, top: nat) {
    forall i :: 0 <= i < |gs| && gs[i].Active() ==> gs[i].pass <= top
  }

  lemma EligibleStep(gs: seq<Group>, r: Round, gs': seq<Group>, bound: nat, top: nat)
    requires NextRound(gs, r, gs') && SomeEligible(gs) && StridesWithin(gs, bound) && 1 <= bound
    requires AtMost(gs, top) && top + bound < MAXINT
    ensures SomeEligible(gs') && StridesWithin(gs', bound) && AtMost(gs', top + bound)
  {
    PickedIsLowest(gs, r.k);
    hide IsPick;
    hide SomeEligible;
    assert Eligible(gs'[r.k]);
    SomeOne(gs', r.k);
  }

  lemma SomeOne(gs: seq<Group>, k: nat)
    requires k < |gs| && Eligible(gs[k])
    ensures SomeEligible(gs)
  {
  }

  /** The hypothesis on passes holds for as many rounds as the passes leave room for. */
  lemma {:induction false} StaysBelow(states: seq<seq<Group>>, rounds: seq<Round>, bound: nat, top: nat, n: nat)
    requires IsRun(states, rounds) && n <= |rounds| && SomeEligible(states[0]) && StridesWithin(states[0], bound) && bound >= 1
    requires AtMost(states[0], top) && top + |rounds| * bound < MAXINT
    ensures SomeEligible(states[n]) && StridesWithin(states[n], bound) && AtMost(states[n], top + n * bound)
  {
    hide NextRound;
    hide SomeEligible;
    hide StridesWithin;
    hide AtMost;
    if n > 0 {
      StaysBelow(states, rounds, bound, top, n - 1);
      assert NextRound(states[n - 1], rounds[n - 1], states[n - 1 + 1]);
      OneMore(n - 1, bound);
      MulMonotone(n, |rounds|, bound);
      EligibleStep(states[n - 1], rounds[n - 1], states[n], bound, top + (n - 1) * bound);
    }
  }

  lemma MulMonotone(a: nat, b: nat, c: nat)
    requires a <= b
    ensures a * c <= b * c
  {
  }

  // -------------------------------------------------------------------
  // Starvation past MAXINT
  // -------------------------------------------------------------------

  /** The loop sees no group but, perhaps, the one at index 0. */
  ghost predicate OthersPast(gs: seq<Group>) {
    0 < |gs| && forall i :: 0 < i < |gs| ==> !Eligible(gs[i])
  }

  lemma PastStep(gs: seq<Group>, r: Round, gs': seq<Group>)
    requires NextRound(gs, r, gs') && OthersPast(gs)
    ensures r.k == 0 && OthersPast(gs')
  {
  }

  /** Passes are compared with MAXINT: once every other active pass has reached it, only the
      group at index 0 is ever chosen again, in runs of any length. */
  lemma {:induction false} PastMaxint(states: seq<seq<Group>>, rounds: seq<Round>, n: nat)
    requires IsRun(states, rounds) && n <= |rounds| && OthersPast(states[0])
    ensures OthersPast(states[n]) && forall i :: 0 <= i < n ==> rounds[i].k == 0
    ensures forall k :: 0 < k ==> Ticks(rounds, k, n) == 0
    ensures NeverIdle(rounds, 0) ==> Ticks(rounds, 0, n) == n
  {
    hide NextRound;
    hide OthersPast;
    if n > 0 {
      PastMaxint(states, rounds, n - 1);
      assert NextRound(states[n - 1], rounds[n - 1], states[n - 1 + 1]);
      PastStep(states[n - 1], rounds[n - 1], states[n]);
      assert rounds[n - 1] in rounds;
    }
  }

  /** Some group is picked, whatever the passes. */
  lemma {:induction false} PickAmong(gs: seq<Group>, n: nat) returns (k: nat)
    requires 0 < n <= |gs|
    ensures IsPick(gs[..n], k)
  {
    if n == 1 {
      k := 0;
    } else {
      var before := PickAmong(gs, n - 1);
      assert forall i :: 0 <= i < n - 1 ==> gs[..n - 1][i] == gs[..n][i];
      k := if Eligible(gs[n - 1]) && (!Eligible(gs[before]) || gs[n - 1].pass < gs[before].pass) then n - 1 else before;
    }
  }

  lemma PickExists(gs: seq<Group>) returns (k: nat)
    requires 0 < |gs|
    ensures IsPick(gs, k)
  {
    k := PickAmong(gs, |gs|);
    assert gs[..|gs|] == gs;
  }

  /** The table after the idle choice of group k. */
  ghost function Idled(gs: seq<Group>, k: nat): seq<Group>
    requires k < |gs|
  {
    gs[k := gs[k].(pass := Plus(gs[k].pass, 1))]
  }

  lemma RunBefore(gs: seq<Group>, r: Round, states: seq<seq<Group>>, rounds: seq<Round>)
    requires IsRun(states, rounds) && NextRound(gs, r, states[0])
    ensures IsRun([gs] + states, [r] + rounds)
  {
    hide NextRound;
    forall i | 0 <= i < |rounds| + 1
      ensures NextRound(([gs] + states)[i], ([r] + rounds)[i], ([gs] + states)[i + 1])
    {
      assert i > 0 ==> NextRound(states[i - 1], rounds[i - 1], states[i - 1 + 1]);
    }
  }

  /** While another group i is seen, some run comes to choose another group: group 0 idles until
      its pass has overtaken. */
  lemma {:induction false} AnotherChosen(gs: seq<Group>, i: nat) returns (states: seq<seq<Group>>, rounds: seq<Round>)
    requires 0 < i < |gs| && Eligible(gs[i])
    ensures IsRun(states, rounds) && states[0] == gs && rounds != [] && rounds[|rounds| - 1].k != 0
    decreases if gs[0].pass <= gs[i].pass then 1 + gs[i].pass - gs[0].pass else 0
  {
    var k := PickExists(gs);
    var next := Idled(gs, k);
    assert NextRound(gs, Idle(k), next);
    if k != 0 {
      states, rounds := [gs, next], [Idle(k)];
    } else {
      states, rounds := AnotherChosen(next, i);
      RunBefore(gs, Idle(0), states, rounds);
      states, rounds := [gs] + states, [Idle(0)] + rounds;
    }
  }

  /** Every run from gs chooses group 0 only. */
  ghost predicate OnlyFirst(gs: seq<Group>) {
    forall states: seq<seq<Group>>, rounds: seq<Round> ::
      IsRun(states, rounds) && states[0] == gs ==> forall i :: 0 <= i < |rounds| ==> rounds[i].k == 0
  }

  /** The other groups starve for ever, in every run, if and only if none of them is active with
      a pass below MAXINT. */
  lemma StarvedExactlyPastMaxint(gs: seq<Group>)
    requires 0 < |gs|
    ensures OnlyFirst(gs) <==> OthersPast(gs)
  {
    hide NextRound;
    if OthersPast(gs) {
      forall states: seq<seq<Group>>, rounds: seq<Round> | IsRun(states, rounds) && states[0] == gs
        ensures forall i :: 0 <= i < |rounds| ==> rounds[i].k == 0
      {
        PastMaxint(states, rounds, |rounds|);
      }
    } else {
      var i :| 0 < i < |gs| && Eligible(gs[i]);
      var states, rounds := AnotherChosen(gs, i);
      assert IsRun(states, rounds) && states[0] == gs && rounds[|rounds| - 1].k != 0;
    }
  }
}
