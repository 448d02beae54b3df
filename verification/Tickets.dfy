/** Tickets in proc.c: the MLFQ group at index 0 gives tickets to admitted groups and gets
    them back when they empty. All arithmetic is on 32-bit unsigned integers. */
module Tickets {
  import opened SchedTypes
  import opened Stride

  ghost function Total(gs: seq<Group>): nat {
    if gs == [] then 0 else Total(gs[..|gs| - 1]) + gs[|gs| - 1].tickets
  }

  /** One hundred tickets in all, MLFQ keeps at least 20, strides follow tickets. */
  ghost predicate TicketsValid(gs: seq<Group>) {
    && |gs| == NPROC && gs[0].Active() && Total(gs) == 100 && gs[0].tickets >= 20
    && (forall i :: 0 <= i < |gs| && gs[i].Active() ==> gs[i].tickets >= 1 && gs[i].stride == 1000 / gs[i].tickets)
    && (forall i :: 0 <= i < |gs| && !gs[i].Active() ==> gs[i].tickets == 0)
  }

  lemma {:induction false} TotalUpdate(gs: seq<Group>, k: nat, g: Group)
    requires k < |gs|
    ensures Total(gs[k := g]) == Total(gs) - gs[k].tickets + g.tickets
  {
    var n := |gs| - 1;
    if k == n {
      assert gs[k := g][..n] == gs[..n];
    } else {
      assert gs[k := g][..n] == gs[..n][k := g];
      TotalUpdate(gs[..n], k, g);
    }
  }

  lemma {:induction false} TotalAtLeast(gs: seq<Group>, i: nat, j: nat)
    requires i < |gs| && j < |gs|
    ensures gs[i].tickets <= Total(gs)
    ensures i != j ==> gs[i].tickets + gs[j].tickets <= Total(gs)
  {
    var n := |gs| - 1;
    if n > 0 {
      if i < n {
        TotalAtLeast(gs[..n], i, if j < n then j else i);
      }
      if j < n && i == n {
        TotalAtLeast(gs[..n], j, j);
      }
    }
  }

  lemma {:induction false} TotalZero(gs: seq<Group>)
    requires forall i :: 0 <= i < |gs| ==> gs[i].tickets == 0
    ensures Total(gs) == 0
  {
    if gs != [] {
      TotalZero(gs[..|gs| - 1]);
    }
  }

  /** The values of an int. */
  predicate InRange(percent: int) {
    -0x8000_0000 <= percent < 0x8000_0000
  }

  lemma WrapCases(x: int, y: int)
    requires 0 <= x < UINT && InRange(y)
    ensures Minus(x, y) == if y > x then x - y + UINT else if x - y >= UINT then x - y - UINT else x - y
    ensures Minus(x, y % UINT) == Minus(x, y)
    ensures y % UINT == if y >= 0 then y else y + UINT
  {
  }

  // -------------------------------------------------------------------
  // The three operations on tickets
  // -------------------------------------------------------------------

  /** pinit: the first group gets all tickets. */
  function Booted(gs: seq<Group>, sid: nat): seq<Group>
    requires |gs| == NPROC
  {
    gs[0 := gs[0].(tickets := ENTIRETICKETS, stride := SHARES / ENTIRETICKETS, pass := 0, used := 0, sid := sid)]
  }

  /** scheduler's removal of the empty group k; the divisor must not be 0. */
  function Removed(gs: seq<Group>, k: nat): seq<Group>
    requires 0 < |gs| && k < |gs| && Plus(gs[0].tickets, gs[k].tickets) != 0
  {
    var t := Plus(gs[0].tickets, gs[k].tickets);
    var gs1 := gs[0 := gs[0].(tickets := t, stride := SHARES / t)];
    gs1[k := gs1[k].(tickets := 0, stride := 0, pass := 0, used := 0, sid := 0)]
  }

  /** MLFQ's share as set_cpu_share computes it; the product wraps. */
  function Percentage(tickets: U32): nat {
    tickets * 100 % UINT / ENTIRETICKETS
  }

  /** set_cpu_share's test: percent would leave MLFQ less than 20. */
  predicate Refuses(gs: seq<Group>, percent: int)
    requires 0 < |gs|
  {
    Minus(Percentage(gs[0].tickets), percent) < 20
  }

  /** While MLFQ has at most 100 tickets that is: exactly the requests that would leave it less than
      20, but no request for more than it has. */
  lemma RefusedExactly(gs: seq<Group>, percent: int)
    requires 0 < |gs| && gs[0].tickets <= 100 && InRange(percent)
    ensures Refuses(gs, percent) <==> 0 <= gs[0].tickets - percent < 20
  {
    assert Percentage(gs[0].tickets) == gs[0].tickets;
    WrapCases(gs[0].tickets, percent);
  }

  /** The group set_cpu_share fills in at the free index k, given the smallest pass. */
  function NewGroup(g: Group, percent: int, minpass: nat, sid: nat): Group
    requires percent % UINT != 0
  {
    var t: U32 := percent % UINT;
    g.(tickets := t, stride := SHARES / t, pass := Minus(minpass, SHARES / t), used := 0, sid := sid)
  }

  function Admitted(gs: seq<Group>, k: nat, percent: int, minpass: nat, sid: nat): seq<Group>
    requires 0 < k < |gs| && percent % UINT != 0 && Minus(gs[0].tickets, percent % UINT) != 0
  {
    var t := Minus(gs[0].tickets, percent % UINT);
    gs[k := NewGroup(gs[k], percent, minpass, sid)][0 := gs[0].(tickets := t, stride := SHARES / t)]
  }

  // -------------------------------------------------------------------
  // Conservation
  // -------------------------------------------------------------------

  lemma BootKeepsTickets(gs: seq<Group>, sid: nat)
    requires |gs| == NPROC && sid != 0 && forall i :: 0 <= i < |gs| ==> gs[i].tickets == 0 && gs[i].sid == 0
    ensures TicketsValid(Booted(gs, sid))
  {
    TotalZero(gs);
    TotalUpdate(gs, 0, Booted(gs, sid)[0]);
  }

  /** Removing an empty group keeps the tickets, if and only if it is not MLFQ itself. */
  lemma RemovalKeepsTickets(gs: seq<Group>, k: nat)
    requires TicketsValid(gs) && k < |gs| && gs[k].Active()
    ensures Plus(gs[0].tickets, gs[k].tickets) != 0
    ensures TicketsValid(Removed(gs, k)) <==> k != 0
  {
    TotalAtLeast(gs, 0, k);
    var t := Plus(gs[0].tickets, gs[k].tickets);
    if k != 0 {
      var gs1 := gs[0 := gs[0].(tickets := t, stride := SHARES / t)];
      TotalUpdate(gs, 0, gs1[0]);
      TotalUpdate(gs1, k, Removed(gs, k)[k]);
    }
  }

  lemma AdmittedTotal(gs: seq<Group>, k: nat, percent: int, minpass: nat, sid: nat)
    requires TicketsValid(gs) && 0 < k < |gs| && !gs[k].Active()
    requires percent % UINT != 0 && Minus(gs[0].tickets, percent % UINT) != 0
    ensures var r := Admitted(gs, k, percent, minpass, sid);
            Total(r) == ENTIRETICKETS - gs[0].tickets + r[0].tickets + r[k].tickets
  {
    var r := Admitted(gs, k, percent, minpass, sid);
    TotalUpdate(gs, k, r[k]);
    TotalUpdate(gs[k := r[k]], 0, r[0]);
    assert r == gs[k := r[k]][0 := r[0]];
  }

  /** An admitted request keeps the tickets, if and only if the percentage lies between 1
      and MLFQ's tickets. The unsigned test lets everything else but 0 through. */
  lemma AdmissionKeepsTickets(gs: seq<Group>, k: nat, percent: int, minpass: nat, sid: nat)
    requires TicketsValid(gs) && 0 < k < |gs| && !gs[k].Active() && sid != 0
    requires percent != 0 && InRange(percent) && !Refuses(gs, percent)
    ensures percent % UINT != 0 && Minus(gs[0].tickets, percent % UINT) != 0
    ensures TicketsValid(Admitted(gs, k, percent, minpass, sid)) <==> 1 <= percent <= gs[0].tickets
  {
    WrapCases(gs[0].tickets, percent);
    TotalAtLeast(gs, 0, 0);
    assert Percentage(gs[0].tickets) == gs[0].tickets;
    hide Minus;
    AdmittedTotal(gs, k, percent, minpass, sid);
    hide Total;
    var r := Admitted(gs, k, percent, minpass, sid);
    assert r[0].tickets == Minus(gs[0].tickets, percent) && r[k].tickets == percent % UINT;
    assert forall i :: 0 < i < |gs| && i != k ==> r[i] == gs[i];
  }

  // -------------------------------------------------------------------
  // Over every run
  // -------------------------------------------------------------------

  ghost predicate SameTickets(gs: seq<Group>, hs: seq<Group>) {
    && |gs| == |hs|
    && forall i :: 0 <= i < |gs| ==> gs[i].tickets == hs[i].tickets && gs[i].stride == hs[i].stride && gs[i].sid == hs[i].sid
  }

  lemma {:induction false} SameTotal(gs: seq<Group>, hs: seq<Group>)
    requires SameTickets(gs, hs)
    ensures Total(gs) == Total(hs)
  {
    if gs != [] {
      SameTotal(gs[..|gs| - 1], hs[..|hs| - 1]);
    }
  }

  /** Anything that leaves tickets alone, the removal of an empty group other than MLFQ, or
      the admission of a percentage that MLFQ has. */
  ghost predicate TicketStep(gs: seq<Group>, gs': seq<Group>) {
    || SameTickets(gs', gs)
    || (exists k :: RemovesGroup(gs, k, gs'))
    || (exists k, percent, minpass, sid :: AdmitsGroup(gs, k, percent, minpass, sid, gs'))
  }

  ghost predicate RemovesGroup(gs: seq<Group>, k: nat, gs': seq<Group>) {
    && 0 < k < |gs| && gs[k].Active() && Plus(gs[0].tickets, gs[k].tickets) != 0
    && SameTickets(gs', Removed(gs, k))
  }

  ghost predicate AdmitsGroup(gs: seq<Group>, k: nat, percent: int, minpass: nat, sid: nat, gs': seq<Group>) {
    && 0 < k < |gs| && !gs[k].Active() && sid != 0 && 1 <= percent <= gs[0].tickets && InRange(percent)
    && !Refuses(gs, percent) && percent % UINT != 0 && Minus(gs[0].tickets, percent % UINT) != 0
    && SameTickets(gs', Admitted(gs, k, percent, minpass, sid))
  }

  lemma SameTicketsValid(gs: seq<Group>, hs: seq<Group>)
    requires TicketsValid(gs) && SameTickets(hs, gs)
    ensures TicketsValid(hs)
  {
    SameTotal(hs, gs);
    hide Total;
  }

  /** Over every sequence of admissions and removals the tickets are conserved. */
  lemma {:induction false} TicketsConserved(states: seq<seq<Group>>, n: nat)
    requires n < |states| && TicketsValid(states[0])
    requires forall i :: 0 <= i < |states| - 1 ==> TicketStep(states[i], states[i + 1])
    ensures TicketsValid(states[n])
  {
    if n > 0 {
      TicketsConserved(states, n - 1);
      var gs, gs' := states[n - 1], states[n];
      hide TicketsValid;
      assert TicketStep(gs, states[n - 1 + 1]);
      if k :| RemovesGroup(gs, k, gs') {
        RemovalKeepsTickets(gs, k);
        SameTicketsValid(Removed(gs, k), gs');
      } else if k, percent, minpass, sid :| AdmitsGroup(gs, k, percent, minpass, sid, gs') {
        AdmissionKeepsTickets(gs, k, percent, minpass, sid);
        SameTicketsValid(Admitted(gs, k, percent, minpass, sid), gs');
      } else {
        SameTicketsValid(gs, gs');
      }
    }
  }

  /** The request for 101 percent that a freshly booted kernel admits. */
  lemma OvercommitAdmitted(gs: seq<Group>)
    requires |gs| == NPROC && forall i :: 0 <= i < |gs| ==> gs[i].tickets == 0 && gs[i].sid == 0
    ensures var b := Booted(gs, 1);
            TicketsValid(b) && !Refuses(b, 101) && Minus(b[0].tickets, 101 % UINT) != 0 && Admitted(b, 1, 101, 0, 2)[0].tickets == UINT - 1
            && !TicketsValid(Admitted(b, 1, 101, 0, 2))
  {
    BootKeepsTickets(gs, 1);
    AdmissionKeepsTickets(Booted(gs, 1), 1, 101, 0, 2);
  }

  lemma StrideRange(percent: int)
    requires 1 <= percent <= 100
    ensures percent % UINT == percent && 10 <= SHARES / percent <= 1000
  {
  }

  lemma NewGroupPass(g: Group, percent: int, minpass: nat, sid: nat)
    requires 1 <= percent <= 100 && SHARES / percent <= minpass <= MAXINT
    ensures percent % UINT != 0 && NewGroup(g, percent, minpass, sid).pass == minpass - SHARES / percent
  {
  }

  /** Right after boot every pass is 0, so the pass of the first group admitted wraps, and in
      no run of the groups then active is it ever chosen. */
  lemma FirstGroupStarves(gs: seq<Group>, percent: int)
    requires |gs| == NPROC && 1 <= percent <= 80 && forall i :: 0 <= i < |gs| ==> gs[i].tickets == 0 && gs[i].sid == 0
    ensures var b := Booted(gs, 1);
            && IsPick(b, 0) && b[0].pass == 0 && !Refuses(b, percent) && percent % UINT != 0
            && Minus(b[0].tickets, percent % UINT) != 0 && OnlyFirst(Admitted(b, 1, percent, 0, 2))
  {
    hide Minus;
    hide OnlyFirst;
    hide Refuses;
    hide Admitted;
    AdmissibleAfterBoot(gs, percent);
    OthersPastAfterBoot(gs, percent);
    StarvedExactlyPastMaxint(Admitted(Booted(gs, 1), 1, percent, 0, 2));
  }

  lemma AdmissibleAfterBoot(gs: seq<Group>, percent: int)
    requires |gs| == NPROC && 1 <= percent <= 80
    ensures var b := Booted(gs, 1); !Refuses(b, percent) && percent % UINT != 0 && Minus(b[0].tickets, percent % UINT) != 0
  {
    assert percent % UINT == percent;
  }

  lemma OthersPastAfterBoot(gs: seq<Group>, percent: int)
    requires |gs| == NPROC && 1 <= percent <= 80 && forall i :: 0 <= i < |gs| ==> gs[i].sid == 0
    requires percent % UINT != 0 && Minus(Booted(gs, 1)[0].tickets, percent % UINT) != 0
    ensures OthersPast(Admitted(Booted(gs, 1), 1, percent, 0, 2))
  {
    hide Minus;
    hide NewGroup;
    NewGroupEligible(Booted(gs, 1)[1], percent, 0, 2);
    StrideRange(percent);
  }

  /** The admitted group can be chosen, if and only if the smallest pass is at least its
      stride; otherwise its pass wraps past MAXINT. */
  lemma NewGroupEligible(g: Group, percent: int, minpass: nat, sid: nat)
    requires 1 <= percent <= 100 && minpass <= MAXINT && sid != 0
    ensures Eligible(NewGroup(g, percent, minpass, sid)) <==> minpass >= SHARES / percent
  {
    StrideRange(percent);
  }

  /** An eligible new group widens the spread of passes by at most its stride. */
  lemma AdmissionSpread(gs: seq<Group>, k: nat, percent: int, minpass: nat, sid: nat, bound: nat)
    requires |gs| == NPROC && 0 < k < |gs| && !gs[k].Active() && sid != 0 && gs[0].Active()
    requires percent % UINT != 0 && Minus(gs[0].tickets, percent % UINT) != 0
    requires 1 <= percent <= 100 && SHARES / percent <= minpass <= MAXINT && Spread(gs, bound)
    requires forall i :: 0 <= i < |gs| && gs[i].Active() ==> minpass <= gs[i].pass
    requires exists i :: 0 <= i < |gs| && gs[i].Active() && gs[i].pass == minpass
    ensures Spread(Admitted(gs, k, percent, minpass, sid), bound + SHARES / percent)
  {
    NewGroupPass(gs[k], percent, minpass, sid);
    hide NewGroup;
    var s := SHARES / percent;
    var r := Admitted(gs, k, percent, minpass, sid);
    assert r[k].pass == minpass - s;
    assert forall i :: 0 <= i < |r| && i != k ==> r[i].pass == gs[i].pass && r[i].sid == gs[i].sid;
    SpreadWith(gs, r, k, minpass, bound, s);
  }

  lemma SpreadWith(gs: seq<Group>, r: seq<Group>, k: nat, minpass: nat, bound: nat, s: nat)
    requires |r| == |gs| && k < |gs| && Spread(gs, bound) && s <= minpass
    requires forall i :: 0 <= i < |gs| && gs[i].Active() ==> minpass <= gs[i].pass
    requires exists i :: 0 <= i < |gs| && gs[i].Active() && gs[i].pass == minpass
    requires r[k].pass == minpass - s
    requires forall i :: 0 <= i < |r| && i != k ==> r[i].pass == gs[i].pass && r[i].sid == gs[i].sid
    ensures Spread(r, bound + s)
  {
  }
}
