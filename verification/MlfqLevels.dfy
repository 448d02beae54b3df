/** How a member moves through the three levels of its group's queue: five ticks at level 0, ten at
    level 1, then level 2, and back to level 0 at every hundredth tick of the group. */
module MlfqLevels {
  import opened SchedTypes
  import opened Mlfq

  /** Ticks that a member may use at a level before it is moved down. */
  ghost predicate Spent(p: Proc) {
    (p.level == 0 && p.used >= 5) || (p.level == 1 && p.used >= 10) || (p.level >= 2 && p.used >= 20)
  }

  /** What one tick without a boost does to the rank of member w. */
  lemma TickRank(q: Queue, k: nat, r: Queue, w: nat)
    requires q.Valid() && Tick(q, k, r) && r.Valid() && q.Has(w) && q.used < 99
    ensures k < 64 && r.Has(w) && r.cur == k && q.Ready(k) && r.used == q.used + 1
    ensures var p, p' := q.At(w), r.At(w);
            && p'.level == (if w == q.cur && Spent(p) && p.level < 2 then p.level + 1 else p.level)
            && p'.used == (if w == q.cur && Spent(p) then 0 else p.used) + (if k == w then 1 else 0)
  {
    hide IsChoice;
    var c :| TickVia(q, k, c, r);
    ChosenRank(q, k, c, w);
    hide Chosen;
    assert Charged(c, k).Has(w);
  }

  lemma ChosenRank(q: Queue, k: nat, c: Queue, w: nat)
    requires q.Valid() && Chosen(q, k, c) && q.Has(w)
    ensures c.Valid() && c.Has(w) && k < 64 && c.slots == q.slots && c.Has(k) && c.used == q.used && q.Ready(k)
    ensures var p, p' := q.At(w), c.At(w);
            && p'.level == (if w == q.cur && Spent(p) && p.level < 2 then p.level + 1 else p.level)
            && p'.used == if w == q.cur && Spent(p) then 0 else p.used
  {
    ChosenShape(q, k, c);
  }

  /** Times that member w was chosen. */
  ghost function Turns(picks: seq<nat>, w: nat): nat {
    if picks == [] then 0 else Turns(picks[..|picks| - 1], w) + if picks[|picks| - 1] == w then 1 else 0
  }

  /** The rank after t ticks on the way down: below 5 at level 0, below 15 at level 1, then at level 2
      for ever, in rounds of 20. A member that has just used up its ticks and is the current one is
      still where it was; it moves when the group is next chosen. */
  ghost predicate RankIs(p: Proc, current: bool, t: nat) {
    && (p.level == 0 ==> p.used == t <= 5)
    && (p.level == 1 ==> p.used == t - 5 && 5 <= t <= 15)
    && (p.level == 2 ==> 15 + p.used <= t && p.used <= 20 && (t - 15 - p.used) % 20 == 0)
    && (!current ==> !Spent(p)) && p.level <= 2
  }

  /** Member w is on its way down, t ticks from a fresh start. */
  ghost predicate WayDown(q: Queue, w: nat, t: nat) {
    q.Valid() && q.Has(w) && RankIs(q.At(w), w == q.cur, t)
  }

  lemma RoundDone(t: int)
    requires t % 20 == 0
    ensures (t + 20) % 20 == 0
  {
  }

  lemma RankMoves(p: Proc, current: bool, p': Proc, chosen: bool, t: nat)
    requires RankIs(p, current, t)
    requires p'.level == if current && Spent(p) && p.level < 2 then p.level + 1 else p.level
    requires p'.used == (if current && Spent(p) then 0 else p.used) + if chosen then 1 else 0
    ensures RankIs(p', chosen, if chosen then t + 1 else t)
  {
    if p.level == 2 {
      RoundDone(t - 15 - p.used);
    }
  }

  lemma RankStep(q: Queue, k: nat, r: Queue, w: nat, t: nat)
    requires WayDown(q, w, t) && Tick(q, k, r) && r.Valid() && q.used < 99
    ensures WayDown(r, w, if k == w then t + 1 else t) && r.used == q.used + 1
  {
    hide RankIs;
    hide Spent;
    TickRank(q, k, r, w);
    hide Tick;
    RankMoves(q.At(w), w == q.cur, r.At(w), k == w, t);
  }

  lemma TurnsMore(picks: seq<nat>, i: nat, j: nat, w: nat)
    requires i < j <= |picks|
    ensures Turns(picks[i..j], w) == Turns(picks[i..j - 1], w) + if picks[j - 1] == w then 1 else 0
  {
    assert picks[i..j][..j - 1 - i] == picks[i..j - 1];
  }

  /** Between two boosts a member's level and used ticks are those of the ticks it has got, from
      whatever rank it started. */
  lemma {:induction false} RankFollowsTicks(queues: seq<Queue>, picks: seq<nat>, w: nat, i: nat, j: nat, t: nat)
    requires IsGroupRun(queues, picks) && i <= j < |queues| && queues[i].used + (j - i) < 100 && WayDown(queues[i], w, t)
    ensures WayDown(queues[j], w, t + Turns(picks[i..j], w)) && queues[j].used == queues[i].used + (j - i)
    decreases j - i
  {
    hide Tick;
    hide WayDown;
    if i < j {
      assert queues[j - 1].Valid() && Tick(queues[j - 1], picks[j - 1], queues[j - 1 + 1]) && queues[j].Valid();
      RankFollowsTicks(queues, picks, w, i, j - 1, t);
      TurnsMore(picks, i, j, w);
      RankStep(queues[j - 1], picks[j - 1], queues[j], w, t + Turns(picks[i..j - 1], w));
    }
  }

  /** From a fresh start at level 0 and with no boost in between: a member that has got fewer than 5
      ticks is at level 0, after 5 and until 15 at level 1, after 15 at level 2; exactly at 5 and 15 it
      has moved down unless the group has not been chosen since. */
  lemma Demotion(queues: seq<Queue>, picks: seq<nat>, w: nat, i: nat, j: nat)
    requires IsGroupRun(queues, picks) && i <= j < |queues| && queues[i].used + (j - i) < 100
    requires queues[i].Valid() && queues[i].Has(w) && queues[i].At(w).level == 0 && queues[i].At(w).used == 0
    ensures queues[j].Valid() && queues[j].Has(w)
    ensures var p, t := queues[j].At(w), Turns(picks[i..j], w);
            && (t < 5 ==> p.level == 0 && p.used == t)
            && (5 < t < 15 ==> p.level == 1 && p.used == t - 5)
            && (15 < t ==> p.level == 2 && p.used <= 20 && (t - 15 - p.used) % 20 == 0)
            && (t == 5 ==> if i < j && picks[j - 1] == w then p.level == 0 && p.used == 5 else p.level == 1 && p.used == 0)
            && (t == 15 ==> if i < j && picks[j - 1] == w then p.level == 1 && p.used == 10 else p.level == 2 && p.used == 0)
  {
    hide Tick;
    RankFollowsTicks(queues, picks, w, i, j, 0);
    if i < j {
      assert Tick(queues[j - 1], picks[j - 1], queues[j - 1 + 1]);
      assert queues[j - 1].Valid();
      LastCurrent(queues[j - 1], picks[j - 1], queues[j]);
      if picks[j - 1] == w {
        RankFollowsTicks(queues, picks, w, i, j - 1, 0);
        TurnsMore(picks, i, j, w);
        assert queues[j - 1].Valid() && queues[j].Valid();
        TickRank(queues[j - 1], w, queues[j], w);
      }
    }
  }

  lemma LastCurrent(q: Queue, k: nat, r: Queue)
    requires q.Valid() && Tick(q, k, r)
    ensures r.cur == k
  {
  }

  /** A RUNNABLE member with ticks left of its 5, 10 or 20 is chosen again. */
  lemma ChosenAgain(q: Queue, k: nat, r: Queue)
    requires q.Valid() && Tick(q, k, r) && q.Ready(q.cur)
    requires q.At(q.cur).used < (if q.At(q.cur).level == 0 then 5 else if q.At(q.cur).level == 1 then 10 else 20)
    ensures k == q.cur
  {
    var c :| TickVia(q, k, c, r);
    assert Keeps(q);
  }

  /** The search comes to k before i: at level 0 going round from behind the current member, at the
      other levels from the first in the table. */
  ghost predicate ComesFirst(cur: nat, level: nat, k: nat, i: nat) {
    if level > 0 then k < i else if cur < k then i <= cur || k < i else k < i <= cur
  }

  lemma AheadMeans(cur: nat, k: nat, i: nat)
    requires cur < NPROC && k < NPROC && i < NPROC && Ahead(cur, k) <= Ahead(cur, i) && i != k
    ensures ComesFirst(cur, 0, k, i)
  {
  }

  lemma ChargedLevels(c: Queue, k: nat, r: Queue, i: nat)
    requires c.Valid() && c.Has(k) && c.Has(i) && SameRanks(Charged(c, k), r) && r.Valid()
    ensures r.Has(i) && r.At(i).level == c.At(i).level
  {
    assert Charged(c, k).Has(i);
  }

  lemma ChoiceLevels(q: Queue, k: nat, c: Queue, i: nat)
    requires q.Valid() && Chosen(q, k, c) && (q.Ready(q.cur) ==> Spent(q.At(q.cur))) && q.Ready(i)
    ensures c.Valid() && c.slots == q.slots && k < 64 && q.Ready(k) && c.Has(i) && c.Has(k) && c.At(k).level <= c.At(i).level
    ensures c.At(k).level == c.At(i).level && i != k ==> ComesFirst(q.cur, c.At(k).level, k, i)
  {
    assert !Keeps(q);
    DemotedReady(q);
    hide Keeps;
    hide Ahead;
    hide Demoted;
    hide Spent;
    assert Demoted(q).Ready(i) && IsChoice(Demoted(q), k);
    if c.At(k).level == c.At(i).level == 0 && i != k {
      AheadMeans(q.cur, k, i);
    }
  }

  /** Otherwise the choice falls on a RUNNABLE member of the lowest level, after the current one has been
      moved down: at level 0 the next one going round, at levels 1 and 2 the first in the table. */
  lemma NextChosen(q: Queue, k: nat, r: Queue, i: nat)
    requires q.Valid() && Tick(q, k, r) && r.Valid() && q.used < 99 && (q.Ready(q.cur) ==> Spent(q.At(q.cur))) && q.Ready(i)
    ensures r.cur == k < 64 && q.Ready(k) && r.Has(k) && r.Has(i) && r.At(k).level <= r.At(i).level
    ensures r.At(k).level == r.At(i).level && i != k ==> ComesFirst(q.cur, r.At(k).level, k, i)
  {
    hide Chosen;
    hide Spent;
    hide ComesFirst;
    hide Charged;
    hide SameRanks;
    hide Boosted;
    var c :| TickVia(q, k, c, r);
    ChoiceLevels(q, k, c, i);
    ChargedLevels(c, k, r, i);
    ChargedLevels(c, k, r, k);
  }

  lemma NextCount(x: nat)
    ensures (x + 1) % 100 == if x % 100 == 99 then 0 else x % 100 + 1
  {
  }

  /** A boost comes at every hundredth tick of the group, and at no other. */
  lemma {:induction false} BoostEveryHundred(queues: seq<Queue>, picks: seq<nat>, j: nat)
    requires IsGroupRun(queues, picks) && j < |queues|
    ensures queues[j].used == (queues[0].used + j) % 100
    ensures j > 0 && queues[j].used == 0 ==>
              forall i :: 0 <= i < 64 && queues[j].Valid() && queues[j].Has(i) ==> queues[j].At(i).level == 0 && queues[j].At(i).used == 0
  {
    hide Tick;
    assert queues[0].Valid();
    if j > 0 {
      BoostEveryHundred(queues, picks, j - 1);
      NextCount(queues[0].used + j - 1);
      assert queues[j - 1].Valid() && Tick(queues[j - 1], picks[j - 1], queues[j - 1 + 1]);
      BoostAt(queues[j - 1], picks[j - 1], queues[j]);
    }
  }

  lemma BoostAt(q: Queue, k: nat, r: Queue)
    requires q.Valid() && Tick(q, k, r)
    ensures r.used == if q.used == 99 then 0 else q.used + 1
    ensures q.used == 99 ==> forall i :: 0 <= i < 64 && r.Valid() && r.Has(i) ==> r.At(i).level == 0 && r.At(i).used == 0
  {
    var c :| TickVia(q, k, c, r);
    ChosenShape(q, k, c);
    hide Chosen;
    assert r.slots == c.slots;
    assert forall i :: 0 <= i < 64 ==> (c.Has(i) <==> c.slots[i] >= 0);
  }
}
