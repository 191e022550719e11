/** Hybrid logical clocks and the version order.

    `Send` and `Receive` are the algorithm of Kulkarni et al., "Logical Physical Clocks",
    section 3. The three engines each write the same two steps in their own way: Postgres
    assigns both columns of the old row at once, MySQL assigns them left to right, Redis
    computes them in a function. All three are shown to be the reference.

    Counters are unbounded; the wall clock is any integer at any time. */
module Hlc {

  datatype Clock = Clock(phys: int, log: nat)

  function Max(a: int, b: int): int {
    if a < b then b else a
  }

  /** The reference: a local event at physical time `now`. */
  function Send(c: Clock, now: int): Clock {
    var l := Max(c.phys, now);
    Clock(l, if l == c.phys then c.log + 1 else 0)
  }

  /** The reference: receipt of a message stamped `m` at physical time `now`. */
  function Receive(c: Clock, m: Clock, now: int): Clock {
    var l := Max(Max(c.phys, m.phys), now);
    Clock(l, if l == c.phys && l == m.phys then Max(c.log, m.log) + 1
             else if l == c.phys then c.log + 1
             else if l == m.phys then m.log + 1
             else 0)
  }

  predicate Before(a: Clock, b: Clock) {
    a.phys < b.phys || (a.phys == b.phys && a.log < b.log)
  }

  predicate NotAfter(a: Clock, b: Clock) {
    a == b || Before(a, b)
  }

  /** What the protocol needs of the clock: a local event moves strictly past the clock
      and a receipt strictly past both the clock and the message, however the wall clock
      moves; and the clock keeps up with the wall clock. */
  lemma ClockAdvances(c: Clock, m: Clock, now: int)
    ensures Before(c, Send(c, now)) && now <= Send(c, now).phys
    ensures Before(c, Receive(c, m, now)) && Before(m, Receive(c, m, now)) && now <= Receive(c, m, now).phys
  {}

  /** And no more than that: of all clocks past the inputs that have reached the wall clock,
      each step picks the least. */
  lemma ClockIsLeast(c: Clock, m: Clock, now: int, x: Clock)
    requires Before(c, x) && now <= x.phys
    ensures NotAfter(Send(c, now), x)
    ensures Before(m, x) ==> NotAfter(Receive(c, m, now), x)
  {}

  // ---------- Redis ----------

  function RedisTick(now: int, phys: int, log: nat): (r: Clock)
    ensures r == Send(Clock(phys, log), now)
  {
    if now > phys then Clock(now, 0) else Clock(phys, log + 1)
  }

  method RedisObserve(now: int, phys: int, log: nat, inPhys: int, inLog: nat) returns (r: Clock)
    ensures r == Receive(Clock(phys, log), Clock(inPhys, inLog), now)
  {
    var newPhys := phys;
    if now > newPhys { newPhys := now; }
    if inPhys > newPhys { newPhys := inPhys; }
    if newPhys == phys && newPhys == inPhys {
      var l := log;
      if inLog > l { l := inLog; }
      return Clock(newPhys, l + 1);
    }
    if newPhys == phys { return Clock(newPhys, log + 1); }
    if newPhys == inPhys { return Clock(newPhys, inLog + 1); }
    return Clock(newPhys, 0);
  }

  // ---------- the clock row of the SQL engines ----------

  function ObserveUpdate(c: Clock, newPhys: int, m: Clock): Clock {
    Clock(newPhys,
          if newPhys == c.phys && newPhys == m.phys then Max(c.log, m.log) + 1
          else if newPhys == c.phys then c.log + 1
          else if newPhys == m.phys then m.log + 1
          else 0)
  }

  /** Local ticks may commit between the two statements and take the clock from c to d. The
      observation still advances the clock, as a receipt on d, exactly when d's physical
      time is not past what the first statement read; it passes the message always. */
  lemma SplitObserveAdvancesExactlyWhen(c: Clock, d: Clock, m: Clock, now: int)
    requires NotAfter(c, d)
    ensures var newPhys := Max(Max(c.phys, m.phys), now);
            var r := ObserveUpdate(d, newPhys, m);
            && Before(m, r)
            && (Before(d, r) <==> d.phys <= newPhys)
            && (r == Receive(d, m, newPhys) <==> d.phys <= newPhys)
  {}

  /** Otherwise the clock goes back, and the next local event at an unchanged wall clock can
      draw a stamp that was drawn before. */
  lemma SplitObserveCanRepeatStamp()
    ensures exists c: Clock, m: Clock, now: int, later: int ::
              var d := Send(c, later);
              var r := ObserveUpdate(d, Max(Max(c.phys, m.phys), now), m);
              now <= later && Before(r, d) && Send(r, later) == d
  {
    var c, m := Clock(0, 0), Clock(0, 0);
    var d := Send(c, 20);
    var r := ObserveUpdate(d, Max(Max(c.phys, m.phys), 10), m);
    assert d == Clock(20, 0) && r == Clock(10, 0) && Send(r, 20) == d;
  }

  class HlcState {
    var physical: int
    var logical: nat

    constructor (c: Clock)
      ensures Value() == c
    {
      physical, logical := c.phys, c.log;
    }

    function Value(): Clock
      reads this
    {
      Clock(physical, logical)
    }

    /** Postgres: every right-hand side reads the old row. */
    method PostgresTick(pt: int) returns (stamp: Clock)
      modifies this
      ensures stamp == Value() == Send(old(Value()), pt)
    {
      physical, logical :=
        (if pt > physical then pt else physical),
        (if pt > physical then 0 else logical + 1);
      stamp := Value();
    }

    /** Postgres observes in two statements. The first picks the new physical time. */
    method PostgresObserveRead(pt: int, inPhys: int) returns (newPhys: int)
      ensures newPhys == Max(Max(Value().phys, inPhys), pt)
    {
      newPhys := Max(Max(pt, inPhys), physical);
    }

    /** The second stores it, judging the logical part by the row as it is by then. */
    method PostgresObserveUpdate(newPhys: int, inPhys: int, inLog: nat)
      modifies this
      ensures Value() == ObserveUpdate(old(Value()), newPhys, Clock(inPhys, inLog))
    {
      physical, logical :=
        newPhys,
        (if newPhys == physical && newPhys == inPhys then Max(logical, inLog) + 1
         else if newPhys == physical then logical + 1
         else if newPhys == inPhys then inLog + 1
         else 0);
    }

    /** Both with nothing in between. */
    method PostgresObserve(pt: int, inPhys: int, inLog: nat)
      modifies this
      ensures Value() == Receive(old(Value()), Clock(inPhys, inLog), pt)
    {
      var newPhys := PostgresObserveRead(pt, inPhys);
      PostgresObserveUpdate(newPhys, inPhys, inLog);
    }

    /** MySQL: assignments take effect left to right, so `logical` goes first. */
    method MySqlTick(ts: int) returns (stamp: Clock)
      modifies this
      ensures stamp == Value() == Send(old(Value()), ts)
    {
      logical := TickLogical(physical, logical, ts);
      physical := TickPhysical(physical, ts);
      stamp := Value();
    }

    method MySqlObserve(now: int, phys: int, log: nat)
      modifies this
      ensures Value() == Receive(old(Value()), Clock(phys, log), now)
    {
      logical :=
        if Max(Max(now, physical), phys) == physical && physical == phys then Max(logical, log) + 1
        else if Max(Max(now, physical), phys) == physical then logical + 1
        else if Max(Max(now, physical), phys) == phys then log + 1
        else 0;
      physical := Max(Max(now, physical), phys);
    }
  }

  function TickLogical(physical: int, logical: nat, ts: int): nat {
    if ts > physical then 0 else logical + 1
  }

  function TickPhysical(physical: int, ts: int): int {
    if ts > physical then ts else physical
  }

  /** The same UPDATE with its two assignments the other way round. */
  function Swapped(c: Clock, ts: int): Clock {
    var physical := TickPhysical(c.phys, ts);
    Clock(physical, TickLogical(physical, c.log, ts))
  }

  /** The order of the two assignments matters exactly when the wall clock is ahead. */
  lemma SwappedTickIsRightExactlyWhen(c: Clock, ts: int)
    ensures Swapped(c, ts) == Send(c, ts) <==> ts <= c.phys
  {}

  // ---------- versions ----------

  /** A version of a key: a clock reading and the node that issued it. Node ids are
      modelled by their rank in the total order of node names. */
  datatype Version = Version(phys: int, log: nat, node: nat)

  function When(v: Version): Clock {
    Clock(v.phys, v.log)
  }

  /** v strictly wins over a stored version. */
  predicate Beats(v: Version, stored: Version) {
    if v.phys != stored.phys then v.phys > stored.phys
    else if v.log != stored.log then v.log > stored.log
    else v.node > stored.node
  }

  /** The SQL engines' row-wise comparison (phys, log, node) > (phys, log, node). */
  predicate RowGreater(v: Version, stored: Version) {
    || v.phys > stored.phys
    || (v.phys == stored.phys && v.log > stored.log)
    || (v.phys == stored.phys && v.log == stored.log && v.node > stored.node)
  }

  /** Both comparisons are one strict total order, which extends the clock order. */
  lemma VersionOrder(a: Version, b: Version, c: Version)
    ensures Beats(a, b) <==> RowGreater(a, b)
    ensures a == b || Beats(a, b) || Beats(b, a)
    ensures !(Beats(a, b) && Beats(b, a)) && !Beats(a, a)
    ensures Beats(a, b) && Beats(b, c) ==> Beats(a, c)
    ensures Before(When(b), When(a)) ==> Beats(a, b)
    ensures When(a) == When(b) ==> (Beats(a, b) <==> a.node > b.node)
  {}
}
