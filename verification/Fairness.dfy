/**
 What the cursor of src/sched.c guarantees over whole runs: work conservation, the exact share of
 every level, and a bound on how long a level or a process can wait.
 */
module Fairness {
  import opened Queue
  import opened Sched
  import opened Wrappers
  import Bits

  // ----- Work conservation -----

  /** The level k steps ahead of p on the circle of levels. */
  function Ahead(p: nat, k: nat): nat {
    (p + k) % MAX_PRIO
  }

  /**
   A call finds nothing exactly when every level is empty, and then the cursor is back at the
   same level with a fresh budget; otherwise it serves the first busy level from the cursor on.
   */
  lemma {:induction false} ScanConserves(c: Cursor, busy: set<nat>, tried: nat)
    requires CursorOk(c) && tried <= MAX_PRIO
    ensures match Scan(c, busy, tried)
      case (None, c') =>
        && (forall k :: 0 <= k < MAX_PRIO - tried ==> Ahead(c.prio, k) !in busy)
        && (tried < MAX_PRIO ==> c' == Cursor(Ahead(c.prio, MAX_PRIO - tried), 0))
      case (Some(p), _) =>
        exists k :: 0 <= k < MAX_PRIO - tried && p == Ahead(c.prio, k) && p in busy
                    && forall j :: 0 <= j < k ==> Ahead(c.prio, j) !in busy
    decreases MAX_PRIO - tried
  {
    assert Ahead(c.prio, 0) == c.prio;
    if tried < MAX_PRIO && c.prio !in busy {
      var next := Cursor(NextLevel(c.prio), 0);
      ScanConserves(next, busy, tried + 1);
      assert forall k: nat :: Ahead(next.prio, k) == Ahead(c.prio, k + 1);
      if Scan(next, busy, tried + 1).0.Some? {
        var p := Scan(next, busy, tried + 1).0.value;
        var k :| 0 <= k < MAX_PRIO - tried - 1 && p == Ahead(next.prio, k) && p in busy
                 && forall j :: 0 <= j < k ==> Ahead(next.prio, j) !in busy;
        assert p == Ahead(c.prio, k + 1);
        forall j | 0 <= j < k + 1
          ensures Ahead(c.prio, j) !in busy
        {
          if j > 0 { assert Ahead(next.prio, j - 1) !in busy; }
        }
      } else {
        forall k | 0 <= k < MAX_PRIO - tried
          ensures Ahead(c.prio, k) !in busy
        {
          if k > 0 { assert Ahead(next.prio, k - 1) !in busy; }
        }
      }
    }
  }

  /** get_mlq_proc returns no process exactly when all 140 queues are empty. */
  lemma {:induction false} NothingIffAllEmpty(s: State)
    requires StateOk(s)
    ensures Get(s).0 == None <==> forall p :: 0 <= p < MAX_PRIO ==> s.queues[p] == []
    ensures Get(s).0 == None ==> Get(s).1 == s.(cur := Cursor(s.cur.prio, 0))
  {
    hide Scan, Best, Without, Enqueued, Serve;
    var busy := Busy(s.queues);
    ScanConserves(s.cur, busy, 0);
    if Get(s).0 == None {
      forall p | 0 <= p < MAX_PRIO
        ensures s.queues[p] == []
      {
        var k := (p + MAX_PRIO - s.cur.prio) % MAX_PRIO;
        assert Ahead(s.cur.prio, k) == p;
      }
    }
  }

  // ----- Exact shares -----

  /** The budgets of the busy levels below p. */
  function Before(busy: set<nat>, p: nat): nat
    requires p <= MAX_PRIO
  {
    if p == 0 then 0 else Before(busy, p - 1) + (if p - 1 in busy then Slot(p - 1) else 0)
  }

  /** One round: every busy level below p as often as its budget says, in level order. */
  function Tickets(busy: set<nat>, p: nat): (r: seq<Option<nat>>)
    requires p <= MAX_PRIO
    ensures |r| == Before(busy, p)
  {
    if p == 0 then []
    else Tickets(busy, p - 1) + (if p - 1 in busy then seq(Slot(p - 1), _ => Some(p - 1)) else [])
  }

  /** Dispatches in one round of the busy levels. */
  function Round(busy: set<nat>): nat {
    Before(busy, MAX_PRIO)
  }

  /** How far into a round the cursor stands. */
  function Position(c: Cursor, busy: set<nat>): nat
    requires c.prio < MAX_PRIO
  {
    Before(busy, c.prio) + (if c.prio in busy then c.cnt else 0)
  }

  lemma {:induction false} BeforeGrows(busy: set<nat>, p: nat, q: nat)
    requires p <= q <= MAX_PRIO
    ensures Before(busy, p) <= Before(busy, q)
    ensures p < q && p in busy ==> Before(busy, p) + Slot(p) <= Before(busy, q)
    decreases q
  {
    if p < q { BeforeGrows(busy, p, q - 1); }
  }

  lemma {:induction false} TicketAt(busy: set<nat>, p: nat, q: nat, i: nat)
    requires p in busy && p < q <= MAX_PRIO
    requires Before(busy, p) <= i < Before(busy, p) + Slot(p)
    ensures i < Before(busy, q) && Tickets(busy, q)[i] == Some(p)
    decreases q
  {
    BeforeGrows(busy, p, q);
    if p < q - 1 {
      TicketAt(busy, p, q - 1, i);
    }
  }

  lemma ModSelf(x: nat, w: nat)
    requires x <= w && w > 0
    ensures x % w == if x == w then 0 else x
  {
  }

  lemma AfterServe(c: Cursor, busy: set<nat>)
    requires CursorOk(c) && c.prio in busy
    ensures Position(c, busy) < Round(busy) && Tickets(busy, MAX_PRIO)[Position(c, busy)] == Some(c.prio)
    ensures Position(Serve(c), busy) == if Position(c, busy) + 1 == Round(busy) && Serve(c).prio == 0 then 0 else Position(c, busy) + 1
  {
    BeforeGrows(busy, c.prio, MAX_PRIO);
    TicketAt(busy, c.prio, MAX_PRIO, Position(c, busy));
  }

  lemma AfterSkip(c: Cursor, busy: set<nat>)
    requires CursorOk(c) && c.prio !in busy
    ensures var next := Cursor(NextLevel(c.prio), 0);
      Position(next, busy) == if next.prio == 0 then 0 else Position(c, busy)
    ensures NextLevel(c.prio) == 0 ==> Position(c, busy) == Round(busy)
  {
  }

  /** Skipping an idle level keeps the position; serving a level takes the ticket and moves one on. */
  lemma {:induction false} ScanTakesTicket(c: Cursor, busy: set<nat>, tried: nat)
    requires CursorOk(c) && tried <= MAX_PRIO && Scan(c, busy, tried).0.Some?
    ensures Round(busy) > 0
    ensures var (level, c') := Scan(c, busy, tried);
            var w := Round(busy);
      level == Tickets(busy, MAX_PRIO)[Position(c, busy) % w] && Position(c', busy) % w == (Position(c, busy) + 1) % w
    decreases MAX_PRIO - tried
  {
    ScanUnfolds(c, busy, tried);
    hide Scan, Tickets, Position, Round, Serve;
    var w := Round(busy);
    if c.prio in busy {
      AfterServe(c, busy);
      ModSelf(Position(c, busy), w);
      ModSelf(Position(c, busy) + 1, w);
    } else {
      var next := Cursor(NextLevel(c.prio), 0);
      ScanTakesTicket(next, busy, tried + 1);
      SkipKeepsPosition(c, busy);
      ModStep(Position(next, busy), Position(c, busy), 1, w);
    }
  }

  lemma SkipKeepsPosition(c: Cursor, busy: set<nat>)
    requires CursorOk(c) && c.prio !in busy && Round(busy) > 0
    ensures Position(Cursor(NextLevel(c.prio), 0), busy) % Round(busy) == Position(c, busy) % Round(busy)
  {
    AfterSkip(c, busy);
    hide Position, Round;
    ModSelf(Round(busy), Round(busy));
    ModSelf(0, Round(busy));
  }

  /** The levels that a sequence of calls serves, given which levels are busy at each call. */
  function Served(c: Cursor, busies: seq<set<nat>>): (r: seq<Option<nat>>)
    requires CursorOk(c)
    ensures |r| == |busies|
    decreases |busies|
  {
    if busies == [] then []
    else
      var (level, c') := Search(c, busies[0]);
      [level] + Served(c', busies[1..])
  }

  lemma {:induction false} ServedTickets(c: Cursor, busy: set<nat>, n: nat, k: nat)
    requires CursorOk(c) && k < n
    requires exists p :: p in busy && p < MAX_PRIO
    ensures Round(busy) > 0
    ensures Served(c, seq(n, _ => busy))[k] == Tickets(busy, MAX_PRIO)[(Position(c, busy) + k) % Round(busy)]
    decreases n
  {
    hide Scan;
    SomeLevelServed(c, busy);
    ScanTakesTicket(c, busy, 0);
    var busies := seq(n, _ => busy);
    var c' := Search(c, busy).1;
    assert busies[1..] == seq(n - 1, _ => busy);
    var w := Round(busy);
    if k > 0 {
      ServedTickets(c', busy, n - 1, k - 1);
      ModStep(Position(c', busy), Position(c, busy) + 1, k - 1, w);
    }
  }

  lemma SomeLevelServed(c: Cursor, busy: set<nat>)
    requires CursorOk(c) && exists p :: p in busy && p < MAX_PRIO
    ensures Scan(c, busy, 0).0.Some?
  {
    hide Scan;
    var p :| p in busy && p < MAX_PRIO;
    var k := (p + MAX_PRIO - c.prio) % MAX_PRIO;
    assert Ahead(c.prio, k) == p;
    ScanConserves(c, busy, 0);
  }

  /** Remainders may be taken before adding. */
  lemma ModStep(x: nat, y: nat, k: nat, w: nat)
    requires w > 0 && x % w == y % w
    ensures (x + k) % w == (y + k) % w
  {
    ModAdd(x, k, w);
    ModAdd(y, k, w);
  }

  lemma ModAdd(x: nat, k: nat, w: nat)
    requires w > 0
    ensures (x + k) % w == (x % w + k) % w
  {
    var q, r := x / w, x % w;
    var q', r' := (r + k) / w, (r + k) % w;
    assert x + k == w * (q + q') + r';
    Bits.DivModUnique(x + k, w, q + q', r');
  }

  /** One level's turns at the end of a round. */
  function TurnOf(busy: set<nat>, q: nat): seq<Option<nat>>
    requires q < MAX_PRIO
  {
    if q in busy then seq(Slot(q), _ => Some(q)) else []
  }

  lemma TicketsNext(busy: set<nat>, q: nat)
    requires q <= MAX_PRIO
    ensures Tickets(busy, q) == if q == 0 then [] else Tickets(busy, q - 1) + TurnOf(busy, q - 1)
  {
  }

  lemma CountJoined<T>(a: seq<T>, b: seq<T>, x: T)
    ensures multiset(a + b)[x] == multiset(a)[x] + multiset(b)[x]
  {
  }

  lemma TurnCount(busy: set<nat>, q: nat, p: nat)
    requires q < MAX_PRIO
    ensures multiset(TurnOf(busy, q))[Some(p)] == if q in busy && p == q then Slot(q) else 0
  {
    hide Slot;
    Copies(Some(q), Slot(q), Some(p));
  }

  lemma {:induction false} TicketCount(busy: set<nat>, q: nat, p: nat)
    requires q <= MAX_PRIO
    ensures multiset(Tickets(busy, q))[Some(p)] == if p in busy && p < q then Slot(p) else 0
  {
    hide *;
    TicketsNext(busy, q);
    if q > 0 {
      TicketCount(busy, q - 1, p);
      TurnCount(busy, q - 1, p);
      CountJoined(Tickets(busy, q - 1), TurnOf(busy, q - 1), Some(p));
    }
  }

  lemma {:induction false} Copies<T>(x: T, n: nat, y: T)
    ensures multiset(seq(n, _ => x))[y] == if x == y then n else 0
  {
    if n > 0 {
      Copies(x, n - 1, y);
      assert seq(n, _ => x) == seq(n - 1, _ => x) + [x];
    }
  }

  /**
   While exactly the levels of `busy` have waiting processes, any window of one round of
   dispatches serves each of them exactly as often as its budget, wherever the cursor starts.
   */
  lemma {:induction false} ExactShare(c: Cursor, busy: set<nat>, p: nat)
    requires CursorOk(c) && p in busy && p < MAX_PRIO
    ensures multiset(Served(c, seq(Round(busy), _ => busy)))[Some(p)] == Slot(p)
  {
    BeforeGrows(busy, p, MAX_PRIO);
    hide Tickets, Position, Served, Before;
    var w := Round(busy);
    var tickets := Tickets(busy, MAX_PRIO);
    var a := Position(c, busy) % w;
    var served := Served(c, seq(w, _ => busy));
    forall k | 0 <= k < w
      ensures served[k] == (tickets[a..] + tickets[..a])[k]
    {
      ServedTickets(c, busy, w, k);
      ModAdd(Position(c, busy), k, w);
      RotatedIndex(a, k, w);
    }
    assert served == tickets[a..] + tickets[..a];
    assert tickets == tickets[..a] + tickets[a..];
    TicketCount(busy, MAX_PRIO, p);
  }

  lemma RotatedIndex(a: nat, k: nat, w: nat)
    requires a < w && k < w
    ensures (a + k) % w == if a + k < w then a + k else a + k - w
  {
    if a + k >= w { Bits.DivModUnique(a + k, w, 1, a + k - w); }
  }

  // ----- How long a level can wait -----

  const ALL_LEVELS: set<nat> := set p: nat | p < MAX_PRIO

  lemma {:induction false} AllBefore(p: nat)
    requires p <= MAX_PRIO
    ensures 2 * Before(ALL_LEVELS, p) == p * (281 - p)
    decreases p
  {
    if p > 0 { AllBefore(p - 1); }
  }

  /** A full round of all levels is 9870 dispatches. */
  lemma FullRound()
    ensures Round(ALL_LEVELS) == 9870
  {
    AllBefore(MAX_PRIO);
  }

  /** Budget that other levels may still use before the cursor reaches level p. */
  function Ahead9870(c: Cursor, p: nat): int
    requires CursorOk(c) && p < MAX_PRIO
  {
    if c.prio == p then 0
    else if c.prio < p then Before(ALL_LEVELS, p) - Before(ALL_LEVELS, c.prio) - c.cnt
    else 9870 + Before(ALL_LEVELS, p) - Before(ALL_LEVELS, c.prio) - c.cnt
  }

  /** Calls within which a waiting level is served. */
  function Bound(p: nat): nat
    requires p < MAX_PRIO
  {
    9871 - Slot(p)
  }

  lemma AheadBounds(c: Cursor, p: nat)
    requires CursorOk(c) && p < MAX_PRIO
    ensures 0 <= Ahead9870(c, p) < Bound(p)
    ensures c.prio != p ==> Ahead9870(c, p) >= Slot(c.prio) - c.cnt
  {
    FullRound();
    BeforeGrows(ALL_LEVELS, p, MAX_PRIO);
    BeforeGrows(ALL_LEVELS, c.prio, MAX_PRIO);
    if c.prio < p {
      BeforeGrows(ALL_LEVELS, c.prio, p);
    } else {
      BeforeGrows(ALL_LEVELS, p, c.prio);
    }
  }

  lemma AheadAfterSkip(c: Cursor, p: nat)
    requires CursorOk(c) && p < MAX_PRIO && c.prio != p
    ensures Ahead9870(Cursor(NextLevel(c.prio), 0), p) == Ahead9870(c, p) - (Slot(c.prio) - c.cnt)
  {
    FullRound();
    assert c.prio in ALL_LEVELS;
    assert c.prio + 1 < MAX_PRIO ==> NextLevel(c.prio) == c.prio + 1;
    assert Before(ALL_LEVELS, c.prio + 1) == Before(ALL_LEVELS, c.prio) + Slot(c.prio);
  }

  /** Every call on which level p waits either serves it or brings the cursor closer. */
  lemma {:induction false} ScanApproaches(c: Cursor, busy: set<nat>, tried: nat, p: nat)
    requires CursorOk(c) && tried <= MAX_PRIO && p in busy && p < MAX_PRIO
    ensures var (level, c') := Scan(c, busy, tried);
      level == Some(p) || level == None || Ahead9870(c', p) < Ahead9870(c, p)
    decreases MAX_PRIO - tried
  {
    ScanUnfolds(c, busy, tried);
    AheadBounds(c, p);
    if c.prio != p {
      AheadAfterSkip(c, p);
      hide Scan, Ahead9870;
      var next := Cursor(NextLevel(c.prio), 0);
      if c.prio in busy && Serve(c) != next {
        ServeInside(c, p);
      } else if c.prio !in busy && tried < MAX_PRIO {
        ScanApproaches(next, busy, tried + 1, p);
      }
    }
  }

  lemma ServeInside(c: Cursor, p: nat)
    requires CursorOk(c) && p < MAX_PRIO && c.prio != p && Serve(c) != Cursor(NextLevel(c.prio), 0)
    ensures Ahead9870(Serve(c), p) == Ahead9870(c, p) - 1
  {
  }

  /** A level that waits at every call is served within its bound, whatever the others do. */
  lemma {:induction false} LevelServed(c: Cursor, busies: seq<set<nat>>, p: nat)
    requires CursorOk(c) && p < MAX_PRIO && forall k :: 0 <= k < |busies| ==> p in busies[k]
    requires |busies| > Ahead9870(c, p)
    ensures exists k :: 0 <= k <= Ahead9870(c, p) && Served(c, busies)[k] == Some(p)
    decreases |busies|
  {
    AheadBounds(c, p);
    SomeLevelServed(c, busies[0]);
    ScanApproaches(c, busies[0], 0, p);
    hide Scan, Ahead9870;
    var (level, c') := Search(c, busies[0]);
    var served := Served(c, busies);
    if level == Some(p) {
      assert served[0] == Some(p);
    } else {
      LevelServed(c', busies[1..], p);
      var k :| 0 <= k <= Ahead9870(c', p) && Served(c', busies[1..])[k] == Some(p);
      assert served[k + 1] == Some(p);
    }
  }

  /** The starvation bound from any cursor: 9871 - (140 - p) calls. */
  lemma {:induction false} NoLevelStarves(c: Cursor, busies: seq<set<nat>>, p: nat)
    requires CursorOk(c) && p < MAX_PRIO && forall k :: 0 <= k < |busies| ==> p in busies[k]
    requires |busies| >= Bound(p)
    ensures exists k :: 0 <= k < Bound(p) && Served(c, busies)[k] == Some(p)
  {
    AheadBounds(c, p);
    LevelServed(c, busies, p);
    hide Ahead9870, Served;
    var k :| 0 <= k <= Ahead9870(c, p) && Served(c, busies)[k] == Some(p);
  }

  /** The bound is reached: past a full turn of its own level, everyone else comes first. */
  lemma {:induction false} BoundIsTight(p: nat, k: nat)
    requires p < MAX_PRIO && k < Bound(p)
    ensures var served := Served(Cursor(NextLevel(p), 0), seq(Bound(p), _ => ALL_LEVELS));
      served[k] == Some(p) <==> k == Bound(p) - 1
  {
    FullRound();
    BeforeGrows(ALL_LEVELS, p, MAX_PRIO);
    assert p in ALL_LEVELS;
    var c := Cursor(NextLevel(p), 0);
    ServedTickets(c, ALL_LEVELS, Bound(p), k);
    AfterTurn(p);
    hide Served, Before, Tickets, Position;
    var start := Before(ALL_LEVELS, p);
    TurnIndex(start, Slot(p), Position(c, ALL_LEVELS), k);
    if k == Bound(p) - 1 {
      TicketAt(ALL_LEVELS, p, MAX_PRIO, start);
    } else {
      TicketElsewhere(p, MAX_PRIO, (Position(c, ALL_LEVELS) + k) % 9870);
    }
  }

  lemma TurnIndex(start: nat, slot: nat, pos: nat, k: nat)
    requires slot > 0 && start + slot <= 9870 && k < 9871 - slot && pos % 9870 == (start + slot) % 9870
    ensures (pos + k) % 9870 == if start + slot + k < 9870 then start + slot + k else start + slot + k - 9870
  {
    ModStep(pos, start + slot, k, 9870);
  }

  lemma BeforeNext(p: nat)
    requires p < MAX_PRIO
    ensures Before(ALL_LEVELS, p + 1) == Before(ALL_LEVELS, p) + Slot(p)
    ensures Before(ALL_LEVELS, 0) == 0
  {
  }

  /** After its turns a level hands over to the next one, where the round has got to. */
  lemma TurnEnds(p: nat)
    requires p < MAX_PRIO
    ensures Position(Cursor(NextLevel(p), 0), ALL_LEVELS) == if p + 1 < MAX_PRIO then Before(ALL_LEVELS, p) + Slot(p) else 0
    ensures p + 1 == MAX_PRIO ==> Before(ALL_LEVELS, p) + Slot(p) == 9870
  {
    hide Before, ALL_LEVELS, NextLevel, Slot;
    FullRound();
    BeforeNext(p);
    NextIs(p);
  }

  lemma NextIs(p: nat)
    requires p < MAX_PRIO
    ensures NextLevel(p) == if p + 1 < MAX_PRIO then p + 1 else 0
  {
  }

  lemma AfterTurn(p: nat)
    requires p < MAX_PRIO
    ensures Position(Cursor(NextLevel(p), 0), ALL_LEVELS) % 9870 == (Before(ALL_LEVELS, p) + Slot(p)) % 9870
  {
    hide Before, Position, NextLevel, Slot, ALL_LEVELS;
    TurnEnds(p);
  }

  /** Outside its own stretch of the round no ticket names level p. */
  lemma {:induction false} TicketElsewhere(p: nat, q: nat, i: nat)
    requires p < MAX_PRIO && q <= MAX_PRIO && i < Before(ALL_LEVELS, q)
    requires !(Before(ALL_LEVELS, p) <= i < Before(ALL_LEVELS, p) + Slot(p))
    ensures Tickets(ALL_LEVELS, q)[i] != Some(p)
    decreases q
  {
    if i < Before(ALL_LEVELS, q - 1) {
      TicketElsewhere(p, q - 1, i);
    }
  }
}
