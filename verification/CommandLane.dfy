/**
 The ticketed command lane (src/DataCenter/DataCenterGrpcService.cc): requests for one target take
 tickets, wait for their number, may be cancelled while they wait, and hold a lease until they
 are done.

 `System` is the protocol over unbounded ticket numbers; every region that the source runs under
 the lane's mutex is one step. `CommandLane`, at the end, is the object with its 64-bit counters
 and its set of cancelled numbers: it refines the protocol across wrap-around as long as fewer
 than 2^64 tickets are outstanding at once.
 */
module CommandLane {
  import opened Arithmetic
  import opened Wrappers

  const TWO_64: int := 0x1_0000_0000_0000_0000

  datatype System = System(
    next: nat,             // number of tickets ever taken
    serving: nat,
    cancelled: set<nat>,   // cancelled and not yet skipped
    waiting: set<nat>,
    holders: set<nat>,     // tickets with an active lease
    granted: seq<nat>,     // history of leases
    gone: set<nat>)        // history of cancellations

  const Init := System(0, 0, {}, {}, {}, [], {})

  /** Skips the cancelled tickets that stand at `serving`. */
  function Skip(serving: nat, cancelled: set<nat>): (r: (nat, set<nat>))
    ensures serving <= r.0 && r.0 !in r.1
    ensures forall t :: t in r.1 <==> t in cancelled && !(serving <= t < r.0)
    ensures forall t :: serving <= t < r.0 ==> t in cancelled
    decreases |cancelled|
  {
    if serving in cancelled then Skip(serving + 1, cancelled - {serving}) else (serving, cancelled)
  }

  function Reserve(s: System): System {
    s.(next := s.next + 1, waiting := s.waiting + {s.next})
  }

  function Grant(s: System, t: nat): System {
    s.(waiting := s.waiting - {t}, holders := s.holders + {t}, granted := s.granted + [t])
  }

  function Cancel(s: System, t: nat): System {
    var (serving, cancelled) := Skip(s.serving, s.cancelled + {t});
    s.(serving := serving, cancelled := cancelled, waiting := s.waiting - {t}, gone := s.gone + {t})
  }

  function Release(s: System, t: nat): System {
    if s.serving == t then
      var (serving, cancelled) := Skip(s.serving + 1, s.cancelled);
      s.(serving := serving, cancelled := cancelled, holders := s.holders - {t})
    else
      s.(cancelled := s.cancelled - {t}, holders := s.holders - {t})
  }

  datatype Action = TakeTicket | StartLease(t: nat) | GiveUp(t: nat) | EndLease(t: nat)

  /** What the source allows: a ticket is granted when its number is up, and given up only when
      it is not; only a holder releases. */
  predicate Enabled(s: System, a: Action) {
    match a
    case TakeTicket => true
    case StartLease(t) => t in s.waiting && s.serving == t
    case GiveUp(t) => t in s.waiting && s.serving != t
    case EndLease(t) => t in s.holders
  }

  function Next(s: System, a: Action): System {
    match a
    case TakeTicket => Reserve(s)
    case StartLease(t) => Grant(s, t)
    case GiveUp(t) => Cancel(s, t)
    case EndLease(t) => Release(s, t)
  }

  // ---------- the invariant ----------

  function Live(s: System): set<nat> {
    s.waiting + s.holders
  }

  ghost predicate Increasing(g: seq<nat>) {
    forall i, j :: 0 <= i < j < |g| ==> g[i] < g[j]
  }

  ghost predicate Inv(s: System) {
    && s.serving <= s.next
    && (forall t :: t in s.cancelled ==> s.serving < t < s.next)
    && (forall t: nat :: t in s.waiting || t in s.holders || t in s.cancelled <==> s.serving <= t < s.next)
    && s.waiting !! s.holders !! s.cancelled
    && (forall t :: t in s.holders ==> t == s.serving)
    && Increasing(s.granted)
    && (forall t: nat :: t in s.granted <==> t in s.holders || (t < s.serving && t !in s.gone))
    && (forall t :: t in s.gone ==> t < s.serving || t in s.cancelled)
    && (forall t :: t in s.cancelled ==> t in s.gone)
  }

  lemma InitInv()
    ensures Inv(Init)
  {
  }

  lemma NextInv(s: System, a: Action)
    requires Inv(s) && Enabled(s, a)
    ensures Inv(Next(s, a))
  {
    var s' := Next(s, a);
    match a
    case TakeTicket =>
    case StartLease(t) =>
      assert forall i :: 0 <= i < |s.granted| ==> s.granted[i] in s.granted;
    case GiveUp(t) =>
    case EndLease(t) =>
      var r := Skip(s.serving + 1, s.cancelled);
      assert s.next !in s.cancelled;
      assert r.0 <= s.next;
  }

  /** Everything promised about one lane, at every moment of every interleaving. */
  lemma Safety(s: System)
    requires Inv(s)
    ensures |s.holders| <= 1
    ensures Increasing(s.granted)
    ensures forall t :: t in s.cancelled ==> s.serving < t < s.next
    ensures Live(s) != {} ==> s.serving in Live(s) && forall t :: t in Live(s) ==> s.serving <= t
    ensures forall t :: t in s.gone ==> t !in s.granted
  {
    assert s.holders <= {s.serving};
    SubsetCard(s.holders, {s.serving});
    if t :| t in Live(s) {
      assert s.serving <= t < s.next;
      assert s.serving in s.waiting || s.serving in s.holders || s.serving in s.cancelled;
    }
  }

  lemma {:induction false} SubsetCard<T>(a: set<T>, b: set<T>)
    requires a <= b
    ensures |a| <= |b|
    decreases b
  {
    if b != {} {
      var x :| x in b;
      SubsetCard(a - {x}, b - {x});
    }
  }

  // ---------- runs ----------

  ghost predicate Run(states: seq<System>, actions: seq<Action>) {
    && |states| == |actions| + 1
    && states[0] == Init
    && forall i :: 0 <= i < |actions| ==> Enabled(states[i], actions[i]) && states[i + 1] == Next(states[i], actions[i])
  }

  lemma {:induction false} RunInv(states: seq<System>, actions: seq<Action>, i: nat)
    requires Run(states, actions) && i < |states|
    ensures forall k :: 0 <= k <= i ==> Inv(states[k])
  {
    if i == 0 {
      InitInv();
    } else {
      RunInv(states, actions, i - 1);
      NextInv(states[i - 1], actions[i - 1]);
    }
  }

  // ---------- progress ----------

  /** The live tickets in front of `t`. */
  function Ahead(s: System, t: nat): set<nat> {
    set u | u in Live(s) && u < t
  }

  /** A waiting ticket can be granted exactly when no live ticket is in front of it, and be given up exactly
      when there is one. */
  lemma GrantableIffFirst(s: System, t: nat)
    requires Inv(s) && t in s.waiting
    ensures Enabled(s, StartLease(t)) <==> Ahead(s, t) == {}
    ensures Enabled(s, GiveUp(t)) <==> Ahead(s, t) != {}
  {
    Safety(s);
    if s.serving != t {
      assert s.serving in Ahead(s, t);
    }
  }

  /** Nothing ever overtakes: a release or a cancellation in front takes exactly one ticket out of
      those ahead of `t`, every other step none, and no step adds one. */
  lemma AheadShrinks(s: System, a: Action, t: nat)
    requires Inv(s) && Enabled(s, a) && t in Live(s) && t in Live(Next(s, a))
    ensures Ahead(Next(s, a), t) ==
              match a
              case EndLease(u) => Ahead(s, t) - {u}
              case GiveUp(u) => Ahead(s, t) - {u}
              case _ => Ahead(s, t)
    ensures a.EndLease? ==> a.t in Ahead(s, t)
  {
    assert t < s.next;
    var s' := Next(s, a);
    match a
    case TakeTicket =>
      assert forall u :: u < t ==> (u in Live(s') <==> u in Live(s));
    case StartLease(u) =>
      assert Live(s') == Live(s);
    case GiveUp(u) =>
      assert Live(s') == Live(s) - {u};
    case EndLease(u) =>
      assert Live(s') == Live(s) - {u};
  }

  // ---------- the lane object ----------

  function Number(t: nat): int {
    t % TWO_64
  }

  /** `numbers` are the 64-bit numbers of `tickets`. */
  ghost predicate Encodes(numbers: set<int>, tickets: set<nat>) {
    && (forall t :: t in tickets ==> Number(t) in numbers)
    && (forall n :: n in numbers ==> exists t :: t in tickets && Number(t) == n)
  }

  /** Within a window of 2^64 tickets the 64-bit numbers tell tickets apart. */
  lemma NumbersDistinct(t: nat, u: nat)
    requires t < u + TWO_64 && u < t + TWO_64
    ensures Number(t) == Number(u) ==> t == u
  {
    if Number(t) == Number(u) {
      var q := t / TWO_64 - u / TWO_64;
      assert t - u == TWO_64 * q;
    }
  }

  lemma NumberOfNext(t: nat)
    ensures Number(t + 1) == (Number(t) + 1) % TWO_64
  {
    SumMod(t, Number(t), 1, TWO_64);
  }

  /** Membership and removal by number agree with membership and removal by ticket, as long as all
      tickets concerned lie in one window. */
  lemma EncodesRemoval(numbers: set<int>, tickets: set<nat>, t: nat, low: nat)
    requires Encodes(numbers, tickets) && low <= t < low + TWO_64
    requires forall u :: u in tickets ==> low <= u < low + TWO_64
    ensures Number(t) in numbers <==> t in tickets
    ensures Encodes(numbers - {Number(t)}, tickets - {t})
  {
    forall u | u in tickets && Number(u) == Number(t)
      ensures u == t
    {
      NumbersDistinct(u, t);
    }
  }

  /** The skipping loop stands at ticket `at` with the tickets `left` still cancelled. */
  ghost predicate Standing(number: int, numbers: set<int>, at: nat, left: set<nat>, end: nat) {
    && number == Number(at) && Encodes(numbers, left)
    && at <= end < at + TWO_64
    && (forall t :: t in left ==> at <= t < end)
  }

  lemma SkipStep(numbers: set<int>, at: nat, left: set<nat>, end: nat)
    requires Standing(Number(at), numbers, at, left, end) && Number(at) in numbers
    ensures at in left
    ensures Standing((Number(at) + 1) % TWO_64, numbers - {Number(at)}, at + 1, left - {at}, end)
    ensures Skip(at + 1, left - {at}) == Skip(at, left)
  {
    EncodesRemoval(numbers, left, at, at);
    NumberOfNext(at);
  }

  lemma EncodesInsertion(numbers: set<int>, tickets: set<nat>, t: nat)
    requires Encodes(numbers, tickets)
    ensures Encodes(numbers + {Number(t)}, tickets + {t})
  {
    forall n | n in numbers + {Number(t)}
      ensures exists u :: u in tickets + {t} && Number(u) == n
    {
      if n in numbers {
        var u :| u in tickets && Number(u) == n;
        assert u in tickets + {t};
      } else {
        assert t in tickets + {t};
      }
    }
  }

  class CommandLane {
    var nextTicket: int
    var servingTicket: int
    var cancelledTickets: set<int>
    ghost var sys: System

    ghost predicate Valid()
      reads this
    {
      && Inv(sys)
      && sys.next - sys.serving < TWO_64
      && nextTicket == Number(sys.next)
      && servingTicket == Number(sys.serving)
      && Encodes(cancelledTickets, sys.cancelled)
    }

    constructor ()
      ensures Valid() && sys == Init
    {
      nextTicket, servingTicket, cancelledTickets := 0, 0, {};
      sys := Init;
    }

    method ReserveCommandTicket() returns (ticket: int)
      requires Valid() && sys.next - sys.serving < TWO_64 - 1
      modifies this
      ensures Valid() && sys == Next(old(sys), TakeTicket) && ticket == Number(old(sys).next)
    {
      ticket := nextTicket;
      NumberOfNext(sys.next);
      NextInv(sys, TakeTicket);
      nextTicket := (nextTicket + 1) % TWO_64;
      sys := Reserve(sys);
    }

    /** The loop that both a release and a cancellation run. */
    method SkipCancelled(ghost serving: nat, ghost cancelled: set<nat>)
      requires servingTicket == Number(serving) && Encodes(cancelledTickets, cancelled)
      requires forall t :: t in cancelled ==> serving <= t < serving + TWO_64 - 1
      modifies this`servingTicket, this`cancelledTickets
      ensures servingTicket == Number(Skip(serving, cancelled).0)
      ensures Encodes(cancelledTickets, Skip(serving, cancelled).1)
    {
      ghost var at, left := serving, cancelled;
      ghost var end := serving + TWO_64 - 1;
      while servingTicket in cancelledTickets
        invariant Standing(servingTicket, cancelledTickets, at, left, end)
        invariant Skip(at, left) == Skip(serving, cancelled)
        decreases |left|
      {
        SkipStep(cancelledTickets, at, left, end);
        cancelledTickets := cancelledTickets - {servingTicket};
        servingTicket := (servingTicket + 1) % TWO_64;
        at, left := at + 1, left - {at};
      }
      EncodesRemoval(cancelledTickets, left, at, at);
    }

    /** One turn of the waiting loop, which holds the mutex throughout: `Some(true)` is a lease,
        `Some(false)` a ticket given up because the caller is cancelled or out of time, `None` one
        more wait. */
    method PollCommandTicket(ticket: int, stop: bool, ghost t: nat) returns (outcome: Option<bool>)
      requires Valid() && t in sys.waiting && ticket == Number(t)
      modifies this
      ensures Valid()
      ensures outcome.Some? <==> old(sys).serving == t || stop
      ensures outcome == Some(true) <==> old(sys).serving == t
      ensures sys == match outcome
                     case None => old(sys)
                     case Some(true) => Next(old(sys), StartLease(t))
                     case Some(false) => Next(old(sys), GiveUp(t))
    {
      NumbersDistinct(t, sys.serving);
      if servingTicket != ticket {
        if !stop {
          return None;
        }
        NextInv(sys, GiveUp(t));
        EncodesInsertion(cancelledTickets, sys.cancelled, t);
        cancelledTickets := cancelledTickets + {ticket};
        SkipCancelled(sys.serving, sys.cancelled + {t});
        sys := Cancel(sys, t);
        return Some(false);
      }
      NextInv(sys, StartLease(t));
      sys := Grant(sys, t);
      return Some(true);
    }

    /** Releasing a lease. The branch for a lease that is not at the head cannot be taken. */
    method Release(ticket: int, ghost t: nat)
      requires Valid() && t in sys.holders && ticket == Number(t)
      modifies this
      ensures Valid() && sys == Next(old(sys), EndLease(t))
    {
      NextInv(sys, EndLease(t));
      if servingTicket == ticket {
        NumberOfNext(sys.serving);
        servingTicket := (servingTicket + 1) % TWO_64;
        SkipCancelled(sys.serving + 1, sys.cancelled);
        sys := Next(sys, EndLease(t));
      } else {
        assert false;
      }
    }
  }
}
