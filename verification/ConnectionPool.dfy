/** The per-host pool of idle upstream connections: bounded, last in first out, with expiry. */
module ConnectionPool {
  import opened Wrappers

  const SECOND: int := 1_000_000_000 // nanoseconds

  const MAX_IDLE_PER_HOST: nat := 4
  const IDLE_TIMEOUT: int := 90 * SECOND

  /** A pooled connection: which one it is, and since when it has been idle. */
  datatype Conn = Conn(id: nat, idleAt: int)

  /** `out` are the connections callers hold; `now` is the last time anybody read the clock. */
  datatype Pool = Pool(lists: map<string, seq<Conn>>, out: set<nat>, closed: set<nat>, now: int)

  predicate Expired(c: Conn, now: int) { now - c.idleAt > IDLE_TIMEOUT }

  function Unexpired(conns: seq<Conn>, now: int): seq<Conn> {
    if conns == [] then []
    else
      var last, init := conns[|conns| - 1], conns[..|conns| - 1];
      Unexpired(init, now) + if Expired(last, now) then [] else [last]
  }

  function Ids(conns: seq<Conn>): set<nat> { set i | 0 <= i < |conns| :: conns[i].id }

  function ExpiredIds(conns: seq<Conn>, now: int): set<nat> {
    set i | 0 <= i < |conns| && Expired(conns[i], now) :: conns[i].id
  }

  function ListOf(lists: map<string, seq<Conn>>, host: string): seq<Conn> {
    if host in lists then lists[host] else []
  }

  function Pooled(lists: map<string, seq<Conn>>): set<nat> {
    set host, id | host in lists && id in Ids(lists[host]) :: id
  }

  ghost predicate Ordered(conns: seq<Conn>) {
    forall i, j :: 0 <= i <= j < |conns| ==> conns[i].idleAt <= conns[j].idleAt
  }

  ghost predicate DistinctIds(conns: seq<Conn>) {
    forall i, j :: 0 <= i < j < |conns| ==> conns[i].id != conns[j].id
  }

  ghost predicate DisjointLists(lists: map<string, seq<Conn>>) {
    forall g, h :: g in lists && h in lists && g != h ==> Ids(lists[g]) !! Ids(lists[h])
  }

  ghost predicate ListInv(conns: seq<Conn>, now: int) {
    && |conns| <= MAX_IDLE_PER_HOST
    && Ordered(conns)
    && DistinctIds(conns)
    && forall c :: c in conns ==> c.idleAt <= now
  }

  /** Every connection is in exactly one of: one place of the pool, a caller's hands, closed. */
  ghost predicate Inv(p: Pool) {
    && (forall host :: host in p.lists ==> ListInv(p.lists[host], p.now))
    && DisjointLists(p.lists)
    && Pooled(p.lists) !! p.out !! p.closed
  }

  function Known(p: Pool): set<nat> { Pooled(p.lists) + p.out + p.closed }

  // ----- What the operations do

  datatype Popped = Popped(rest: seq<Conn>, got: Option<Conn>, dropped: set<nat>, now: int)

  /**
    The loop of `get`: pops from the end, closing what has expired, until something has not. The clock is
    read again for every connection popped; `now` is what it said last.
   */
  function Pop(conns: seq<Conn>, readings: seq<int>, now: int): Popped
    requires |conns| <= |readings|
    decreases |conns|
  {
    if conns == [] then Popped([], None, {}, now)
    else
      var last, init := conns[|conns| - 1], conns[..|conns| - 1];
      if Expired(last, readings[0]) then
        var p := Pop(init, readings[1..], readings[0]);
        p.(dropped := p.dropped + {last.id})
      else Popped(init, Some(last), {}, readings[0])
  }

  /** A clock that does not go back. */
  ghost predicate Clock(now: int, readings: seq<int>) {
    && (forall i :: 0 <= i < |readings| ==> now <= readings[i])
    && (forall i, j :: 0 <= i <= j < |readings| ==> readings[i] <= readings[j])
  }

  datatype Op =
    | Dial(id: nat)                            // a caller opens a connection
    | Discard(id: nat)                         // a caller closes one it holds
    | Get(host: string, readings: seq<int>)
    | Put(host: string, id: nat, now: int)     // a caller gives one back
    | Reap(now: int)

  ghost predicate Allowed(p: Pool, op: Op) {
    match op
    case Dial(id) => id !in Known(p)
    case Discard(id) => id in p.out
    case Get(host, readings) => |ListOf(p.lists, host)| <= |readings| && Clock(p.now, readings)
    case Put(host, id, now) => id in p.out && p.now <= now
    case Reap(now) => p.now <= now
  }

  function AfterGet(p: Pool, host: string, readings: seq<int>): Pool
    requires |ListOf(p.lists, host)| <= |readings|
  {
    var conns := ListOf(p.lists, host);
    var popped := Pop(conns, readings, p.now);
    p.(lists := if conns == [] then p.lists else p.lists[host := popped.rest],
       out := if popped.got.Some? then p.out + {popped.got.value.id} else p.out,
       closed := p.closed + popped.dropped, now := popped.now)
  }

  function AfterPut(p: Pool, host: string, id: nat, now: int): Pool {
    var conns := ListOf(p.lists, host);
    if |conns| >= MAX_IDLE_PER_HOST then p.(out := p.out - {id}, closed := p.closed + {id}, now := now)
    else p.(lists := p.lists[host := conns + [Conn(id, now)]], out := p.out - {id}, now := now)
  }

  function Reaped(lists: map<string, seq<Conn>>, now: int): map<string, seq<Conn>> {
    map host | host in lists && Unexpired(lists[host], now) != [] :: Unexpired(lists[host], now)
  }

  function ReapedIds(lists: map<string, seq<Conn>>, now: int): set<nat> {
    set host, id | host in lists && id in ExpiredIds(lists[host], now) :: id
  }

  function AfterReap(p: Pool, now: int): Pool {
    p.(lists := Reaped(p.lists, now), closed := p.closed + ReapedIds(p.lists, now), now := now)
  }

  ghost function After(p: Pool, op: Op): Pool
    requires Allowed(p, op)
  {
    match op
    case Dial(id) => p.(out := p.out + {id})
    case Discard(id) => p.(out := p.out - {id}, closed := p.closed + {id})
    case Get(host, readings) => AfterGet(p, host, readings)
    case Put(host, id, now) => AfterPut(p, host, id, now)
    case Reap(now) => AfterReap(p, now)
  }

  // ----- What that means

  /**
    In a list ordered by idle time, one look at the end decides: hand that one out, or close them all -
    however much time passes during the loop.
   */
  lemma {:induction false} PopMeans(conns: seq<Conn>, readings: seq<int>, now: int)
    requires Ordered(conns) && |conns| <= |readings| && Clock(now, readings)
    ensures var p := Pop(conns, readings, now);
            && now <= p.now && p.now in [now] + readings
            && if conns != [] && !Expired(conns[|conns| - 1], readings[0])
               then p == Popped(conns[..|conns| - 1], Some(conns[|conns| - 1]), {}, readings[0])
               else p.rest == [] && p.got == None && p.dropped == Ids(conns)
    ensures conns != [] && Expired(conns[|conns| - 1], readings[0]) ==> forall c :: c in conns ==> Expired(c, readings[0])
    decreases |conns|
  {
    if conns != [] {
      var last, init := conns[|conns| - 1], conns[..|conns| - 1];
      assert conns == init + [last];
      if Expired(last, readings[0]) {
        assert forall c :: c in init ==> c.idleAt <= last.idleAt;
        PopMeans(init, readings[1..], readings[0]);
        IdsStep(init, last);
        assert init != [] ==> Expired(init[|init| - 1], readings[1..][0]) by {
          if init != [] { assert init[|init| - 1] in init && readings[0] <= readings[1]; }
        }
      }
    }
  }

  lemma IdsStep(init: seq<Conn>, last: Conn)
    ensures Ids(init + [last]) == Ids(init) + {last.id}
  {
    var conns := init + [last];
    assert conns[|init|] == last;
    forall id | id in Ids(init) ensures id in Ids(conns) {
      var i :| 0 <= i < |init| && init[i].id == id;
      assert conns[i] == init[i];
    }
  }

  /** The kept ones are exactly the unexpired ones, in their order: `at` says where each came from. */
  lemma {:induction false} UnexpiredMeans(conns: seq<Conn>, now: int) returns (at: seq<nat>)
    ensures KeptFrom(conns, now, Unexpired(conns, now), at)
  {
    if conns == [] {
      at := [];
    } else {
      var last, init := conns[|conns| - 1], conns[..|conns| - 1];
      at := UnexpiredMeans(init, now);
      var kept := Unexpired(init, now);
      if !Expired(last, now) {
        KeepLast(init, now, kept, at, last);
        at := at + [|init|];
      } else {
        assert forall i :: 0 <= i < |init| ==> init[i] == conns[i];
        assert kept + [] == kept;
      }
      assert conns == init + [last];
    }
  }

  ghost predicate KeptFrom(conns: seq<Conn>, now: int, kept: seq<Conn>, at: seq<nat>) {
    && |at| == |kept|
    && (forall k :: 0 <= k < |kept| ==> at[k] < |conns| && conns[at[k]] == kept[k])
    && (forall j, k :: 0 <= j < k < |kept| ==> at[j] < at[k])
    && (forall i :: 0 <= i < |conns| ==> (!Expired(conns[i], now) <==> i in at))
  }

  lemma KeepLast(init: seq<Conn>, now: int, kept: seq<Conn>, at: seq<nat>, last: Conn)
    requires KeptFrom(init, now, kept, at) && !Expired(last, now)
    ensures KeptFrom(init + [last], now, kept + [last], at + [|init|])
  {
    var conns, at' := init + [last], at + [|init|];
    assert at'[|at|] == |init|;
    forall i | 0 <= i < |conns| ensures !Expired(conns[i], now) <==> i in at' {
      if i < |init| { assert i in at' <==> i in at; }
    }
  }

  lemma KeptElements(conns: seq<Conn>, now: int, kept: seq<Conn>, at: seq<nat>)
    requires KeptFrom(conns, now, kept, at)
    ensures forall c :: c in kept <==> c in conns && !Expired(c, now)
  {
    forall c | c in kept ensures c in conns && !Expired(c, now) {
      var k :| 0 <= k < |kept| && kept[k] == c;
      assert at[k] in at;
    }
    forall c | c in conns && !Expired(c, now) ensures c in kept {
      var i :| 0 <= i < |conns| && conns[i] == c;
      var k :| 0 <= k < |at| && at[k] == i;
    }
  }

  lemma {:induction false} UnexpiredShorter(conns: seq<Conn>, now: int)
    ensures |Unexpired(conns, now)| <= |conns|
  {
    if conns != [] { UnexpiredShorter(conns[..|conns| - 1], now); }
  }

  lemma UnexpiredInv(conns: seq<Conn>, now: int, now': int)
    requires ListInv(conns, now) && now <= now'
    ensures ListInv(Unexpired(conns, now'), now')
    ensures Ids(Unexpired(conns, now')) == Ids(conns) - ExpiredIds(conns, now')
  {
    var kept := Unexpired(conns, now');
    var at := UnexpiredMeans(conns, now');
    UnexpiredShorter(conns, now');
    KeptInOrder(conns, now, now', kept, at);
    KeptIds(conns, now', kept, at);
  }

  lemma KeptInOrder(conns: seq<Conn>, now: int, now': int, kept: seq<Conn>, at: seq<nat>)
    requires ListInv(conns, now) && now <= now' && KeptFrom(conns, now', kept, at)
    ensures Ordered(kept) && DistinctIds(kept) && forall c :: c in kept ==> c.idleAt <= now'
  {
    KeptElements(conns, now', kept, at);
    forall i, j | 0 <= i < j < |kept| ensures kept[i].idleAt <= kept[j].idleAt && kept[i].id != kept[j].id {
      assert kept[i] == conns[at[i]] && kept[j] == conns[at[j]] && at[i] < at[j];
    }
  }

  lemma KeptIds(conns: seq<Conn>, now: int, kept: seq<Conn>, at: seq<nat>)
    requires KeptFrom(conns, now, kept, at) && DistinctIds(conns)
    ensures Ids(kept) == Ids(conns) - ExpiredIds(conns, now)
  {
    KeptElements(conns, now, kept, at);
    forall id | id in Ids(kept) ensures id in Ids(conns) && id !in ExpiredIds(conns, now) {
      var k :| 0 <= k < |kept| && kept[k].id == id;
      assert conns[at[k]].id == id && at[k] in at;
    }
    forall id | id in Ids(conns) && id !in ExpiredIds(conns, now) ensures id in Ids(kept) {
      var i :| 0 <= i < |conns| && conns[i].id == id;
      assert conns[i] in kept;
    }
  }

  /** Every operation keeps the invariant and loses or duplicates no connection. */
  lemma StepInv(p: Pool, op: Op)
    requires Inv(p) && Allowed(p, op)
    ensures Inv(After(p, op))
    ensures Known(After(p, op)) == Known(p) + (if op.Dial? then {op.id} else {})
    ensures p.closed <= After(p, op).closed && p.now <= After(p, op).now
  {
    match op {
      case Dial(id) =>
      case Discard(id) =>
      case Get(host, readings) => GetInv(p, host, readings);
      case Put(host, id, now) => PutInv(p, host, id, now);
      case Reap(now) => ReapInv(p, now);
    }
  }

  /** Replacing one list changes the pooled connections by what it changes in that list. */
  lemma ReplaceList(p: Pool, host: string, conns: seq<Conn>)
    requires Inv(p)
    requires forall g :: g in p.lists && g != host ==> Ids(p.lists[g]) !! Ids(conns)
    ensures var lists := p.lists[host := conns];
            && DisjointLists(lists)
            && Pooled(lists) == Pooled(p.lists) - Ids(ListOf(p.lists, host)) + Ids(conns)
  {
    var lists := p.lists[host := conns];
    var others := Pooled(p.lists) - Ids(ListOf(p.lists, host));
    forall id | id in Pooled(lists) && id !in Ids(conns) ensures id in others {
      var g :| g in lists && id in Ids(lists[g]);
      assert g in p.lists && id in Ids(p.lists[g]);
    }
    forall id | id in others ensures id in Pooled(lists) {
      var g :| g in p.lists && id in Ids(p.lists[g]);
      assert g in lists && id in Ids(lists[g]);
    }
    forall id | id in Ids(conns) ensures id in Pooled(lists) {
      assert host in lists && id in Ids(lists[host]);
    }
    assert Pooled(lists) == others + Ids(conns);
  }

  function GotIds(got: Option<Conn>): set<nat> {
    if got.Some? then {got.value.id} else {}
  }

  /** Popping splits a list into what stays, what is handed out and what is closed. */
  lemma PopSplits(conns: seq<Conn>, readings: seq<int>, now: int)
    requires ListInv(conns, now) && |conns| <= |readings| && Clock(now, readings)
    ensures var p := Pop(conns, readings, now);
            && ListInv(p.rest, now) && now <= p.now
            && Ids(p.rest) !! GotIds(p.got) !! p.dropped
            && Ids(conns) == Ids(p.rest) + GotIds(p.got) + p.dropped
  {
    PopMeans(conns, readings, now);
    if conns != [] && !Expired(conns[|conns| - 1], readings[0]) {
      var last, init := conns[|conns| - 1], conns[..|conns| - 1];
      assert conns == init + [last];
      IdsStep(init, last);
      InitInv(init, last, now);
    }
  }

  lemma InitInv(init: seq<Conn>, last: Conn, now: int)
    requires ListInv(init + [last], now)
    ensures ListInv(init, now) && last.id !in Ids(init)
  {
    var conns := init + [last];
    assert forall i :: 0 <= i < |init| ==> conns[i] == init[i];
    assert conns[|init|] == last;
    assert forall c :: c in init ==> c in conns;
  }

  lemma LaterInv(lists: map<string, seq<Conn>>, now: int, now': int)
    requires now <= now' && forall host :: host in lists ==> ListInv(lists[host], now)
    ensures forall host :: host in lists ==> ListInv(lists[host], now')
  {
  }

  lemma GetInv(p: Pool, host: string, readings: seq<int>)
    requires Inv(p) && |ListOf(p.lists, host)| <= |readings| && Clock(p.now, readings)
    ensures var p' := AfterGet(p, host, readings);
            Inv(p') && Known(p') == Known(p) && p.closed <= p'.closed && p.now <= p'.now
  {
    var conns := ListOf(p.lists, host);
    if conns != [] {
      PopSplits(conns, readings, p.now);
      var popped := Pop(conns, readings, p.now);
      var lists := p.lists[host := popped.rest];
      assert Ids(conns) <= Pooled(p.lists);
      assert forall g :: g in p.lists && g != host ==> Ids(p.lists[g]) !! Ids(conns);
      ReplaceList(p, host, popped.rest);
      assert Pooled(lists) == Pooled(p.lists) - GotIds(popped.got) - popped.dropped;
      LaterInv(lists, p.now, popped.now);
    }
  }

  lemma PutInv(p: Pool, host: string, id: nat, now: int)
    requires Inv(p) && p.now <= now && id in p.out
    ensures Inv(AfterPut(p, host, id, now)) && Known(AfterPut(p, host, id, now)) == Known(p)
  {
    var conns := ListOf(p.lists, host);
    if |conns| < MAX_IDLE_PER_HOST {
      var conns' := conns + [Conn(id, now)];
      IdsStep(conns, Conn(id, now));
      assert Ids(conns) <= Pooled(p.lists);
      assert forall g :: g in p.lists ==> Ids(p.lists[g]) <= Pooled(p.lists);
      ReplaceList(p, host, conns');
      assert Pooled(p.lists) - Ids(conns) + Ids(conns') == Pooled(p.lists) + {id};
    }
  }

  lemma ReapInv(p: Pool, now: int)
    requires Inv(p) && p.now <= now
    ensures Inv(AfterReap(p, now)) && Known(AfterReap(p, now)) == Known(p)
  {
    var lists := Reaped(p.lists, now);
    forall host | host in p.lists
      ensures ListInv(Unexpired(p.lists[host], now), now)
      ensures Ids(Unexpired(p.lists[host], now)) == Ids(p.lists[host]) - ExpiredIds(p.lists[host], now)
    {
      UnexpiredInv(p.lists[host], p.now, now);
    }
    forall id ensures id in Pooled(lists) <==> id in Pooled(p.lists) && id !in ReapedIds(p.lists, now) {
      if id in Pooled(lists) {
        var h :| h in lists && id in Ids(lists[h]);
        assert h in p.lists && id in Ids(p.lists[h]) && id !in ExpiredIds(p.lists[h], now);
        forall g | g in p.lists && g != h ensures id !in ExpiredIds(p.lists[g], now) {
          assert id !in Ids(p.lists[g]);
        }
      }
      if id in Pooled(p.lists) && id !in ReapedIds(p.lists, now) {
        var h :| h in p.lists && id in Ids(p.lists[h]);
        assert id in Ids(Unexpired(p.lists[h], now));
        assert h in lists;
      }
    }
    assert ReapedIds(p.lists, now) <= Pooled(p.lists) by {
      forall id | id in ReapedIds(p.lists, now) ensures id in Pooled(p.lists) {
        var h :| h in p.lists && id in ExpiredIds(p.lists[h], now);
        assert id in Ids(p.lists[h]);
      }
    }
  }

  /** Every connection had been idle for more than 90 seconds when the clock was first read. */
  ghost predicate AllLongIdle(list: seq<Conn>, readings: seq<int>)
    requires |list| <= |readings|
  {
    forall c :: c in list ==> readings[0] - c.idleAt > 90 * SECOND
  }

  lemma IdleTimes(list: seq<Conn>, readings: seq<int>)
    requires Ordered(list) && |list| <= |readings|
    ensures list != [] && !Expired(list[|list| - 1], readings[0]) ==> readings[0] - list[|list| - 1].idleAt <= 90 * SECOND
    ensures list == [] || Expired(list[|list| - 1], readings[0]) ==> AllLongIdle(list, readings)
  {
    forall c | c in list ensures c.idleAt <= list[|list| - 1].idleAt {
      var i :| 0 <= i < |list| && list[i] == c;
    }
  }

  lemma OneHost(lists: map<string, seq<Conn>>, host: string, conns: seq<Conn>)
    ensures forall other :: other != host ==> ListOf(lists[host := conns], other) == ListOf(lists, other)
  {
  }

  /** The pooled connections that have been idle for more than 90 seconds. */
  function LongIdle(lists: map<string, seq<Conn>>, now: int): set<nat> {
    set host, i | host in lists && 0 <= i < |lists[host]| && now - lists[host][i].idleAt > 90 * SECOND :: lists[host][i].id
  }

  /** The reaper keeps what has been idle for at most 90 seconds, and closes the rest. */
  lemma ReapedMeans(lists: map<string, seq<Conn>>, now: int)
    ensures forall host, c :: c in ListOf(Reaped(lists, now), host)
                              <==> c in ListOf(lists, host) && now - c.idleAt <= 90 * SECOND
    ensures ReapedIds(lists, now) == LongIdle(lists, now)
  {
    forall host, c ensures c in ListOf(Reaped(lists, now), host)
                           <==> c in ListOf(lists, host) && now - c.idleAt <= 90 * SECOND {
      if host in lists {
        var at := UnexpiredMeans(lists[host], now);
        KeptElements(lists[host], now, Unexpired(lists[host], now), at);
      }
    }
    forall id | id in LongIdle(lists, now) ensures id in ReapedIds(lists, now) {
      var host, i :| host in lists && 0 <= i < |lists[host]| && now - lists[host][i].idleAt > 90 * SECOND && lists[host][i].id == id;
      assert Expired(lists[host][i], now) && id in ExpiredIds(lists[host], now);
    }
    forall id | id in ReapedIds(lists, now) ensures id in LongIdle(lists, now) {
      var host :| host in lists && id in ExpiredIds(lists[host], now);
      var i :| 0 <= i < |lists[host]| && Expired(lists[host][i], now) && lists[host][i].id == id;
    }
  }

  // ----- The pool itself

  /** Popping the rest of a list, some of which is closed by now, comes to the same as popping all of it. */
  ghost predicate SamePop(rest: seq<Conn>, readings: seq<int>, now: int, closed: set<nat>, whole: Popped, closed0: set<nat>)
    requires |rest| <= |readings|
  {
    var p := Pop(rest, readings, now);
    p.rest == whole.rest && p.got == whole.got && p.now == whole.now && closed + p.dropped == closed0 + whole.dropped
  }

  class UpstreamConnPool {
    var conns: map<string, seq<Conn>>
    var closed: set<nat>  // the connections the pool or a caller has closed
    ghost var out: set<nat>
    ghost var clock: int

    ghost function State(): Pool
      reads this
    {
      Pool(conns, out, closed, clock)
    }

    constructor ()
      ensures Inv(State()) && Known(State()) == {}
    {
      conns, closed, out, clock := map[], {}, {}, 0;
    }

    method Get(host: string, readings: seq<int>) returns (got: Option<Conn>)
      requires Inv(State()) && |ListOf(conns, host)| <= |readings| && Clock(clock, readings)
      modifies this
      ensures State() == AfterGet(old(State()), host, readings)
      ensures Inv(State())
      ensures var list := ListOf(old(conns), host);
              if list != [] && !Expired(list[|list| - 1], readings[0])
              then got == Some(list[|list| - 1]) && ListOf(conns, host) == list[..|list| - 1] && closed == old(closed)
              else got == None && ListOf(conns, host) == [] && closed == old(closed) + Ids(list)
      ensures got.Some? ==> readings[0] - got.value.idleAt <= 90 * SECOND
      ensures got.None? ==> AllLongIdle(ListOf(old(conns), host), readings)
      ensures forall other :: other != host ==> ListOf(conns, other) == ListOf(old(conns), other)
    {
      ghost var list := ListOf(conns, host);
      GetInv(State(), host, readings);
      PopMeans(list, readings, clock);
      IdleTimes(list, readings);
      got := PopLoop(host, readings);
      if got.Some? {
        out := out + {got.value.id};
      }
      OneHost(old(conns), host, Pop(list, readings, old(clock)).rest);
    }

    /** The loop of `get`. */
    method PopLoop(host: string, readings: seq<int>) returns (got: Option<Conn>)
      requires |ListOf(conns, host)| <= |readings|
      modifies this`conns, this`closed, this`clock
      ensures var list := ListOf(old(conns), host);
              var p := Pop(list, readings, old(clock));
              && conns == (if list == [] then old(conns) else old(conns)[host := p.rest])
              && closed == old(closed) + p.dropped && got == p.got && clock == p.now
    {
      var cs := ListOf(conns, host);
      var k := 0; // connections popped
      ghost var lists0, whole := conns, Pop(cs, readings, clock);
      ghost var closed0 := closed;
      while |cs| > 0
        invariant conns == if ListOf(lists0, host) == [] then lists0 else lists0[host := cs]
        invariant 0 <= k && |cs| + k <= |readings|
        invariant SamePop(cs, readings[k..], clock, closed, whole, closed0)
      {
        var pc := cs[|cs| - 1];
        cs := cs[..|cs| - 1];
        conns := conns[host := cs];
        clock := readings[k];
        k := k + 1;
        assert readings[k - 1..][1..] == readings[k..];
        if readings[k - 1] - pc.idleAt > IDLE_TIMEOUT {
          closed := closed + {pc.id};
          continue;
        }
        return Some(pc);
      }
      return None;
    }

    method Put(host: string, id: nat, now: int)
      requires Inv(State()) && clock <= now && id in out
      modifies this
      ensures State() == AfterPut(old(State()), host, id, now)
      ensures Inv(State())
      ensures var list := ListOf(old(conns), host);
              if |list| < 4 then ListOf(conns, host) == list + [Conn(id, now)] && closed == old(closed)
              else conns == old(conns) && closed == old(closed) + {id}
      ensures forall other :: other != host ==> ListOf(conns, other) == ListOf(old(conns), other)
    {
      PutInv(State(), host, id, now);
      var cs := ListOf(conns, host);
      clock, out := now, out - {id};
      if |cs| >= MAX_IDLE_PER_HOST {
        closed := closed + {id};
        return;
      }
      conns := conns[host := cs + [Conn(id, now)]];
    }

    /** One tick of the reaper. */
    method Reap(now: int)
      requires Inv(State()) && clock <= now
      modifies this
      ensures State() == AfterReap(old(State()), now)
      ensures Inv(State())
      ensures forall host, c :: c in ListOf(conns, host) <==> c in ListOf(old(conns), host) && now - c.idleAt <= 90 * SECOND
      ensures closed == old(closed) + LongIdle(old(conns), now)
    {
      ReapedMeans(conns, now);
      ReapInv(State(), now);
      ReapLoop(now);
      clock := now;
    }

    /** The loop over the hosts, in the arbitrary order of a map. */
    method ReapLoop(now: int)
      modifies this`conns, this`closed
      ensures conns == Reaped(old(conns), now)
      ensures closed == old(closed) + ReapedIds(old(conns), now)
    {
      ghost var lists, closed0 := conns, closed;
      var todo := conns.Keys;
      while todo != {}
        invariant todo <= lists.Keys
        invariant conns == ReapedExcept(lists, now, todo)
        invariant closed == closed0 + ReapedIds(lists - todo, now)
      {
        var host :| host in todo;
        var list := conns[host];
        var kept, expired := ReapList(list, now);
        ReapedExceptOneMore(lists, now, todo, host);
        ReapedIdsOneMore(lists, now, todo, host);
        closed := closed + expired;
        conns := if |kept| == 0 then conns - {host} else conns[host := kept];
        todo := todo - {host};
      }
      assert lists - {} == lists;
    }
  }

  lemma ReapedExceptOneMore(lists: map<string, seq<Conn>>, now: int, todo: set<string>, host: string)
    requires host in todo && host in lists
    ensures var kept := Unexpired(lists[host], now);
            var before := ReapedExcept(lists, now, todo);
            && host in before && before[host] == lists[host]
            && ReapedExcept(lists, now, todo - {host}) == if kept == [] then before - {host} else before[host := kept]
  {
  }

  /** The inner loop of the reaper, on the backing array of one list. */
  method ReapList(list: seq<Conn>, now: int) returns (kept: seq<Conn>, expired: set<nat>)
    ensures kept == Unexpired(list, now) && expired == ExpiredIds(list, now)
  {
    var slots := new Conn[|list|](i requires 0 <= i < |list| => list[i]);
    assert slots[..] == list;
    var alive;
    alive, expired := CompactInPlace(slots, now);
    kept := slots[..alive];
  }

  /** The reaped map, but for the hosts still to be looked at. */
  function ReapedExcept(lists: map<string, seq<Conn>>, now: int, todo: set<string>): map<string, seq<Conn>> {
    map host | host in lists && (host in todo || Unexpired(lists[host], now) != []) ::
      if host in todo then lists[host] else Unexpired(lists[host], now)
  }

  lemma ReapedIdsOneMore(lists: map<string, seq<Conn>>, now: int, todo: set<string>, host: string)
    requires host in todo && host in lists
    ensures ReapedIds(lists - (todo - {host}), now) == ReapedIds(lists - todo, now) + ExpiredIds(lists[host], now)
  {
    var more, less := lists - (todo - {host}), lists - todo;
    forall id ensures id in ReapedIds(more, now) <==> id in ReapedIds(less, now) + ExpiredIds(lists[host], now) {
      if id in ReapedIds(more, now) {
        var g :| g in more && id in ExpiredIds(more[g], now);
        if g != host { assert g in less && id in ExpiredIds(less[g], now); }
      }
      if id in ReapedIds(less, now) {
        var g :| g in less && id in ExpiredIds(less[g], now);
        assert g in more && id in ExpiredIds(more[g], now);
      }
      if id in ExpiredIds(lists[host], now) { assert host in more && id in ExpiredIds(more[host], now); }
    }
  }

  /** `alive := conns[:0]`: the unexpired ones move to the front of the same array. */
  method CompactInPlace(conns: array<Conn>, now: int) returns (alive: nat, expired: set<nat>)
    modifies conns
    ensures alive <= conns.Length
    ensures conns[..alive] == Unexpired(old(conns[..]), now)
    ensures expired == ExpiredIds(old(conns[..]), now)
  {
    alive, expired := 0, {};
    for i := 0 to conns.Length
      invariant alive <= i
      invariant conns[..alive] == Unexpired(old(conns[..])[..i], now)
      invariant conns[i..] == old(conns[..])[i..]
      invariant expired == ExpiredIds(old(conns[..])[..i], now)
    {
      var pc := conns[i];
      ghost var was := old(conns[..]);
      assert pc == was[i..][0];
      assert was[..i + 1] == was[..i] + [pc];
      ExpiredIdsStep(was[..i], pc, now);
      if now - pc.idleAt > IDLE_TIMEOUT {
        expired := expired + {pc.id};
      } else {
        conns[alive] := pc;
        alive := alive + 1;
      }
      assert conns[i + 1..] == was[i..][1..];
    }
    assert old(conns[..])[..conns.Length] == old(conns[..]);
  }

  lemma ExpiredIdsStep(conns: seq<Conn>, c: Conn, now: int)
    ensures ExpiredIds(conns + [c], now) == ExpiredIds(conns, now) + (if Expired(c, now) then {c.id} else {})
  {
    var more := conns + [c];
    assert more[|conns|] == c;
    forall id | id in ExpiredIds(conns, now) ensures id in ExpiredIds(more, now) {
      var i :| 0 <= i < |conns| && Expired(conns[i], now) && conns[i].id == id;
      assert more[i] == conns[i];
    }
  }

  /** Any run of operations, under a clock that does not go back. */
  ghost predicate AllowedRun(p: Pool, ops: seq<Op>)
    decreases |ops|
  {
    ops == [] || (Allowed(p, ops[0]) && AllowedRun(After(p, ops[0]), ops[1..]))
  }

  ghost function Run(p: Pool, ops: seq<Op>): Pool
    requires AllowedRun(p, ops)
    decreases |ops|
  {
    if ops == [] then p else Run(After(p, ops[0]), ops[1..])
  }

  function Dialed(ops: seq<Op>): set<nat> {
    if ops == [] then {} else (if ops[0].Dial? then {ops[0].id} else {}) + Dialed(ops[1..])
  }

  /** From an empty pool on: what was dialed is all there is, each connection in exactly one place, closed ones for good. */
  lemma {:induction false} RunInv(p: Pool, ops: seq<Op>)
    requires Inv(p) && AllowedRun(p, ops)
    ensures Inv(Run(p, ops))
    ensures Known(Run(p, ops)) == Known(p) + Dialed(ops)
    ensures p.closed <= Run(p, ops).closed
    decreases |ops|
  {
    if ops != [] {
      StepInv(p, ops[0]);
      RunInv(After(p, ops[0]), ops[1..]);
    }
  }
}
