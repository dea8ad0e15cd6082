/** Acceptors::MultiThreaded: the client list and the per-address counters behind one mutex, the
    admission of new clients, and the destructor that drains the list. Each critical section is one step. */
module Acceptor {
  import opened Bytes

  const UINT32_MAX := 0xFFFF_FFFF

  type uint32 = n: int | 0 <= n <= UINT32_MAX

  /** Identity of one StreamAcceptorThread object. */
  type Client = nat

  /** getRemotePair of every client, and the two limits; all fixed for a run. */
  datatype Config = Config(remote: Client -> string, maxConcurrentClients: uint32, maxConnectionsPerIP: uint32)

  type Usage = map<string, uint32>

  // ----- the counters -----

  function Increment(m: Usage, ip: string): Usage {
    if ip !in m then m[ip := 1]
    else if m[ip] != UINT32_MAX then m[ip := m[ip] + 1]
    else m
  }

  function Minus1(n: uint32): uint32 {
    if n == 0 then UINT32_MAX else n - 1
  }

  /** None when the source throws. */
  function Decrement(m: Usage, ip: string): Option<Usage> {
    if ip !in m then None
    else if m[ip] == 1 then Some(m - {ip})
    else Some(m[ip := Minus1(m[ip])])
  }

  /** How many of the listed clients come from `ip`. */
  function Count(cfg: Config, list: seq<Client>, ip: string): nat {
    if list == [] then 0
    else (if cfg.remote(list[0]) == ip then 1 else 0) + Count(cfg, list[1..], ip)
  }

  ghost predicate Distinct(list: seq<Client>) {
    forall i, j :: 0 <= i < j < |list| ==> list[i] != list[j]
  }

  lemma {:induction false} CountAppend(cfg: Config, list: seq<Client>, c: Client, ip: string)
    ensures Count(cfg, list + [c], ip) == Count(cfg, list, ip) + (if cfg.remote(c) == ip then 1 else 0)
  {
    if list == [] {
      assert list + [c] == [c];
    } else {
      assert (list + [c])[1..] == list[1..] + [c];
      CountAppend(cfg, list[1..], c, ip);
    }
  }

  lemma {:induction false} CountBound(cfg: Config, list: seq<Client>, ip: string)
    ensures Count(cfg, list, ip) <= |list|
  {
    if list != [] {
      CountBound(cfg, list[1..], ip);
    }
  }

  lemma {:induction false} WithoutAbsent(list: seq<Client>, c: Client)
    requires c !in list
    ensures Without(list, c) == list
  {
    if list != [] {
      WithoutAbsent(list[1..], c);
    }
  }

  lemma {:induction false} WithoutMembers(list: seq<Client>, c: Client)
    ensures forall x :: x in Without(list, c) <==> x in list && x != c
    ensures Distinct(list) ==> Distinct(Without(list, c))
  {
    if list != [] {
      WithoutMembers(list[1..], c);
      if Distinct(list) {
        assert list[0] !in list[1..];
      }
    }
  }

  /** Removing a listed client takes exactly one off its address, and nothing off any other. */
  lemma {:induction false} CountWithout(cfg: Config, list: seq<Client>, c: Client, ip: string)
    requires Distinct(list) && c in list
    ensures Count(cfg, Without(list, c), ip) == Count(cfg, list, ip) - (if cfg.remote(c) == ip then 1 else 0)
    ensures |Without(list, c)| == |list| - 1
  {
    var tail := list[1..];
    if list[0] == c {
      assert c !in tail;
      WithoutAbsent(tail, c);
      assert Without(list, c) == tail;
    } else {
      CountWithout(cfg, tail, c, ip);
      var w := Without(list, c);
      assert w[0] == list[0] && w[1..] == Without(tail, c);
    }
  }

  // ----- the monitor -----

  /** What m_mutexClients guards. `threw` records that decrementIPUsage found nothing to decrement. */
  datatype Shared = Shared(list: seq<Client>, perIP: Usage, finalized: bool, threw: bool)

  predicate Full(cfg: Config, s: Shared) {
    |s.list| >= cfg.maxConcurrentClients
  }

  /** processClient once its waiting loop is over. */
  function Admit(cfg: Config, s: Shared, c: Client): Shared {
    if s.finalized then s
    else
      var ip := cfg.remote(c);
      var m := Increment(s.perIP, ip);
      if m[ip] > cfg.maxConnectionsPerIP then
        match Decrement(m, ip)
        case Some(back) => s.(perIP := back)
        case None => s.(perIP := m, threw := true)
      else
        s.(perIP := m, list := s.list + [c])
  }

  /** finalizeThreadElement. */
  function Finish(cfg: Config, s: Shared, c: Client): Shared {
    if c in s.list then
      var s' := s.(list := Without(s.list, c));
      match Decrement(s.perIP, cfg.remote(c))
      case Some(m) => s'.(perIP := m)
      case None => s'.(threw := true)
    else s
  }

  /** The per-address map is the census of the client list, within the limits. */
  ghost predicate Census(cfg: Config, s: Shared) {
    && Distinct(s.list)
    && |s.list| <= cfg.maxConcurrentClients
    && !s.threw
    && (forall ip :: ip in s.perIP <==> Count(cfg, s.list, ip) > 0)
    && (forall ip :: ip in s.perIP ==> s.perIP[ip] == Count(cfg, s.list, ip) <= cfg.maxConnectionsPerIP)
  }

  /** Increment then decrement leaves a census as it was, short of saturation. */
  lemma IncrementDecrement(m: Usage, ip: string)
    requires ip in m ==> 0 < m[ip] < UINT32_MAX
    ensures Decrement(Increment(m, ip), ip) == Some(m)
  {
    if ip !in m {
      assert m[ip := 1] - {ip} == m;
    } else {
      assert m[ip := m[ip] + 1][ip := m[ip]] == m;
    }
  }

  lemma AdmitKeepsCensus(cfg: Config, s: Shared, c: Client)
    requires Census(cfg, s) && c !in s.list && (|s.list| < cfg.maxConcurrentClients || s.finalized)
    ensures Census(cfg, Admit(cfg, s, c))
  {
    if !s.finalized {
      var ip := cfg.remote(c);
      CountBound(cfg, s.list, ip);
      IncrementDecrement(s.perIP, ip);
      var t := Admit(cfg, s, c);
      if t.list != s.list {
        assert t.list == s.list + [c];
        forall x
          ensures Count(cfg, t.list, x) == Count(cfg, s.list, x) + (if x == ip then 1 else 0)
        {
          CountAppend(cfg, s.list, c, x);
        }
      }
    }
  }

  /** Below the concurrency limit a client gets in exactly when the object is not being torn down and its
      address is below its own limit; a client that does not get in leaves no trace. */
  lemma AdmitIff(cfg: Config, s: Shared, c: Client)
    requires Census(cfg, s) && c !in s.list && |s.list| < cfg.maxConcurrentClients
    ensures var t := Admit(cfg, s, c);
            var room := !s.finalized && Count(cfg, s.list, cfg.remote(c)) < cfg.maxConnectionsPerIP;
            && (room ==> t.list == s.list + [c] && t.perIP == Increment(s.perIP, cfg.remote(c)))
            && (!room ==> t == s)
  {
    CountBound(cfg, s.list, cfg.remote(c));
    IncrementDecrement(s.perIP, cfg.remote(c));
  }

  lemma FinishKeepsCensus(cfg: Config, s: Shared, c: Client)
    requires Census(cfg, s)
    ensures Census(cfg, Finish(cfg, s, c))
    ensures c in s.list ==> |Finish(cfg, s, c).list| == |s.list| - 1
    ensures forall x :: x in Finish(cfg, s, c).list <==> x in s.list && x != c
  {
    WithoutMembers(s.list, c);
    if c in s.list {
      var ip := cfg.remote(c);
      CountWithout(cfg, s.list, c, ip);
      CountPositive(cfg, s.list, c);
      var t := Finish(cfg, s, c);
      WithoutMembers(s.list, c);
      forall x
        ensures Count(cfg, t.list, x) == Count(cfg, s.list, x) - (if x == ip then 1 else 0)
      {
        CountWithout(cfg, s.list, c, x);
      }
    }
  }

  lemma {:induction false} CountPositive(cfg: Config, list: seq<Client>, c: Client)
    requires c in list
    ensures Count(cfg, list, cfg.remote(c)) > 0
  {
    if list[0] != c {
      CountPositive(cfg, list[1..], c);
    }
  }

  /** Only an empty list has an empty census. */
  lemma EmptyCensus(cfg: Config, s: Shared)
    requires Census(cfg, s) && s.list == []
    ensures s.perIP == map[]
  {
    forall ip
      ensures ip !in s.perIP
    {
      assert Count(cfg, s.list, ip) == 0;
    }
  }

  // ----- the whole object: acceptor threads, client threads, destructor -----

  /** The destructor: not yet running, past setting m_finalized, parked on m_condClientsEmpty, past the wait. */
  datatype Destructor = Idle | Draining | Parked(signalled: bool) | Passed

  datatype State = State(shared: Shared, waiting: set<Client>, dtor: Destructor)

  datatype Step =
    | Arrive(c: Client)      // an acceptor thread enters processClient with a new client
    | Retry(c: Client)       // a waiting processClient wakes (notified or spuriously) and tests again
    | TimeOut(c: Client)     // wait_for ran out
    | Ended(c: Client)       // a client thread calls finalizeThreadElement
    | SetFinalized           // the destructor marks the object
    | DtorTest               // the destructor takes the lock and tests the list
    | DtorWake               // the parked destructor wakes (notified or spuriously) and tests again

  predicate Enabled(s: State, a: Step) {
    match a
    case Arrive(c) => c !in s.shared.list && c !in s.waiting
    case Retry(c) => c in s.waiting
    case TimeOut(c) => c in s.waiting
    case Ended(_) => true
    case SetFinalized => s.dtor.Idle?
    case DtorTest => s.dtor.Draining?
    case DtorWake => s.dtor.Parked?
  }

  function TryAdmit(cfg: Config, s: State, c: Client): State {
    if Full(cfg, s.shared) && !s.shared.finalized then s.(waiting := s.waiting + {c})
    else s.(waiting := s.waiting - {c}, shared := Admit(cfg, s.shared, c))
  }

  function TestEmpty(s: State): State {
    s.(dtor := if s.shared.list == [] then Passed else Parked(false))
  }

  function Next(cfg: Config, s: State, a: Step): State
    requires Enabled(s, a)
  {
    match a
    case Arrive(c) => TryAdmit(cfg, s, c)
    case Retry(c) => TryAdmit(cfg, s, c)
    case TimeOut(c) => s.(waiting := s.waiting - {c})
    case Ended(c) =>
      var t := s.(shared := Finish(cfg, s.shared, c));
      // notify_one on m_condClientsEmpty, only when this call removed the last client
      if c in s.shared.list && t.shared.list == [] && t.dtor.Parked? then t.(dtor := Parked(true)) else t
    case SetFinalized => s.(shared := s.shared.(finalized := true), dtor := Draining)
    case DtorTest => TestEmpty(s)
    case DtorWake => TestEmpty(s)
  }

  ghost predicate Inv(cfg: Config, s: State) {
    && Census(cfg, s.shared)
    && (forall c :: c in s.waiting ==> c !in s.shared.list)
    && (!s.dtor.Idle? ==> s.shared.finalized)
    // no missed wake-up: a parked and unsignalled destructor still has clients to wait for
    && (s.dtor == Parked(false) ==> s.shared.list != [])
    // past the wait everything is drained
    && (s.dtor.Passed? ==> s.shared.list == [] && s.shared.perIP == map[])
  }

  const START := State(Shared([], map[], false, false), {}, Idle)

  lemma StartInv(cfg: Config)
    ensures Inv(cfg, START)
  {
  }

  lemma TryAdmitKeepsInv(cfg: Config, s: State, c: Client)
    requires Inv(cfg, s) && c !in s.shared.list
    ensures Inv(cfg, TryAdmit(cfg, s, c))
  {
    if !Full(cfg, s.shared) || s.shared.finalized {
      AdmitKeepsCensus(cfg, s.shared, c);
    }
  }

  lemma NextKeepsInv(cfg: Config, s: State, a: Step)
    requires Inv(cfg, s) && Enabled(s, a)
    ensures Inv(cfg, Next(cfg, s, a))
  {
    match a
    case Arrive(c) => TryAdmitKeepsInv(cfg, s, c);
    case Retry(c) => TryAdmitKeepsInv(cfg, s, c);
    case Ended(c) =>
      FinishKeepsCensus(cfg, s.shared, c);
      WithoutMembers(s.shared.list, c);
    case TimeOut(c) =>
    case SetFinalized =>
    case DtorTest => if s.shared.list == [] { EmptyCensus(cfg, s.shared); }
    case DtorWake => if s.shared.list == [] { EmptyCensus(cfg, s.shared); }
  }

  /** What becomes of a client that enters or tries again: it is listed exactly when the object is not being torn
      down and both limits leave room, it waits exactly when only the limit on all clients stands in its way, and
      nobody else is touched. */
  lemma ServedIff(cfg: Config, s: State, a: Step, c: Client)
    requires Inv(cfg, s) && Enabled(s, a) && (a == Arrive(c) || a == Retry(c))
    ensures var t := Next(cfg, s, a);
            var served := && !s.shared.finalized
                          && |s.shared.list| < cfg.maxConcurrentClients
                          && Count(cfg, s.shared.list, cfg.remote(c)) < cfg.maxConnectionsPerIP;
            var waits := !s.shared.finalized && |s.shared.list| >= cfg.maxConcurrentClients;
            && (c in t.shared.list <==> served)
            && t.shared.list == (if served then s.shared.list + [c] else s.shared.list)
            && t.waiting == (if waits then s.waiting + {c} else s.waiting - {c})
            && t.dtor == s.dtor && t.shared.finalized == s.shared.finalized
  {
    assert c !in s.shared.list;
    if |s.shared.list| < cfg.maxConcurrentClients {
      AdmitIff(cfg, s.shared, c);
    }
  }

  /** The destructor passes its wait exactly when it finds the list empty. */
  lemma PassesIff(cfg: Config, s: State, a: Step)
    requires Enabled(s, a) && (a == DtorTest || a == DtorWake)
    ensures var t := Next(cfg, s, a);
            && (t.dtor.Passed? <==> s.shared.list == []) && (t.dtor == Parked(false) <==> s.shared.list != [])
            && t.shared == s.shared && t.waiting == s.waiting
  {
  }

  ghost predicate Reaches(cfg: Config, start: State, run: seq<Step>, end: State)
    decreases |run|
  {
    if run == [] then end == start
    else Enabled(start, run[0]) && Reaches(cfg, Next(cfg, start, run[0]), run[1..], end)
  }

  lemma {:induction false} RunKeepsInv(cfg: Config, start: State, run: seq<Step>, end: State)
    requires Inv(cfg, start) && Reaches(cfg, start, run, end)
    ensures Inv(cfg, end)
    decreases |run|
  {
    if run != [] {
      NextKeepsInv(cfg, start, run[0]);
      RunKeepsInv(cfg, Next(cfg, start, run[0]), run[1..], end);
    }
  }

  /** Every reachable state: the map is the census of the list, both limits hold, no counter is
      saturated, nothing was ever thrown, and a destructor past its wait has drained everything. */
  lemma EveryRunIsConsistent(cfg: Config, run: seq<Step>, end: State)
    requires Reaches(cfg, START, run, end)
    ensures Census(cfg, end.shared)
    ensures end.dtor == Parked(false) ==> end.shared.list != []
    ensures end.dtor.Passed? ==> end.shared.list == [] && end.shared.perIP == map[]
    ensures !end.shared.finalized ==> forall c | c !in end.shared.list && |end.shared.list| < cfg.maxConcurrentClients ::
              var m := Increment(end.shared.perIP, cfg.remote(c));
              m[cfg.remote(c)] == Count(cfg, end.shared.list, cfg.remote(c)) + 1
  {
    StartInv(cfg);
    RunKeepsInv(cfg, START, run, end);
    forall c | c !in end.shared.list && |end.shared.list| < cfg.maxConcurrentClients
      ensures var m := Increment(end.shared.perIP, cfg.remote(c));
              m[cfg.remote(c)] == Count(cfg, end.shared.list, cfg.remote(c)) + 1
    {
      CountBound(cfg, end.shared.list, cfg.remote(c));
    }
  }

  /** From the moment m_finalized is set the list only ever shrinks: nobody is admitted any more. */
  lemma {:induction false} NobodyAdmittedAfterFinalized(cfg: Config, start: State, run: seq<Step>, end: State)
    requires start.shared.finalized && Reaches(cfg, start, run, end)
    ensures end.shared.finalized
    ensures forall c :: c in end.shared.list ==> c in start.shared.list
    decreases |run|
  {
    if run != [] {
      var next := Next(cfg, start, run[0]);
      if run[0].Ended? {
        WithoutMembers(start.shared.list, run[0].c);
      }
      NobodyAdmittedAfterFinalized(cfg, next, run[1..], end);
    }
  }

  /** The step that removes the last client signals a parked destructor, whose next test then passes. */
  lemma LastClientReleasesDestructor(cfg: Config, s: State, c: Client)
    requires Inv(cfg, s) && s.dtor.Parked? && s.shared.list == [c]
    ensures var t := Next(cfg, s, Ended(c));
            t.dtor == Parked(true) && Next(cfg, t, DtorWake).dtor.Passed?
  {
    FinishKeepsCensus(cfg, s.shared, c);
  }

  /** A life of the object: a client is served, the destructor starts and has to wait, the client ends, and the
      destructor passes. */
  lemma ServedAndDrained(cfg: Config, c: Client)
    requires cfg.maxConcurrentClients > 0 && cfg.maxConnectionsPerIP > 0
    ensures var s := Next(cfg, START, Arrive(c));
            && s.shared.list == [c] && s.shared.perIP == map[cfg.remote(c) := 1]
            && var t := Next(cfg, Next(cfg, s, SetFinalized), DtorTest);
               && t.dtor == Parked(false) && t.shared.list == [c]
               && var u := Next(cfg, t, Ended(c));
                  && u.shared.list == [] && u.shared.perIP == map[] && u.dtor == Parked(true)
                  && Next(cfg, u, DtorWake).dtor.Passed?
  {
    StartInv(cfg);
    ServedIff(cfg, START, Arrive(c), c);
    var s := Next(cfg, START, Arrive(c));
    NextKeepsInv(cfg, START, Arrive(c));
    NextKeepsInv(cfg, s, SetFinalized);
    var f := Next(cfg, s, SetFinalized);
    NextKeepsInv(cfg, f, DtorTest);
    var t := Next(cfg, f, DtorTest);
    LastClientReleasesDestructor(cfg, t, c);
    NextKeepsInv(cfg, t, Ended(c));
    var u := Next(cfg, t, Ended(c));
    NextKeepsInv(cfg, u, DtorWake);
  }

  /** Finalizing a client a second time changes nothing. */
  lemma FinishTwice(cfg: Config, s: Shared, c: Client)
    requires Census(cfg, s)
    ensures Finish(cfg, Finish(cfg, s, c), c) == Finish(cfg, s, c)
  {
    WithoutMembers(s.list, c);
  }

  /** Draining the listed clients one by one, in any order, empties list and map whatever else happens. */
  lemma {:induction false} DrainEmpties(cfg: Config, s: Shared, order: seq<Client>)
    requires Census(cfg, s) && forall c :: c in s.list ==> c in order
    ensures var t := FinishAll(cfg, s, order); t.list == [] && t.perIP == map[] && !t.threw
    decreases |order|
  {
    assert s.list == [] || s.list[0] in order;
    if order == [] {
      EmptyCensus(cfg, s);
    } else {
      FinishKeepsCensus(cfg, s, order[0]);
      WithoutMembers(s.list, order[0]);
      DrainEmpties(cfg, Finish(cfg, s, order[0]), order[1..]);
    }
  }

  function FinishAll(cfg: Config, s: Shared, order: seq<Client>): Shared
    decreases |order|
  {
    if order == [] then s else FinishAll(cfg, Finish(cfg, s, order[0]), order[1..])
  }

  // ----- the code itself -----

  class MultiThreaded {
    const cfg: Config
    var threadList: seq<Client>
    var connectionsPerIP: Usage
    var finalized: bool

    constructor (cfg: Config)
      ensures this.cfg == cfg && Value(false) == START.shared
    {
      this.cfg := cfg;
      threadList, connectionsPerIP, finalized := [], map[], false;
    }

    ghost function Value(threw: bool): Shared
      reads this
    {
      Shared(threadList, connectionsPerIP, finalized, threw)
    }

    method IncrementIPUsage(ip: string) returns (n: uint32)
      modifies this`connectionsPerIP
      ensures connectionsPerIP == Increment(old(connectionsPerIP), ip) && n == connectionsPerIP[ip]
    {
      if ip !in connectionsPerIP {
        connectionsPerIP := connectionsPerIP[ip := 1];
      } else if connectionsPerIP[ip] != UINT32_MAX {
        connectionsPerIP := connectionsPerIP[ip := connectionsPerIP[ip] + 1];
      }
      n := connectionsPerIP[ip];
    }

    method DecrementIPUsage(ip: string) returns (threw: bool)
      modifies this`connectionsPerIP
      ensures threw <==> Decrement(old(connectionsPerIP), ip).None?
      ensures connectionsPerIP == if threw then old(connectionsPerIP) else Decrement(old(connectionsPerIP), ip).value
    {
      if ip !in connectionsPerIP {
        return true;
      }
      if connectionsPerIP[ip] == 1 {
        connectionsPerIP := connectionsPerIP - {ip};
      } else {
        connectionsPerIP := connectionsPerIP[ip := Minus1(connectionsPerIP[ip])];
      }
      return false;
    }

    /** processClient from the end of its waiting loop; false tells the acceptor thread to stop. */
    method ProcessClient(c: Client) returns (goOn: bool)
      requires Census(cfg, Value(false)) && c !in threadList
      requires |threadList| < cfg.maxConcurrentClients || finalized
      modifies this
      ensures Value(false) == Admit(cfg, old(Value(false)), c)
      ensures Census(cfg, Value(false))
      ensures goOn == !old(finalized)
    {
      AdmitKeepsCensus(cfg, Value(false), c);
      if finalized {
        return false;
      }
      var ip := cfg.remote(c);
      var n := IncrementIPUsage(ip);
      if n > cfg.maxConnectionsPerIP {
        var _ := DecrementIPUsage(ip);
        return true;
      }
      threadList := threadList + [c];
      return true;
    }

    /** finalizeThreadElement; `wakeEmpty` is the notification of m_condClientsEmpty. */
    method FinalizeThreadElement(x: Client) returns (found: bool, wakeEmpty: bool)
      requires Census(cfg, Value(false))
      modifies this
      ensures Value(false) == Finish(cfg, old(Value(false)), x)
      ensures Census(cfg, Value(false))
      ensures found <==> x in old(threadList)
      ensures wakeEmpty <==> found && threadList == []
    {
      FinishKeepsCensus(cfg, Value(false), x);
      if x in threadList {
        CountPositive(cfg, threadList, x);
        threadList := Without(threadList, x);
        var _ := DecrementIPUsage(cfg.remote(x));
        return true, threadList == [];
      }
      return false, false;
    }
  }
}
