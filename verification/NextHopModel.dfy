/** The next-hop resolver as pure steps over its state: the cache of answers from the RIB, the
    queue of requests to the RIB, and the flags between them. The classes NextHopCache and
    NextHopResolver are proved to perform exactly these steps. */
module NextHopModel {
  import opened Wrappers
  import opened Nets

  /** One answer from the RIB and the next hops that use it (NextHopCache::NextHopEntry). */
  datatype Entry = Entry(
    address: Addr, prefixLen: nat, realPrefixLen: nat, resolvable: bool, metric: nat,
    refs: map<Addr, int>)

  /** The by-prefix index. */
  type Cache = map<Net, Entry>

  /** RefTrie::find: the longest stored subnet that holds the address. */
  function FindUpTo(c: Cache, a: Addr, len: nat): (r: Option<Net>)
    requires len <= |a|
    ensures r.Some? ==> r.value in c && r.value <= a && |r.value| <= len
    ensures r.Some? ==> forall n | n in c && n <= a && |n| <= len :: |n| <= |r.value|
    ensures r.None? ==> forall n | n in c && n <= a :: len < |n|
  {
    if a[..len] in c then
      Some(a[..len])
    else if len == 0 then
      assert forall n: Net | n <= a && |n| == 0 :: n == a[..0];
      None
    else
      assert forall n: Net | n <= a && |n| == len :: n == a[..len];
      FindUpTo(c, a, len - 1)
  }

  function Find(c: Cache, a: Addr): (r: Option<Net>)
    ensures r.Some? ==> r.value in c && r.value <= a && forall n | n in c && n <= a :: |n| <= |r.value|
    ensures r.None? ==> forall n | n in c :: !(n <= a)
  {
    FindUpTo(c, a, |a|)
  }

  predicate Covered(c: Cache, a: Addr) {
    Find(c, a).Some?
  }

  /** Who asked for a next hop while the answer is awaited (NHRequest). The per-requester
      multisets of nets are kept as one multiset of pairs. */
  datatype NHRequest = NHRequest(requesters: set<nat>, nets: multiset<(nat, Net)>, total: int)

  const NO_REQUESTS := NHRequest({}, multiset{}, 0)

  function AddRequest(r: NHRequest, net: Net, requester: nat): NHRequest {
    NHRequest(r.requesters + {requester}, r.nets + multiset{(requester, net)}, r.total + 1)
  }

  function RemoveRequest(r: NHRequest, net: Net, requester: nat): Option<NHRequest> {
    if requester in r.requesters && (requester, net) in r.nets then
      Some(NHRequest(r.requesters, r.nets - multiset{(requester, net)}, r.total - 1))
    else
      None
  }

  /** RibRequestQueueEntry: a registration waiting for an answer, or a deregistration. */
  datatype Request =
    | Register(nexthop: Addr, newRegister: bool, requests: NHRequest,
               reregister: bool, refCnt: int, resolvable: bool, metric: nat)
    | Deregister(baseAddr: Addr, prefixLen: nat)

  /** RibRegisterQueueEntry::metric() returns a bool. */
  function StaleMetric(r: Request): nat
    requires r.Register?
  {
    if r.metric != 0 then 1 else 0
  }

  datatype RibCall = RegisterInterest(nexthop: Addr) | DeregisterInterest(addr: Addr, prefixLen: nat)

  function CallOf(r: Request): RibCall {
    match r
    case Register(nh, _, _, _, _, _, _) => RegisterInterest(nh)
    case Deregister(a, len) => DeregisterInterest(a, len)
  }

  datatype Upcall =
    | LookupDone(nexthop: Addr, nets: map<nat, set<Net>>, resolvable: bool)
    | IgpNexthopChanged(nexthop: Addr)

  /** `calls` are the requests sent to the RIB so far and `replies` counts the answers received;
      `upcalls` are the calls made into the route tables. */
  datatype State = State(
    ribnameSet: bool, cache: Cache, queue: seq<Request>, busy: bool,
    invalid: Option<Net>, tardy: Option<Net>,
    calls: seq<RibCall>, replies: nat, upcalls: seq<Upcall>)

  function Init(ribnameSet: bool): State {
    State(ribnameSet, map[], [], false, None, None, [], 0, [])
  }

  // ---- NextHopCache -------------------------------------------------------------------

  function AddRef(e: Entry, nexthop: Addr, incr: int): Entry {
    e.(refs := e.refs[nexthop := (if nexthop in e.refs then e.refs[nexthop] else 0) + incr])
  }

  function CacheRegister(c: Cache, nexthop: Addr, incr: int): Option<Cache> {
    match Find(c, nexthop)
    case None => None
    case Some(n) => Some(c[n := AddRef(c[n], nexthop, incr)])
  }

  /** The subnet whose entry records the next hop, if the covering entry does. */
  function Holder(c: Cache, nexthop: Addr): (r: Option<Net>)
    ensures r.Some? ==> Find(c, nexthop) == r && nexthop in c[r.value].refs
  {
    match Find(c, nexthop)
    case None => None
    case Some(n) => if nexthop in c[n].refs then Some(n) else None
  }

  /** One reference less in the entry at n; true when the entry lost its last next hop and left
      the cache. */
  function DropReference(c: Cache, n: Net, nexthop: Addr): (r: (Cache, bool))
    requires n in c && nexthop in c[n].refs
  {
    var e := c[n];
    var refs := if e.refs[nexthop] == 1 then e.refs - {nexthop} else e.refs[nexthop := e.refs[nexthop] - 1];
    if refs == map[] then (c - {n}, true) else (c[n := e.(refs := refs)], false)
  }

  function CacheDeregister(c: Cache, nexthop: Addr): (r: (Cache, bool))
    requires Holder(c, nexthop).Some?
  {
    DropReference(c, Holder(c, nexthop).value, nexthop)
  }

  // ---- NextHopRibRequest --------------------------------------------------------------

  /** The first registration for the next hop in the queue. */
  function RegisterIndex(q: seq<Request>, nexthop: Addr): (r: Option<nat>)
    ensures r.Some? ==> r.value < |q| && q[r.value].Register? && q[r.value].nexthop == nexthop
    ensures r.Some? ==> forall j | 0 <= j < r.value :: !(q[j].Register? && q[j].nexthop == nexthop)
    ensures r.None? ==> forall j | 0 <= j < |q| :: !(q[j].Register? && q[j].nexthop == nexthop)
  {
    if q == [] then None
    else if q[0].Register? && q[0].nexthop == nexthop then Some(0)
    else
      match RegisterIndex(q[1..], nexthop)
      case None => assert forall j | 1 <= j < |q| :: q[j] == q[1..][j - 1]; None
      case Some(k) => assert forall j | 1 <= j < k + 1 :: q[j] == q[1..][j - 1]; Some(k + 1)
  }

  /** Where the queue holds a deregistration of the range. */
  function DeregisterIndex(q: seq<Request>, addr: Addr, len: nat): (r: Option<nat>)
    ensures r.Some? ==> r.value < |q| && q[r.value] == Deregister(addr, len)
    ensures r.Some? ==> forall j | 0 <= j < r.value :: q[j] != Deregister(addr, len)
    ensures r.None? ==> forall j | 0 <= j < |q| :: q[j] != Deregister(addr, len)
  {
    if q == [] then None
    else if q[0] == Deregister(addr, len) then Some(0)
    else
      match DeregisterIndex(q[1..], addr, len)
      case None => assert forall j | 1 <= j < |q| :: q[j] == q[1..][j - 1]; None
      case Some(k) => assert forall j | 1 <= j < k + 1 :: q[j] == q[1..][j - 1]; Some(k + 1)
  }

  function SendNext(s: State): State {
    if s.queue == [] then s.(busy := false)
    else s.(busy := true, calls := s.calls + [CallOf(s.queue[0])])
  }

  function SendIfIdle(s: State): State {
    if s.busy then s else SendNext(s)
  }

  function Enqueue(s: State, r: Request): State {
    SendIfIdle(s.(queue := s.queue + [r]))
  }

  function DeregisterFromRib(s: State, addr: Addr, len: nat): State {
    if DeregisterIndex(s.queue, addr, len).Some? then s else Enqueue(s, Deregister(addr, len))
  }

  /** The re-registration in the queue that still answers lookups for the next hop. */
  function StaleIndex(q: seq<Request>, nexthop: Addr): (r: Option<nat>)
    ensures r.Some? ==> r.value < |q| && q[r.value].Register? && q[r.value].nexthop == nexthop && q[r.value].reregister
    ensures r.Some? ==> forall j | 0 <= j < r.value :: !(q[j].Register? && q[j].nexthop == nexthop && q[j].reregister)
    ensures r.None? ==> forall j | 0 <= j < |q| :: !(q[j].Register? && q[j].nexthop == nexthop && q[j].reregister)
  {
    if q == [] then None
    else if q[0].Register? && q[0].nexthop == nexthop && q[0].reregister then Some(0)
    else
      match StaleIndex(q[1..], nexthop)
      case None => assert forall j | 1 <= j < |q| :: q[j] == q[1..][j - 1]; None
      case Some(k) => assert forall j | 1 <= j < k + 1 :: q[j] == q[1..][j - 1]; Some(k + 1)
  }

  /** NextHopResolver::lookup: resolvability and metric of the next hop. */
  function Lookup(ribnameSet: bool, c: Cache, q: seq<Request>, nexthop: Addr): Option<(bool, nat)> {
    if !ribnameSet then Some((true, 1))
    else if Holder(c, nexthop).Some? then
      var e := c[Holder(c, nexthop).value];
      Some((e.resolvable, e.metric))
    else
      match StaleIndex(q, nexthop)
      case None => None
      case Some(i) => Some((q[i].resolvable, StaleMetric(q[i])))
  }

  /** next_hop_changed with the old answer: decision hears of it only if the answer differs. */
  function NextHopChanged(
    ribnameSet: bool, c: Cache, q: seq<Request>, ups: seq<Upcall>, nexthop: Addr, oldResolves: bool, oldMetric: nat
  ): Outcome<seq<Upcall>>
  {
    match Lookup(ribnameSet, c, q, nexthop)
    case None => Abort
    case Some((resolvable, metric)) =>
      if resolvable != oldResolves || (resolvable && metric != oldMetric)
      then Next(ups + [IgpNexthopChanged(nexthop)])
      else Next(ups)
  }

  // ---- The steps of NextHopResolver ---------------------------------------------------

  function RegisterNexthop(s: State, nexthop: Addr, net: Net, requester: nat): Outcome<State> {
    if !s.ribnameSet then Next(s)
    else
      match CacheRegister(s.cache, nexthop, 1)
      case Some(c) => Next(s.(cache := c))
      case None =>
        match RegisterIndex(s.queue, nexthop)
        case Some(i) =>
          var r := s.queue[i];
          if !r.reregister && !r.newRegister then Abort
          else
            var r' := r.(newRegister := true, requests := AddRequest(r.requests, net, requester));
            Next(s.(queue := s.queue[i := r']))
        case None =>
          Next(Enqueue(s, Register(nexthop, true, AddRequest(NO_REQUESTS, net, requester), false, 0, false, 0)))
  }

  /** RibRegisterQueueEntry::deregister_nexthop; None when nothing was found to remove. */
  function EntryDeregister(r: Request, net: Net, requester: nat): Outcome<Option<Request>>
    requires r.Register?
  {
    if !r.reregister && !r.newRegister then Abort
    else if r.newRegister && RemoveRequest(r.requests, net, requester).Some? then
      Next(Some(r.(requests := RemoveRequest(r.requests, net, requester).value)))
    else if r.reregister then
      if r.refCnt > 0 then Next(Some(r.(refCnt := r.refCnt - 1))) else Abort
    else Next(None)
  }

  /** NextHopRibRequest::deregister_nexthop: the reference is one still waiting in the queue. */
  function DeregisterQueued(s: State, nexthop: Addr, net: Net, requester: nat): Outcome<State> {
    match RegisterIndex(s.queue, nexthop)
    case None => Abort
    case Some(i) =>
      match EntryDeregister(s.queue[i], net, requester)
      case Abort => Abort
      case Next(None) => Next(s)
      case Next(Some(r)) => Next(s.(queue := s.queue[i := r]))
  }

  function DeregisterNexthop(s: State, nexthop: Addr, net: Net, requester: nat): Outcome<State> {
    if !s.ribnameSet then Next(s)
    else if Holder(s.cache, nexthop).Some? then
      var e := s.cache[Holder(s.cache, nexthop).value];
      var (c, last) := CacheDeregister(s.cache, nexthop);
      var s1 := s.(cache := c);
      if last then Next(DeregisterFromRib(s1, e.address, e.prefixLen)) else Next(s1)
    else DeregisterQueued(s, nexthop, net, requester)
  }

  /** Whether a deregistration finds a reference to take away. */
  predicate DeregisterFinds(s: State, nexthop: Addr, net: Net, requester: nat) {
    || Holder(s.cache, nexthop).Some?
    || (RegisterIndex(s.queue, nexthop).Some? &&
        var d := EntryDeregister(s.queue[RegisterIndex(s.queue, nexthop).value], net, requester);
        d.Next? && d.value.Some?)
  }

  /** Ask the RIB again for a next hop whose answer went away. */
  function AskAgain(s: State, nexthop: Addr, refCnt: int, resolvable: bool, metric: nat): Outcome<State> {
    match RegisterIndex(s.queue, nexthop)
    case Some(i) =>
      var r := s.queue[i];
      if r.reregister || r.refCnt != 0 then Abort
      else
        var r' := r.(reregister := true, refCnt := refCnt, resolvable := resolvable, metric := metric);
        Next(s.(queue := s.queue[i := r']))
    case None =>
      Next(Enqueue(s, Register(nexthop, false, NO_REQUESTS, true, refCnt, resolvable, metric)))
  }

  function ReregisterNexthop(s: State, nexthop: Addr, refCnt: int, resolvable: bool, metric: nat): Outcome<State> {
    match CacheRegister(s.cache, nexthop, refCnt)
    case Some(c) =>
      (match NextHopChanged(s.ribnameSet, c, s.queue, s.upcalls, nexthop, resolvable, metric)
       case Abort => Abort
       case Next(ups) => Next(s.(cache := c, upcalls := ups)))
    case None => AskAgain(s, nexthop, refCnt, resolvable, metric)
  }

  function ReregisterAll(s: State, nexthops: seq<Addr>, e: Entry): Outcome<State>
    requires forall nh | nh in nexthops :: nh in e.refs
    decreases |nexthops|
  {
    if nexthops == [] then Next(s)
    else
      match ReregisterNexthop(s, nexthops[0], e.refs[nexthops[0]], e.resolvable, e.metric)
      case Abort => Abort
      case Next(s1) => ReregisterAll(s1, nexthops[1..], e)
  }

  /** An invalidation of a range that is not cached: the request in flight asked for it, or a
      queued deregistration names it. None when neither. */
  function PrematureInvalid(s: State, addr: Addr, len: nat): Outcome<Option<State>>
    requires len <= |addr|
  {
    if !s.busy then Next(None)
    else if s.queue == [] then Abort
    else if s.queue[0].Register? && len <= |s.queue[0].nexthop| &&
            MakeNet(addr, len) == MakeNet(s.queue[0].nexthop, len) then
      if s.invalid.Some? then Abort else Next(Some(s.(invalid := Some(MakeNet(addr, len)))))
    else
      match DeregisterIndex(s.queue, addr, len)
      case None => Next(None)
      case Some(i) =>
        if i == 0 then
          if s.invalid.Some? then Abort else Next(Some(s.(invalid := Some(MakeNet(addr, len)))))
        else Next(Some(s.(queue := s.queue[..i] + s.queue[i + 1..])))
  }

  function TardyInvalid(s: State, addr: Addr, len: nat): Outcome<State>
    requires len <= |addr|
  {
    if s.tardy.None? then Next(s)
    else if |s.tardy.value| == len && MaskedAddr(s.tardy.value, |addr|) == addr
    then Next(s.(tardy := None))
    else Abort
  }

  ghost function RouteInfoInvalid(s: State, addr: Addr, len: nat): Outcome<State>
    requires len <= |addr|
  {
    var n := MakeNet(addr, len);
    if n in s.cache then
      if s.cache[n].address != addr then Abort
      else
        var s1 := s.(cache := s.cache - {n});
        ReregisterAll(s1, InOrder(s.cache[n].refs.Keys), s.cache[n])
    else
      match PrematureInvalid(s, addr, len)
      case Abort => Abort
      case Next(Some(s1)) => Next(s1)
      case Next(None) => TardyInvalid(s, addr, len)
  }

  ghost function ChangedUpcalls(nexthops: seq<Addr>): seq<Upcall> {
    if nexthops == [] then [] else [IgpNexthopChanged(nexthops[0])] + ChangedUpcalls(nexthops[1..])
  }

  ghost function RouteInfoChanged(s: State, addr: Addr, len: nat, metric: nat): Outcome<State>
    requires len <= |addr|
  {
    var n := MakeNet(addr, len);
    if n !in s.cache || s.cache[n].address != addr then Abort
    else
      var e := s.cache[n];
      Next(s.(cache := s.cache[n := e.(metric := metric)],
              upcalls := s.upcalls + ChangedUpcalls(InOrder(e.refs.Keys))))
  }

  /** What the loop over the queue carries while it hands out a new answer. */
  datatype Pass = Pass(cache: Cache, queue: seq<Request>, upcalls: seq<Upcall>)

  /** The nets each requester is told about; one whose nets were all withdrawn is told of none. */
  function RequestNets(r: NHRequest): map<nat, set<Net>> {
    map k | k in r.requesters :: set p | p in r.nets && p.0 == k :: p.1
  }

  /** The first half of satisfying a queued registration: its new requests. */
  function SatisfyNew(p: Pass, r: Request): Pass
    requires r.Register? && Covered(p.cache, r.nexthop)
  {
    if r.newRegister && r.requests.total != 0 then
      var resolvable := p.cache[Find(p.cache, r.nexthop).value].resolvable;
      Pass(CacheRegister(p.cache, r.nexthop, r.requests.total).value, p.queue,
           p.upcalls + [LookupDone(r.nexthop, RequestNets(r.requests), resolvable)])
    else p
  }

  /** The second half: the references carried over from an invalidated answer. */
  function SatisfyOld(ribnameSet: bool, p: Pass, r: Request): Outcome<Pass>
    requires r.Register? && Covered(p.cache, r.nexthop)
  {
    if r.reregister && r.refCnt != 0 then
      var c := CacheRegister(p.cache, r.nexthop, r.refCnt).value;
      match NextHopChanged(ribnameSet, c, p.queue, p.upcalls, r.nexthop, r.resolvable, StaleMetric(r))
      case Abort => Abort
      case Next(ups) => Next(Pass(c, p.queue, ups))
    else Next(p)
  }

  function Satisfy(ribnameSet: bool, p: Pass, r: Request): Outcome<Pass>
    requires r.Register? && Covered(p.cache, r.nexthop)
  {
    CoveredAfterRegister(p.cache, r.nexthop, r.requests.total);
    SatisfyOld(ribnameSet, SatisfyNew(p, r), r)
  }

  /** Hand the answers in the cache to the registrations in the queue from position i on, up to
      the first that no entry covers; deregistrations are passed over. */
  function Drain(ribnameSet: bool, p: Pass, i: nat): Outcome<Pass>
    requires i <= |p.queue|
    decreases |p.queue| - i
  {
    if i == |p.queue| then Next(p)
    else if p.queue[i].Deregister? then Drain(ribnameSet, p, i + 1)
    else
      var r := p.queue[i];
      if !Covered(p.cache, r.nexthop) then Next(p)
      else if !r.newRegister && !r.reregister then Abort
      else
        match Satisfy(ribnameSet, p, r)
        case Abort => Abort
        case Next(p2) => Drain(ribnameSet, p2.(queue := p2.queue[..i] + p2.queue[i + 1..]), i)
  }

  /** One turn of the loop. */
  lemma DrainUnfold(ribnameSet: bool, p: Pass, i: nat, p': Pass)
    requires i < |p.queue| && p.queue[i].Register? && Covered(p.cache, p.queue[i].nexthop)
    requires p.queue[i].newRegister || p.queue[i].reregister
    requires Satisfy(ribnameSet, p, p.queue[i]) == Next(p') && p'.queue == p.queue
    ensures Drain(ribnameSet, p, i) == Drain(ribnameSet, p'.(queue := p.queue[..i] + p.queue[i + 1..]), i)
  {
  }

  lemma CoveredAfterRegister(c: Cache, nexthop: Addr, incr: int)
    requires Covered(c, nexthop)
    ensures Covered(CacheRegister(c, nexthop, incr).value, nexthop)
  {
    var c' := CacheRegister(c, nexthop, incr).value;
    assert Find(c, nexthop).value in c';
  }

  datatype ReplyCode = Okay | CommandFailed | ResolveFailed | OtherError

  /** The end of taking in an answer: an entry nobody wants any more is given back, and the next
      request goes out. */
  function Settle(s: State, n: Net, addr: Addr, len: nat): Outcome<State> {
    if n !in s.cache then Abort
    else if s.cache[n].refs == map[] then
      Next(SendNext(DeregisterFromRib(s.(cache := s.cache - {n}), addr, len)))
    else Next(SendNext(s))
  }

  /** add_entry, the loop over the queue, and validate_entry. */
  function TakeAnswer(s: State, e: Entry): Outcome<State>
    requires e.prefixLen <= |e.address|
  {
    var n := MakeNet(e.address, e.prefixLen);
    if n in s.cache ||
       (exists m | m in s.cache :: s.cache[m].realPrefixLen == e.realPrefixLen && s.cache[m].address == e.address) then
      Abort
    else
      match Drain(s.ribnameSet, Pass(s.cache[n := e], s.queue, s.upcalls), 0)
      case Abort => Abort
      case Next(p) => Settle(s.(cache := p.cache, queue := p.queue, upcalls := p.upcalls), n, e.address, e.prefixLen)
  }

  /** The answer is a range that holds the next hop at the front of the queue. */
  predicate AnswersFront(q: seq<Request>, addr: Addr, len: nat) {
    && q != [] && q[0].Register?
    && len <= |addr| && len <= |q[0].nexthop| && MakeNet(addr, len) == MakeNet(q[0].nexthop, len)
  }

  /** An answer is thrown away, and asked for again, if an invalidation of its range overtook it. */
  function AcceptAnswer(s: State, resolves: bool, addr: Addr, len: nat, realLen: nat, metric: nat): Outcome<State>
    requires AnswersFront(s.queue, addr, len)
  {
    if s.invalid.Some? then
      if |s.invalid.value| == len && addr == MaskedAddr(s.invalid.value, |addr|)
      then Next(SendNext(s.(invalid := None)))
      else Abort
    else if addr != MaskByPrefixLen(s.queue[0].nexthop, len) then Abort
    else TakeAnswer(s, Entry(addr, len, realLen, resolves, metric, map[]))
  }

  function RegisterInterestResponse(
    s: State, code: ReplyCode, resolves: bool, addr: Addr, len: nat, realLen: nat, metric: nat
  ): Outcome<State>
  {
    if code != Okay || realLen > |addr| || !AnswersFront(s.queue, addr, len) then Abort
    else AcceptAnswer(s.(replies := s.replies + 1), resolves, addr, len, realLen, metric)
  }

  /** What a failed deregistration says about invalidations: the RIB had already dropped the
      range, so its notice either came first or is still to come. */
  function NoteFailure(s: State, addr: Addr, len: nat): Outcome<State>
    requires len <= |addr|
  {
    if s.invalid.None? then Next(s.(tardy := Some(MakeNet(addr, len))))
    else if |s.invalid.value| == len && MaskedAddr(s.invalid.value, |addr|) == addr then Next(s.(invalid := None))
    else Abort
  }

  function PopFront(s: State): State
    requires s.queue != []
  {
    SendNext(s.(queue := s.queue[1..], replies := s.replies + 1))
  }

  function DeregisterInterestResponse(s: State, code: ReplyCode, addr: Addr, len: nat): Outcome<State>
    requires len <= |addr|
  {
    if s.queue == [] || s.queue[0] != Deregister(addr, len) then Abort
    else
      match code
      case OtherError => Abort
      case ResolveFailed => Next(s.(queue := [], replies := s.replies + 1))
      case Okay => Next(PopFront(s))
      case CommandFailed =>
        match NoteFailure(s, addr, len)
        case Abort => Abort
        case Next(s1) => Next(PopFront(s1))
  }
}
